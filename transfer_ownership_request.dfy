/** Validation of a transfer-of-ownership request: `new_owner_id` is required, must name an
    existing user, and a closure rule refuses the current owner and non-members. */
module TransferOwnershipRequest {
  import opened Domain
  import PP = ProjectPolicy
  import PR = ProjectRepository

  /** The messages the validator can report for `new_owner_id`. */
  datatype RuleError = Required | NotAnExistingUser | CannotTransferToSelf | NewOwnerNotMember

  /** The closure rule: the self check comes first and returns, then the member check. */
  function OwnerRule(v: UserId, a: ProjectAccess): (errs: seq<RuleError>)
    ensures |errs| <= 1
    ensures errs == [] <==> v != a.owner && v in a.members
  {
    if v == a.owner then [CannotTransferToSelf]
    else if v !in a.members then [NewOwnerNotMember]
    else []
  }

  /** The errors for `new_owner_id` (`None` when the field is missing). A missing value
      fails `required`, which stops the other rules; `exists` does not stop them, so an
      unknown id is also run through the closure rule. `users` is the set of ids in the
      users table. */
  function Validate(newOwnerId: Option<UserId>, users: set<UserId>, a: ProjectAccess): (errs: seq<RuleError>)
    ensures newOwnerId.None? ==> errs == [Required]
    ensures newOwnerId.Some? ==>
      (NotAnExistingUser in errs <==> newOwnerId.value !in users)
    ensures |errs| <= 2
  {
    match newOwnerId
    case None => [Required]
    case Some(v) => (if v in users then [] else [NotAnExistingUser]) + OwnerRule(v, a)
  }

  /** A request passes exactly when it names an existing user who is a member and not the
      current owner. */
  lemma {:induction false} ValidateAcceptsExactly(v: UserId, users: set<UserId>, a: ProjectAccess)
    ensures Validate(Some(v), users, a) == [] <==> v in users && v in a.members && v != a.owner
    ensures CannotTransferToSelf in Validate(Some(v), users, a) <==> v == a.owner
    ensures NewOwnerNotMember in Validate(Some(v), users, a) <==> v != a.owner && v !in a.members
  {
    var head: seq<RuleError> := if v in users then [] else [NotAnExistingUser];
    var tail := OwnerRule(v, a);
    assert Validate(Some(v), users, a) == head + tail;
    assert CannotTransferToSelf in head + tail <==> CannotTransferToSelf in tail;
    assert NewOwnerNotMember in head + tail <==> NewOwnerNotMember in tail;
  }

  /** Behind a request that passed, the repository's transfer cannot fail, and it really
      moves ownership: the new owner holds it alone and the previous owner becomes an
      admin. */
  lemma {:induction false} ValidatedTransferSucceeds(v: UserId, users: set<UserId>, a: ProjectAccess)
    requires PP.OwnerConsistent(a)
    requires Validate(Some(v), users, a) == []
    ensures PR.Transfer(a, v, users).Success?
    ensures var b := PR.Transfer(a, v, users).value;
      && b.owner == v && b != a
      && PP.OwnerConsistent(b)
      && PP.GetRole(a.owner, b) == Some(Admin)
      && PP.TransferOwnership(v, b) && !PP.TransferOwnership(a.owner, b)
  {
    ValidateAcceptsExactly(v, users, a);
    PR.TransferKeepsOwnership(a, v, users);
  }

  /** The repository accepts a transfer to the current owner; only the request stops it. */
  lemma SelfTransferOnlyStoppedByRequest(users: set<UserId>, a: ProjectAccess)
    requires PP.OwnerConsistent(a) && a.owner in users
    ensures Validate(Some(a.owner), users, a) == [CannotTransferToSelf]
    ensures PR.Transfer(a, a.owner, users) == Success(a)
  {
    PR.TransferToOwnerIsIdentity(a, users);
  }
}
