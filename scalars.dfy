/** The few PHP scalar conventions the filters and validators depend on: `empty()` on a
    string, `ctype_digit`, integer conversion of a digit string and ASCII `strtolower`. */
module Scalars {
  import opened Domain

  /** `empty($v)` for a nullable string: null, "" and "0" are empty. */
  predicate Blank(v: Option<string>)
  {
    v.None? || v.value == "" || v.value == "0"
  }

  predicate IsDigit(c: char)
  {
    '0' <= c <= '9'
  }

  /** `ctype_digit($s)`: a non-empty string of decimal digits. */
  predicate IsDigits(s: string)
  {
    |s| > 0 && forall i :: 0 <= i < |s| ==> IsDigit(s[i])
  }

  /** The integer a string of decimal digits denotes (leading zeros allowed). */
  function DigitsValue(s: string): (n: nat)
    requires forall i :: 0 <= i < |s| ==> IsDigit(s[i])
    ensures n == 0 <==> forall i :: 0 <= i < |s| ==> s[i] == '0'
    decreases |s|
  {
    if s == [] then 0
    else
      var init := s[..|s| - 1];
      assert IsDigit(s[|s| - 1]);
      assert forall i :: 0 <= i < |init| ==> init[i] == s[i];
      var last: nat := s[|s| - 1] as int - '0' as int;
      assert last == 0 <==> s[|s| - 1] == '0';
      10 * DigitsValue(init) + last
  }

  /** Does the digit string `v` name the id `n`? A value that is not a digit string names
      no id. */
  predicate NamesId(v: string, n: int)
  {
    IsDigits(v) && DigitsValue(v) == n
  }

  /** ASCII-only lower casing, as PHP 8's `strtolower`. */
  function LowerChar(c: char): char
  {
    if 'A' <= c <= 'Z' then (c as int + 32) as char else c
  }

  function Lower(s: string): (r: string)
    ensures |r| == |s|
    ensures forall i :: 0 <= i < |s| ==> r[i] == LowerChar(s[i])
  {
    seq(|s|, i requires 0 <= i < |s| => LowerChar(s[i]))
  }
}
