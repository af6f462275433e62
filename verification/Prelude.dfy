/** Shared vocabulary: optional values and the character classes the services' patterns use. */
module Prelude {

  datatype Option<+T> = None | Some(value: T)

  predicate IsDigit(c: char) { '0' <= c <= '9' }

  predicate IsHex(c: char) { IsDigit(c) || 'a' <= c <= 'f' }

  predicate IsAlphanumeric(c: char) { IsDigit(c) || 'a' <= c <= 'z' || 'A' <= c <= 'Z' }

  /** Every character of `s` satisfies `p`: the `[...]*` of a pattern. */
  predicate AllOf(s: string, p: char -> bool) { forall i :: 0 <= i < |s| ==> p(s[i]) }

  predicate Distinct<T(==)>(s: seq<T>) { forall i, j :: 0 <= i < j < |s| ==> s[i] != s[j] }

  /** t[1-9][0-9]* */
  predicate IsTenantId(s: string)
  {
    |s| >= 2 && s[0] == 't' && '1' <= s[1] <= '9' && AllOf(s[2..], IsDigit)
  }

  /** [A-Za-z0-9._-]{1,96}, the shape of an Asterisk Uniqueid. */
  predicate IsUniqueId(s: string)
  {
    1 <= |s| <= 96 && AllOf(s, c => IsAlphanumeric(c) || c == '.' || c == '_' || c == '-')
  }

  /** The number that decimal digits write. */
  function Decimal(digits: string): nat
    requires AllOf(digits, IsDigit)
  {
    if digits == "" then 0
    else 10 * Decimal(digits[..|digits| - 1]) + (digits[|digits| - 1] as int - '0' as int)
  }

  /** An AMI event: its fields, by name. */
  type Event = map<string, string>

  function Get(event: Event, key: string): Option<string>
  {
    if key in event then Some(event[key]) else None
  }
}
