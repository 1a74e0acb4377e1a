/** The Bean Validation constraints the entities and request bodies use, with
    the semantics of their standard validators: `@NotBlank` rejects null and
    strings that `trim()` empties, `@Size` and `@Future` accept null, and
    `@NotEmpty` rejects an empty list. Lengths count characters. */
module Constraints {

  import opened Results

  /** One violated constraint, as reported to the client: field and message. */
  datatype FieldError = FieldError(field: string, message: string)

  /** Characters `String.trim()` removes: every code point up to U+0020. */
  predicate IsTrimmed(c: char) { c <= ' ' }

  /** `s` without its leading trimmed characters. */
  function TrimStart(s: string): (r: string)
    ensures |r| <= |s| && r == s[|s| - |r|..]
    ensures r != [] ==> !IsTrimmed(r[0])
    ensures forall i :: 0 <= i < |s| - |r| ==> IsTrimmed(s[i])
  {
    if s == [] || !IsTrimmed(s[0]) then s else TrimStart(s[1..])
  }

  /** `s` without its trailing trimmed characters. */
  function TrimEnd(s: string): (r: string)
    ensures |r| <= |s| && r == s[..|r|]
    ensures r != [] ==> !IsTrimmed(r[|r| - 1])
    ensures forall i :: |r| <= i < |s| ==> IsTrimmed(s[i])
  {
    if s == [] || !IsTrimmed(s[|s| - 1]) then s else TrimEnd(s[..|s| - 1])
  }

  /** `String.trim()`. */
  function Trim(s: string): string {
    TrimEnd(TrimStart(s))
  }

  /** `@NotBlank`: present, and something is left after trimming. */
  predicate NotBlank(s: Option<string>) {
    s.Some? && |Trim(s.value)| > 0
  }

  /** A string is blank exactly when every character is one `trim()` removes. */
  lemma TrimEmptyIffAllTrimmed(s: string)
    ensures |Trim(s)| == 0 <==> forall i :: 0 <= i < |s| ==> IsTrimmed(s[i])
  {
    var t := TrimStart(s);
    if |Trim(s)| != 0 {
      var k := |s| - |t|;
      assert t[0] == s[k] && !IsTrimmed(s[k]);
    }
  }

  /** `@Size(min, max)`: null passes; otherwise the length lies in the range. */
  predicate SizeWithin(s: Option<string>, min: nat, max: nat) {
    s.None? || min <= |s.value| <= max
  }

  /** `@Future`: null passes; otherwise strictly after the current instant. */
  predicate InFuture(d: Option<int>, now: int) {
    d.None? || d.value > now
  }

  /** One constraint's contribution to the violation list. */
  function Check(holds: bool, field: string, message: string): (r: seq<FieldError>)
    ensures r == [] <==> holds
    ensures forall e :: e in r ==> e.field == field
  {
    if holds then [] else [FieldError(field, message)]
  }

  /** Hibernate Validator's default message for `@NotNull`. */
  const MustNotBeNull := "must not be null"
}
