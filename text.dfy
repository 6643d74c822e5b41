/// The few `java.lang.String` operations the node applies to typed text:
/// `indexOf` of one code unit and `equalsIgnoreCase` against an ASCII
/// literal.

module JavaText {
  import opened Utf16

  /** `indexOf(u)`: the first position of u, or -1. */
  function IndexOf(s: JString, u: CodeUnit): (k: int)
    ensures -1 <= k < |s|
    ensures k >= 0 ==> s[k] == u
    ensures forall j :: 0 <= j < |s| && (k < 0 || j < k) ==> s[j] != u
  {
    if s == [] then -1
    else if s[0] == u then 0
    else
      var k := IndexOf(s[1..], u);
      assert forall j :: 1 <= j < |s| ==> s[j] == s[1..][j - 1];
      if k < 0 then -1 else k + 1
  }

  predicate IsAscii(l: CodeUnit)
  {
    l < 0x80
  }

  predicate IsLower(l: CodeUnit)
  {
    0x61 <= l <= 0x7A
  }

  predicate IsUpper(l: CodeUnit)
  {
    0x41 <= l <= 0x5A
  }

  /** Whether `equalsIgnoreCase` pairs the ASCII code unit l with c: it
      compares the upper cases of the two, then the lower cases of those
      upper cases. Besides the other ASCII case of a letter, three non-ASCII
      code units meet an ASCII letter that way: U+0130 and U+0131 (i),
      U+017F (s) and U+212A (k). */
  predicate SameIgnoringCase(l: CodeUnit, c: CodeUnit)
    requires IsAscii(l)
  {
    c == l
    || (IsLower(l) && c as int == l as int - 0x20)
    || (IsUpper(l) && c as int == l as int + 0x20)
    || ((l == 0x69 || l == 0x49) && (c == 0x130 || c == 0x131))
    || ((l == 0x73 || l == 0x53) && c == 0x17F)
    || ((l == 0x6B || l == 0x4B) && c == 0x212A)
  }

  /** `pattern.equalsIgnoreCase(s)` for an ASCII pattern and a non-null s:
      the same length, and each pair of code units the same ignoring case. */
  predicate EqualsIgnoreCase(pattern: JString, s: JString)
    requires forall i :: 0 <= i < |pattern| ==> IsAscii(pattern[i])
  {
    |s| == |pattern| && forall i :: 0 <= i < |s| ==> SameIgnoringCase(pattern[i], s[i])
  }
}
