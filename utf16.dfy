/// Java strings as sequences of UTF-16 code units, and the "UTF-16BE"
/// charset: each code unit is two bytes, high byte first (RFC 2781,
/// sections 2.1 and 3.1), with no byte-order mark written.

module Utf16 {
  import opened Bytes

  /** A UTF-16 code unit (a Java `char`). */
  newtype CodeUnit = x: int | 0 <= x < 0x1_0000

  /** A non-null Java `String`. */
  type JString = seq<CodeUnit>

  /** U+FFFD, which the decoder substitutes for malformed input. */
  const REPLACEMENT: CodeUnit := 0xFFFD

  function UnitBytes(u: CodeUnit): (r: seq<byte>)
    ensures |r| == 2
  {
    [(u / 256) as byte, (u % 256) as byte]
  }

  function Unit(hi: byte, lo: byte): CodeUnit
  {
    (hi as CodeUnit) * 256 + lo as CodeUnit
  }

  lemma UnitRoundTrip(u: CodeUnit)
    ensures Unit(UnitBytes(u)[0], UnitBytes(u)[1]) == u
  {
  }

  /** `s.getBytes("UTF-16BE")`. */
  function Encode(s: JString): (r: seq<byte>)
    ensures |r| == 2 * |s|
  {
    if s == [] then [] else UnitBytes(s[0]) + Encode(s[1..])
  }

  /** U+FFFE, a byte-order mark read the wrong way round. */
  const REVERSED_MARK: CodeUnit := 0xFFFE

  predicate IsHighSurrogate(u: CodeUnit)
  {
    0xD800 <= u <= 0xDBFF
  }

  predicate IsLowSurrogate(u: CodeUnit)
  {
    0xDC00 <= u <= 0xDFFF
  }

  /** Well-formed UTF-16 that the JDK's UTF-16BE decoder accepts: every high
      surrogate is followed by a low one, no low surrogate stands alone, and
      U+FFFE does not occur. */
  predicate Valid(s: JString)
    decreases |s|
  {
    if s == [] then true
    else if s[0] == REVERSED_MARK || IsLowSurrogate(s[0]) then false
    else if IsHighSurrogate(s[0]) then |s| >= 2 && IsLowSurrogate(s[1]) && Valid(s[2..])
    else Valid(s[1..])
  }

  /** `new String(b, "UTF-16BE")`: pairs of bytes become code units, high
      byte first. Malformed input becomes one U+FFFD each:
      - U+FFFE, or a low surrogate on its own (two bytes);
      - a high surrogate followed by a unit that is not a low surrogate
        (four bytes, the second unit included);
      - the 1 to 3 bytes left at the end when they do not make a complete
        unit or surrogate pair.
      The result is always well-formed, and never longer than one unit per
      byte pair. */
  function Decode(b: seq<byte>): (s: JString)
    ensures |s| <= (|b| + 1) / 2
    ensures Valid(s)
  {
    if |b| == 0 then []
    else if |b| == 1 then [REPLACEMENT]
    else
      var c := Unit(b[0], b[1]);
      if c == REVERSED_MARK || IsLowSurrogate(c) then
        var t := Decode(b[2..]);
        assert ([REPLACEMENT] + t)[1..] == t;
        [REPLACEMENT] + t
      else if IsHighSurrogate(c) then
        if |b| < 4 then [REPLACEMENT]
        else
          var c2 := Unit(b[2], b[3]);
          var t := Decode(b[4..]);
          if IsLowSurrogate(c2) then
            assert ([c, c2] + t)[2..] == t;
            [c, c2] + t
          else
            assert ([REPLACEMENT] + t)[1..] == t;
            [REPLACEMENT] + t
      else
        var t := Decode(b[2..]);
        assert ([c] + t)[1..] == t;
        [c] + t
  }

  /** Decoding the UTF-16BE bytes of a well-formed string gives it back. */
  lemma {:induction false} DecodeEncode(s: JString)
    requires Valid(s)
    ensures Decode(Encode(s)) == s
    decreases |s|
  {
    if s != [] {
      var e := Encode(s);
      UnitRoundTrip(s[0]);
      assert e[..2] == UnitBytes(s[0]) && e[2..] == Encode(s[1..]);
      if IsHighSurrogate(s[0]) {
        var r := s[1..];
        assert Encode(r) == UnitBytes(r[0]) + Encode(r[1..]);
        UnitRoundTrip(s[1]);
        assert e[2..4] == UnitBytes(s[1]) && e[4..] == Encode(s[2..]);
        assert r[1..] == s[2..];
        DecodeEncode(s[2..]);
        assert s == [s[0], s[1]] + s[2..];
      } else {
        DecodeEncode(s[1..]);
        assert s == [s[0]] + s[1..];
      }
    }
  }

  /** Exactly the well-formed strings survive the trip through the wire:
      any other string comes back changed. */
  lemma StringsThatSurvive(s: JString)
    ensures Decode(Encode(s)) == s <==> Valid(s)
  {
    if Valid(s) {
      DecodeEncode(s);
    }
  }

  /** A byte-order mark the wrong way round, and a high surrogate followed
      by 'A', each decode to a single U+FFFD; a low surrogate on its own
      is replaced and the next unit kept; a high surrogate cut off by the
      end of input, and a lone trailing byte, also become U+FFFD. */
  lemma MalformedInputs()
    ensures Decode([0xFF, 0xFE]) == [REPLACEMENT]
    ensures Decode([0xD8, 0x00, 0x00, 0x41]) == [REPLACEMENT]
    ensures Decode([0xDC, 0x00, 0x00, 0x41]) == [REPLACEMENT, 0x41]
    ensures Decode([0xD8, 0x00, 0x00]) == [REPLACEMENT]
    ensures Decode([0x00, 0x41, 0x00]) == [0x41, REPLACEMENT]
  {
    assert Unit(0xFF, 0xFE) == REVERSED_MARK;
    var b: seq<byte> := [0xDC, 0x00, 0x00, 0x41];
    assert b[2..] == [0x00, 0x41];
    var c: seq<byte> := [0xD8, 0x00, 0x00, 0x41];
    assert c[4..] == [];
  }

  lemma {:induction false} EncodeAppend(s: JString, t: JString)
    ensures Encode(s + t) == Encode(s) + Encode(t)
  {
    if s == [] {
      assert s + t == t;
    } else {
      assert (s + t)[0] == s[0];
      assert (s + t)[1..] == s[1..] + t;
      EncodeAppend(s[1..], t);
    }
  }

  /** "352 chat", the handshake protocol string. */
  const PROTOCOL_STRING: JString := [0x33, 0x35, 0x32, 0x20, 0x63, 0x68, 0x61, 0x74]

  /** `PROTOCOL_STRING.getBytes("UTF-16BE")`, the 16 bytes a handshake
      carries before the listen port. */
  const PROTOCOL_BYTES: seq<byte> := Encode(PROTOCOL_STRING)

  lemma ProtocolStringBytes()
    ensures |PROTOCOL_BYTES| == 16
  {
  }
}
