/**
 Converting a DER-encoded ECDSA signature to the fixed-width form r || s.

 The encoder that the converter is held against follows ITU-T X.690: definite lengths (section
 8.1.3), two's-complement INTEGER contents (section 8.3) in the fewest octets, and the SEQUENCE of
 two INTEGERs of section 2.2.3 of RFC 3279. The fixed-width form is the one of section 3.4 of
 RFC 7518.
 */
module DerSignature {
  import opened Basics

  type byte = x: int | 0 <= x < 256
  type Bytes = seq<byte>

  const SEQUENCE: byte := 0x30
  const INTEGER: byte := 0x02
  const WIDTH: nat := 32

  // ----- The converter -----

  /** The big-endian value of a byte string. */
  function Value(b: Bytes): nat {
    if b == [] then 0 else 256 * Value(b[..|b| - 1]) + b[|b| - 1]
  }

  /** A DER length at `offset`, and the offset after it; long forms of one or two octets only. */
  function ReadLength(der: Bytes, offset: nat): Option<(nat, nat)> {
    if offset >= |der| then None
    else
      var first := der[offset];
      if first < 0x80 then Some((first, offset + 1))
      else
        var count := first - 0x80;
        if count == 0 || count > 2 || offset + 1 + count > |der| then None
        else
          var length := Value(der[offset + 1..offset + 1 + count]);
          if length < 0x80 then None else Some((length, offset + 1 + count))
  }

  /** One leading zero octet is dropped from contents of more than one octet. */
  function Strip(content: Bytes): Bytes {
    if |content| > 1 && content[0] == 0 then content[1..] else content
  }

  function Zeros(n: nat): Bytes {
    if n == 0 then [] else Zeros(n - 1) + [0]
  }

  /** Right-justified in `WIDTH` octets. */
  function Pad(b: Bytes): Bytes
    requires |b| <= WIDTH
  {
    Zeros(WIDTH - |b|) + b
  }

  /** The INTEGER at `offset` as `WIDTH` octets, and the offset after it. */
  function ReadInteger(der: Bytes, offset: nat): Option<(Bytes, nat)> {
    if offset >= |der| || der[offset] != INTEGER then None
    else
      var l := ReadLength(der, offset + 1);
      if l.None? || l.value.0 == 0 || l.value.1 + l.value.0 > |der| then None
      else
        var (length, start) := l.value;
        var value := Strip(der[start..start + length]);
        if |value| > WIDTH then None else Some((Pad(value), start + length))
  }

  function DerToRaw(der: Bytes): Option<Bytes> {
    if der == [] || der[0] != SEQUENCE then None
    else
      var l := ReadLength(der, 1);
      if l.None? || l.value.1 + l.value.0 != |der| then None
      else
        var r := ReadInteger(der, l.value.1);
        if r.None? then None
        else
          var s := ReadInteger(der, r.value.1);
          if s.None? || s.value.1 != |der| then None else Some(r.value.0 + s.value.0)
  }

  // ----- The encoder -----

  /** INTEGER contents that fit the converter: not empty, and at most `WIDTH` octets once stripped. */
  predicate Fits(content: Bytes) {
    1 <= |content| <= WIDTH + 1 && |Strip(content)| <= WIDTH
  }

  function IntegerTlv(content: Bytes): Bytes
    requires |content| < 0x80
  {
    [INTEGER, |content|] + content
  }

  function SequenceTlv(r: Bytes, s: Bytes): Bytes
    requires |r| <= WIDTH + 1 && |s| <= WIDTH + 1
  {
    [SEQUENCE, |r| + |s| + 4] + (IntegerTlv(r) + IntegerTlv(s))
  }

  /** The fewest octets of a number. */
  function Minimal(n: nat): Bytes {
    if n < 256 then [n] else Minimal(n / 256) + [n % 256]
  }

  /** DER contents of a non-negative INTEGER: a zero octet keeps the sign bit clear. */
  function Contents(n: nat): Bytes {
    if Minimal(n)[0] >= 0x80 then [0] + Minimal(n) else Minimal(n)
  }

  function Pow256(k: nat): nat {
    if k == 0 then 1 else 256 * Pow256(k - 1)
  }

  lemma {:induction false} MinimalMeans(n: nat)
    ensures Minimal(n) != [] && Value(Minimal(n)) == n && (|Minimal(n)| > 1 ==> Minimal(n)[0] != 0)
  {
    var m := Minimal(n);
    if n < 256 {
      assert m[..0] == [];
    } else {
      MinimalMeans(n / 256);
      assert m[..|m| - 1] == Minimal(n / 256);
      if |Minimal(n / 256)| == 1 {
        assert Minimal(n / 256)[0] == n / 256;
      }
    }
  }

  lemma {:induction false} MinimalIsShort(n: nat, k: nat)
    requires k >= 1 && n < Pow256(k)
    ensures |Minimal(n)| <= k
  {
    if n >= 256 {
      MinimalIsShort(n / 256, k - 1);
    }
  }

  lemma {:induction false} ValueOfZeros(n: nat, b: Bytes)
    ensures |Zeros(n)| == n && Value(Zeros(n) + b) == Value(b)
  {
    if b == [] {
      assert Zeros(n) + b == Zeros(n);
      if n > 0 {
        ValueOfZeros(n - 1, []);
        assert Zeros(n)[..n - 1] == Zeros(n - 1) && Zeros(n - 1) + [] == Zeros(n - 1);
      }
    } else {
      ValueOfZeros(n, b[..|b| - 1]);
      assert (Zeros(n) + b)[..|Zeros(n) + b| - 1] == Zeros(n) + b[..|b| - 1];
    }
  }

  lemma StripKeepsValue(content: Bytes)
    ensures Value(Strip(content)) == Value(content)
  {
    if |content| > 1 && content[0] == 0 {
      ValueOfZeros(1, content[1..]);
      assert Zeros(1) == [0] && [0] + content[1..] == content;
    }
  }

  lemma PadKeepsValue(b: Bytes)
    requires |b| <= WIDTH
    ensures |Pad(b)| == WIDTH && Value(Pad(b)) == Value(b)
  {
    ValueOfZeros(WIDTH - |b|, b);
  }

  /** There is one byte string of each length and value. */
  lemma {:induction false} ValueIsInjective(a: Bytes, b: Bytes)
    requires |a| == |b| && Value(a) == Value(b)
    ensures a == b
  {
    if a != [] {
      var n := |a| - 1;
      ValueIsInjective(a[..n], b[..n]);
      assert a == a[..n] + [a[n]] && b == b[..n] + [b[n]];
    }
  }

  /** ... and one without a leading zero octet. */
  lemma {:induction false} MinimalIsUnique(b: Bytes)
    requires b != [] && (|b| > 1 ==> b[0] != 0)
    ensures b == Minimal(Value(b))
  {
    var n := |b| - 1;
    if n == 0 {
      assert b[..0] == [];
    } else {
      MinimalIsUnique(b[..n]);
      ValuePositive(b[..n]);
      assert b == b[..n] + [b[n]];
      assert Value(b) / 256 == Value(b[..n]) && Value(b) % 256 == b[n];
    }
  }

  lemma {:induction false} ValuePositive(b: Bytes)
    requires b != [] && b[0] != 0
    ensures Value(b) >= 1
  {
    if |b| > 1 {
      ValuePositive(b[..|b| - 1]);
    }
  }

  // ----- Reading one INTEGER -----

  lemma ReadsInteger(der: Bytes, offset: nat, c: Bytes)
    requires Fits(c) && offset + 2 + |c| <= |der| && der[offset..offset + 2 + |c|] == IntegerTlv(c)
    ensures ReadInteger(der, offset) == Some((Pad(Strip(c)), offset + 2 + |c|))
  {
    var t := der[offset..offset + 2 + |c|];
    assert der[offset] == t[0] && der[offset + 1] == t[1];
    assert der[offset + 2..offset + 2 + |c|] == t[2..] == c;
  }

  /** An INTEGER that is read has a short-form length, since a long one would be too wide. */
  lemma ReadIsInteger(der: Bytes, offset: nat) returns (c: Bytes)
    requires ReadInteger(der, offset).Some?
    ensures Fits(c) && offset + 2 + |c| <= |der| && der[offset..offset + 2 + |c|] == IntegerTlv(c)
    ensures ReadInteger(der, offset) == Some((Pad(Strip(c)), offset + 2 + |c|))
  {
    var (length, start) := ReadLength(der, offset + 1).value;
    c := der[start..start + length];
    assert length <= WIDTH + 1;
    assert start == offset + 2 && der[offset + 1] == length;
    assert der[offset..offset + 2 + |c|] == [der[offset], der[offset + 1]] + c;
  }

  // ----- Exactly what is accepted -----

  /** Every SEQUENCE of two fitting INTEGERs is accepted. */
  lemma Accepts(r: Bytes, s: Bytes)
    requires Fits(r) && Fits(s)
    ensures DerToRaw(SequenceTlv(r, s)) == Some(Pad(Strip(r)) + Pad(Strip(s)))
  {
    hide ReadInteger, Pad, Strip;
    var der := SequenceTlv(r, s);
    var mid := 4 + |r|;
    assert der[2..mid] == IntegerTlv(r) && der[mid..mid + 2 + |s|] == IntegerTlv(s);
    ReadsInteger(der, 2, r);
    ReadsInteger(der, mid, s);
  }

  /**
   Everything accepted is one SEQUENCE of exactly two INTEGERs, with short-form lengths throughout,
   8 to 72 octets long; the result holds their values in 32 octets each.
   */
  lemma Accepted(der: Bytes) returns (r: Bytes, s: Bytes)
    requires DerToRaw(der).Some?
    ensures Fits(r) && Fits(s) && der == SequenceTlv(r, s)
    ensures 8 <= |der| <= 72 && der[1] < 0x80
    ensures |DerToRaw(der).value| == 2 * WIDTH
    ensures Value(DerToRaw(der).value[..WIDTH]) == Value(r) && Value(DerToRaw(der).value[WIDTH..]) == Value(s)
  {
    r, s := AcceptedShape(der);
    Accepts(r, s);
    StripKeepsValue(r);
    StripKeepsValue(s);
    PadKeepsValue(Strip(r));
    PadKeepsValue(Strip(s));
    hide DerToRaw, Strip, Pad, SequenceTlv;
    var raw := DerToRaw(der).value;
    assert raw[..WIDTH] == Pad(Strip(r)) && raw[WIDTH..] == Pad(Strip(s));
  }

  lemma AcceptedShape(der: Bytes) returns (r: Bytes, s: Bytes)
    requires DerToRaw(der).Some?
    ensures Fits(r) && Fits(s) && der == SequenceTlv(r, s)
    ensures 8 <= |der| <= 72 && der[1] < 0x80
  {
    hide ReadInteger, Pad, Strip, Value;
    var (length, start) := ReadLength(der, 1).value;
    r := ReadIsInteger(der, start);
    var mid := start + 2 + |r|;
    s := ReadIsInteger(der, mid);
    assert length == |r| + |s| + 4 <= 70;
    assert start == 2 && der[1] == length;
    assert der == [der[0], der[1]] + (der[2..mid] + der[mid..|der|]);
  }

  // ----- Round trips -----

  function EncodeSignature(r: nat, s: nat): Bytes
    requires r < Pow256(WIDTH) && s < Pow256(WIDTH)
  {
    ContentsFit(r);
    ContentsFit(s);
    SequenceTlv(Contents(r), Contents(s))
  }

  lemma ContentsFit(n: nat)
    requires n < Pow256(WIDTH)
    ensures Fits(Contents(n)) && |Contents(n)| <= WIDTH + 1 && Strip(Contents(n)) == Minimal(n)
  {
    MinimalMeans(n);
    MinimalIsShort(n, WIDTH);
    assert ([0] + Minimal(n))[1..] == Minimal(n);
  }

  /** For all r and s below 2^256, decoding their DER encoding gives r and s in 32 octets each. */
  lemma SignatureRoundTrip(r: nat, s: nat)
    requires r < Pow256(WIDTH) && s < Pow256(WIDTH)
    ensures DerToRaw(EncodeSignature(r, s)).Some?
    ensures var raw := DerToRaw(EncodeSignature(r, s)).value;
            |raw| == 2 * WIDTH && Value(raw[..WIDTH]) == r && Value(raw[WIDTH..]) == s
  {
    ContentsFit(r);
    ContentsFit(s);
    Accepts(Contents(r), Contents(s));
    MinimalMeans(r);
    MinimalMeans(s);
    PadKeepsValue(Minimal(r));
    PadKeepsValue(Minimal(s));
    var raw := DerToRaw(EncodeSignature(r, s)).value;
    assert raw[..WIDTH] == Pad(Minimal(r)) && raw[WIDTH..] == Pad(Minimal(s));
  }

  /** Contents in canonical form: the sign bit is clear, and no octet is superfluous. */
  predicate Canonical(c: Bytes) {
    c != [] && c[0] < 0x80 && (|c| > 1 && c[0] == 0 ==> c[1] >= 0x80)
  }

  lemma CanonicalIff(c: Bytes)
    requires c != []
    ensures c == Contents(Value(c)) <==> Canonical(c)
  {
    var n := Value(c);
    MinimalMeans(n);
    StripKeepsValue(c);
    if Canonical(c) {
      MinimalIsUnique(Strip(c));
      assert |c| > 1 && c[0] == 0 ==> c == [0] + Strip(c);
    }
  }

  lemma {:induction false} ValueIsBounded(b: Bytes, k: nat)
    requires |b| <= k
    ensures Value(b) < Pow256(k)
  {
    if b != [] {
      ValueIsBounded(b[..|b| - 1], k - 1);
    } else {
      PowPositive(k);
    }
  }

  lemma {:induction false} PowPositive(k: nat)
    ensures Pow256(k) >= 1
  {
    if k > 0 {
      PowPositive(k - 1);
    }
  }

  /**
   The converter also accepts negative and padded INTEGERs, reading them as unsigned. Encoding the
   two numbers of an accepted signature again gives the signature exactly when both INTEGERs were
   in canonical form.
   */
  lemma ReencodesIffCanonical(der: Bytes) returns (r: Bytes, s: Bytes)
    requires DerToRaw(der).Some?
    ensures Fits(r) && Fits(s) && der == SequenceTlv(r, s)
    ensures Value(r) < Pow256(WIDTH) && Value(s) < Pow256(WIDTH)
    ensures EncodeSignature(Value(r), Value(s)) == der <==> Canonical(r) && Canonical(s)
  {
    r, s := Accepted(der);
    StripKeepsValue(r);
    StripKeepsValue(s);
    ValueIsBounded(Strip(r), WIDTH);
    ValueIsBounded(Strip(s), WIDTH);
    ContentsFit(Value(r));
    ContentsFit(Value(s));
    CanonicalIff(r);
    CanonicalIff(s);
    if EncodeSignature(Value(r), Value(s)) == der {
      SequenceIsInjective(Contents(Value(r)), Contents(Value(s)), r, s);
    }
  }

  lemma SequenceIsInjective(r: Bytes, s: Bytes, r': Bytes, s': Bytes)
    requires |r| <= WIDTH + 1 && |s| <= WIDTH + 1 && |r'| <= WIDTH + 1 && |s'| <= WIDTH + 1
    requires SequenceTlv(r, s) == SequenceTlv(r', s')
    ensures r == r' && s == s'
  {
    var t, t' := SequenceTlv(r, s), SequenceTlv(r', s');
    assert t[3] == |r| && t'[3] == |r'|;
    assert t[4..4 + |r|] == r && t'[4..4 + |r'|] == r';
    assert t[6 + |r|..] == s && t'[6 + |r'|..] == s';
  }

  /** A negative INTEGER is accepted, and so is a padded one. */
  lemma NonCanonicalIsAccepted()
    ensures DerToRaw(SequenceTlv([0x80], [0x01])).Some? && !Canonical([0x80])
    ensures DerToRaw(SequenceTlv([0x00, 0x01], [0x01])).Some? && !Canonical([0x00, 0x01])
  {
    Accepts([0x80], [0x01]);
    Accepts([0x00, 0x01], [0x01]);
  }

  /** One conversion, octet by octet: a SEQUENCE of 6 octets with the INTEGERs 5 and 7. */
  lemma ConversionExample()
    ensures DerToRaw([0x30, 0x06, 0x02, 0x01, 0x05, 0x02, 0x01, 0x07]) ==
            Some(Zeros(31) + [0x05] + (Zeros(31) + [0x07]))
  {
    assert SequenceTlv([5], [7]) == [0x30, 0x06, 0x02, 0x01, 0x05, 0x02, 0x01, 0x07];
    Accepts([5], [7]);
  }
}
