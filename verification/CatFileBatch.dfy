/**
 Reading blobs back from `git cat-file --batch`, and the worktree cleanliness test built on it.

 Byte strings are written as strings, one character per byte. A batch answers each requested id
 with a header `<id> blob <size>`, a newline, that many bytes, and another newline; the bytes may
 themselves contain newlines and text that looks like a header.
 */
module CatFileBatch {
  import opened Basics
  import opened Order

  // ----- Python's `int` on ASCII text -----

  predicate IsAscii(s: string) {
    forall i | 0 <= i < |s| :: s[i] < 128 as char
  }

  /** Digits, with single underscores allowed between two digits. */
  predicate IsDigits(s: string) {
    && s != "" && IsDigit(s[0]) && IsDigit(s[|s| - 1])
    && forall i | 0 <= i < |s| - 1 :: IsDigit(s[i]) || (s[i] == '_' && IsDigit(s[i + 1]))
  }

  function DigitsValue(s: string): nat {
    if s == "" then 0
    else
      var n, c := DigitsValue(s[..|s| - 1]), s[|s| - 1];
      if IsDigit(c) then 10 * n + (c as int - '0' as int) else n
  }

  function PyInt(s: string): Option<int> {
    var t := StripRight(StripLeft(s));
    if !IsAscii(s) then None
    else if IsDigits(t) then Some(DigitsValue(t) as int)
    else if t != "" && t[0] == '+' && IsDigits(t[1..]) then Some(DigitsValue(t[1..]) as int)
    else if t != "" && t[0] == '-' && IsDigits(t[1..]) then Some(-(DigitsValue(t[1..]) as int))
    else None
  }

  lemma {:induction false} DigitsValueOfDigits(s: string)
    requires forall i | 0 <= i < |s| :: IsDigit(s[i])
    ensures DigitsValue(s) == DecimalValue(s)
  {
    if s != "" {
      DigitsValueOfDigits(s[..|s| - 1]);
    }
  }

  lemma DecimalReadsBack(n: nat)
    ensures PyInt(Decimal(n)) == Some(n) && CleanField(Decimal(n))
  {
    DecimalIsDigits(n);
    var d := Decimal(n);
    DigitsValueOfDigits(d);
    assert StripLeft(d) == d && StripRight(d) == d;
  }

  /** A sign in front is read too. */
  lemma SignedReadsBack(n: nat)
    ensures PyInt("+" + Decimal(n)) == Some(n) && PyInt("-" + Decimal(n)) == Some(-(n as int))
  {
    DecimalIsDigits(n);
    var d := Decimal(n);
    DigitsValueOfDigits(d);
    SignedStays('+', d);
    SignedStays('-', d);
  }

  lemma SignedStays(sign: char, d: string)
    requires (sign == '+' || sign == '-') && d != "" && forall i | 0 <= i < |d| :: IsDigit(d[i])
    ensures var s := [sign] + d;
            StripRight(StripLeft(s)) == s && s[1..] == d && IsAscii(s) && !IsDigits(s) && IsDigits(d)
  {
    var s := [sign] + d;
    assert StripLeft(s) == s && s[|s| - 1] == d[|d| - 1];
  }

  /** Digits and underscores: no underscore at either end, and no two in a row. */
  predicate Spells(d: string) {
    && d != "" && d[0] != '_' && d[|d| - 1] != '_'
    && (forall i | 0 <= i < |d| :: d[i] == '_' || d[i] in "0123456789")
    && forall i | 0 < i < |d| :: d[i - 1] != '_' || d[i] != '_'
  }

  lemma DigitIff(c: char)
    ensures IsDigit(c) <==> c in "0123456789"
  {
    if IsDigit(c) {
      assert "0123456789"[c as int - '0' as int] == c;
    }
  }

  lemma SpellsIff(d: string)
    ensures IsDigits(d) <==> Spells(d)
  {
    forall i | 0 <= i < |d|
      ensures IsDigit(d[i]) <==> d[i] in "0123456789"
    {
      DigitIff(d[i]);
    }
    if IsDigits(d) {
      forall i | 0 < i < |d|
        ensures d[i - 1] != '_' || d[i] != '_'
      {
        var k := i - 1;
        assert IsDigit(d[k]) || (d[k] == '_' && IsDigit(d[k + 1]));
      }
    }
    if Spells(d) {
      forall k | 0 <= k < |d| - 1
        ensures IsDigit(d[k]) || (d[k] == '_' && IsDigit(d[k + 1]))
      {
        var i := k + 1;
        assert d[i - 1] != '_' || d[i] != '_';
      }
    }
  }

  function WithoutUnderscores(d: string): string {
    if d == "" then ""
    else WithoutUnderscores(d[..|d| - 1]) + if d[|d| - 1] == '_' then "" else [d[|d| - 1]]
  }

  lemma {:induction false} UnderscoresDoNotCount(d: string)
    requires forall i | 0 <= i < |d| :: d[i] == '_' || IsDigit(d[i])
    ensures forall i | 0 <= i < |WithoutUnderscores(d)| :: IsDigit(WithoutUnderscores(d)[i])
    ensures DigitsValue(d) == DecimalValue(WithoutUnderscores(d))
  {
    if d != "" {
      var n := |d| - 1;
      UnderscoresDoNotCount(d[..n]);
      var init := WithoutUnderscores(d[..n]);
      assert d[n] != '_' ==> (init + [d[n]])[..|init|] == init;
      assert init + "" == init;
    }
  }

  /** An optional sign and such digits, with that value. */
  predicate Reads(t: string, n: int) {
    || (Spells(t) && n == DigitsValue(t))
    || (t != "" && t[0] == '+' && Spells(t[1..]) && n == DigitsValue(t[1..]))
    || (t != "" && t[0] == '-' && Spells(t[1..]) && n + DigitsValue(t[1..]) == 0)
  }

  lemma SignIsNoDigit(t: string)
    requires t != "" && (t[0] == '+' || t[0] == '-')
    ensures !IsDigits(t)
  {
  }

  /** A text is read as a number exactly when it is ASCII and spells it, between spaces. */
  lemma PyIntIff(s: string, n: int)
    ensures PyInt(s) == Some(n) <==>
            (forall i | 0 <= i < |s| :: s[i] as int <= 127) && Reads(StripRight(StripLeft(s)), n)
  {
    hide IsDigits, Spells, DigitsValue, StripLeft, StripRight;
    var t := StripRight(StripLeft(s));
    SpellsIff(t);
    if t != "" {
      SpellsIff(t[1..]);
      if t[0] == '+' || t[0] == '-' {
        SignIsNoDigit(t);
      }
    }
  }

  // ----- One record -----

  /** What stands before and after the first `c` in `s`. */
  function Cut(s: string, c: char): Option<(string, string)> {
    if s == "" then None
    else if s[0] == c then Some(("", s[1..]))
    else
      var r := Cut(s[1..], c);
      if r.None? then None else Some(([s[0]] + r.value.0, r.value.1))
  }

  lemma {:induction false} CutJoins(s: string, c: char)
    requires Cut(s, c).Some?
    ensures s == Cut(s, c).value.0 + [c] + Cut(s, c).value.1 && c !in Cut(s, c).value.0
  {
    if s[0] != c {
      CutJoins(s[1..], c);
    }
  }

  lemma {:induction false} CutSkips(a: string, c: char, b: string)
    requires c !in a
    ensures Cut(a + [c] + b, c) == Some((a, b))
  {
    var s := a + [c] + b;
    if a == "" {
      assert s[1..] == b;
    } else {
      assert s[1..] == a[1..] + [c] + b && a == [a[0]] + a[1..];
      CutSkips(a[1..], c, b);
    }
  }

  predicate CleanField(s: string) {
    ' ' !in s && '\n' !in s
  }

  datatype Header = Header(oid: string, kind: string, size: string)

  /** Splits a header on spaces; there must be exactly three fields. */
  function Fields(h: string): Option<Header> {
    var first := Cut(h, ' ');
    if first.None? then None
    else
      var second := Cut(first.value.1, ' ');
      if second.None? || ' ' in second.value.1 then None
      else Some(Header(first.value.0, second.value.0, second.value.1))
  }

  /** The size a header promises, when it is a blob header for `oid`. */
  function PromisedSize(oid: string, h: string): Option<nat> {
    var f := Fields(h);
    if f.None? || !IsAscii(f.value.oid) || f.value.oid != oid || f.value.kind != "blob" then None
    else
      var n := PyInt(f.value.size);
      if n.None? || n.value < 0 then None else Some(n.value)
  }

  /** Takes `n` bytes and the newline after them. */
  function Take(s: string, n: nat): Option<(string, string)> {
    if n < |s| && s[n] == '\n' then Some((s[..n], s[n + 1..])) else None
  }

  /** Reads the record of `oid` off the front of `s`: its blob, and what follows the record. */
  function ParseRecord(oid: string, s: string): Option<(string, string)> {
    var line := Cut(s, '\n');
    if line.None? then None
    else
      var n := PromisedSize(oid, line.value.0);
      if n.None? then None else Take(line.value.1, n.value)
  }

  function HeaderText(oid: string, size: string): string {
    oid + [' '] + ("blob" + [' '] + size)
  }

  function Record(oid: string, size: string, blob: string): string {
    HeaderText(oid, size) + ['\n'] + (blob + ['\n'])
  }

  predicate RecordFits(id: string, size: string, blob: string) {
    CleanField(id) && IsAscii(id) && CleanField(size) && PyInt(size) == Some(|blob|)
  }

  lemma HeaderPromises(oid: string, size: string, blob: string)
    requires RecordFits(oid, size, blob)
    ensures PromisedSize(oid, HeaderText(oid, size)) == Some(|blob|) && '\n' !in HeaderText(oid, size)
  {
    CutSkips(oid, ' ', "blob" + [' '] + size);
    CutSkips("blob", ' ', size);
  }

  lemma PromiseIsHeader(oid: string, h: string) returns (size: string)
    requires PromisedSize(oid, h).Some? && '\n' !in h
    ensures h == HeaderText(oid, size) && CleanField(oid) && IsAscii(oid) && CleanField(size)
    ensures PyInt(size) == Some(PromisedSize(oid, h).value as int)
  {
    size := Fields(h).value.size;
    var rest := Cut(h, ' ').value.1;
    CutJoins(h, ' ');
    CutJoins(rest, ' ');
    NotInParts(oid, ' ', rest, '\n');
    NotInParts("blob", ' ', size, '\n');
  }

  lemma NotInParts(a: string, sep: char, b: string, c: char)
    requires c !in a + [sep] + b
    ensures c !in a && c !in b
  {
    var s := a + [sep] + b;
    assert forall i | 0 <= i < |a| :: a[i] == s[i];
    assert forall i | 0 <= i < |b| :: b[i] == s[|a| + 1 + i];
  }

  lemma TakeBack(blob: string, rest: string)
    ensures Take(blob + ['\n'] + rest, |blob|) == Some((blob, rest))
  {
    var s := blob + ['\n'] + rest;
    assert s[..|blob|] == blob && s[|blob| + 1..] == rest;
  }

  /** A printed record is read back whatever its blob contains and whatever follows. */
  lemma RecordReadsBack(oid: string, size: string, blob: string, rest: string)
    requires RecordFits(oid, size, blob)
    ensures ParseRecord(oid, Record(oid, size, blob) + rest) == Some((blob, rest))
  {
    var h := HeaderText(oid, size);
    HeaderPromises(oid, size, blob);
    assert Record(oid, size, blob) + rest == h + ['\n'] + (blob + ['\n'] + rest);
    CutSkips(h, '\n', blob + ['\n'] + rest);
    TakeBack(blob, rest);
  }

  /** Whatever is accepted is a record of that id, with a size field that denotes the blob's length. */
  lemma AcceptedIsRecord(oid: string, s: string) returns (size: string)
    requires ParseRecord(oid, s).Some?
    ensures var (blob, rest) := ParseRecord(oid, s).value;
            RecordFits(oid, size, blob) && s == Record(oid, size, blob) + rest
  {
    var (h, t) := Cut(s, '\n').value;
    CutJoins(s, '\n');
    size := PromiseIsHeader(oid, h);
    var n := PromisedSize(oid, h).value;
    assert t == t[..n] + ['\n'] + t[n + 1..];
    assert s == h + ['\n'] + (t[..n] + ['\n']) + t[n + 1..];
  }

  // ----- The whole batch -----

  /** The blobs of a batch that answers `ids` in order and contains nothing else. */
  function ParseBatch(ids: seq<string>, s: string): Option<seq<string>> {
    if ids == [] then
      if s == "" then Some([]) else None
    else
      var first := ParseRecord(ids[0], s);
      if first.None? then None
      else
        var others := ParseBatch(ids[1..], first.value.1);
        if others.None? then None else Some([first.value.0] + others.value)
  }

  /** One record per id, in order, with the size fields spelled as in `sizes`. */
  function Batch(ids: seq<string>, sizes: seq<string>, blobs: seq<string>): string
    requires |ids| == |sizes| == |blobs|
  {
    if ids == [] then "" else Record(ids[0], sizes[0], blobs[0]) + Batch(ids[1..], sizes[1..], blobs[1..])
  }

  ghost predicate BatchFits(ids: seq<string>, sizes: seq<string>, blobs: seq<string>) {
    |ids| == |sizes| == |blobs| && forall i | 0 <= i < |ids| :: RecordFits(ids[i], sizes[i], blobs[i])
  }

  lemma {:induction false} BatchReadsBack(ids: seq<string>, sizes: seq<string>, blobs: seq<string>)
    requires BatchFits(ids, sizes, blobs)
    ensures ParseBatch(ids, Batch(ids, sizes, blobs)) == Some(blobs)
  {
    hide ParseRecord, Record, RecordFits;
    if ids != [] {
      var rest := Batch(ids[1..], sizes[1..], blobs[1..]);
      FitsTail(ids, sizes, blobs);
      RecordReadsBack(ids[0], sizes[0], blobs[0], rest);
      BatchReadsBack(ids[1..], sizes[1..], blobs[1..]);
      assert Batch(ids, sizes, blobs) == Record(ids[0], sizes[0], blobs[0]) + rest;
      assert blobs == [blobs[0]] + blobs[1..];
    }
  }

  lemma FitsTail(ids: seq<string>, sizes: seq<string>, blobs: seq<string>)
    requires BatchFits(ids, sizes, blobs) && ids != []
    ensures RecordFits(ids[0], sizes[0], blobs[0]) && BatchFits(ids[1..], sizes[1..], blobs[1..])
  {
    forall i | 0 <= i < |ids| - 1
      ensures RecordFits(ids[1..][i], sizes[1..][i], blobs[1..][i])
    {
      assert RecordFits(ids[i + 1], sizes[i + 1], blobs[i + 1]);
    }
  }

  /** Every accepted stream is a batch for exactly those ids, in that order. */
  lemma {:induction false} AcceptedIsBatch(ids: seq<string>, s: string) returns (sizes: seq<string>)
    requires ParseBatch(ids, s).Some?
    ensures BatchFits(ids, sizes, ParseBatch(ids, s).value)
    ensures s == Batch(ids, sizes, ParseBatch(ids, s).value)
  {
    if ids == [] {
      sizes := [];
    } else {
      var size := AcceptedIsRecord(ids[0], s);
      var (blob, rest) := ParseRecord(ids[0], s).value;
      var more := AcceptedIsBatch(ids[1..], rest);
      sizes := [size] + more;
      assert RecordFits(ids[0], size, blob);
      var blobs := ParseBatch(ids, s).value;
      assert blobs[1..] == ParseBatch(ids[1..], rest).value && sizes[1..] == more;
    }
  }

  function DecimalSizes(blobs: seq<string>): seq<string> {
    if blobs == [] then [] else [Decimal(|blobs[0]|)] + DecimalSizes(blobs[1..])
  }

  lemma {:induction false} DecimalSizesFit(ids: seq<string>, blobs: seq<string>)
    requires |ids| == |blobs| && forall i | 0 <= i < |ids| :: CleanField(ids[i]) && IsAscii(ids[i])
    ensures BatchFits(ids, DecimalSizes(blobs), blobs)
  {
    if ids != [] {
      DecimalReadsBack(|blobs[0]|);
      DecimalSizesFit(ids[1..], blobs[1..]);
      var sizes := DecimalSizes(blobs);
      forall i | 0 <= i < |ids|
        ensures RecordFits(ids[i], sizes[i], blobs[i])
      {
        if i > 0 {
          assert RecordFits(ids[1..][i - 1], sizes[1..][i - 1], blobs[1..][i - 1]);
        }
      }
    }
  }

  /** The stream git prints for `ids`. */
  function Print(ids: seq<string>, blobs: seq<string>): string
    requires |ids| == |blobs|
  {
    DecimalSizesLength(blobs);
    Batch(ids, DecimalSizes(blobs), blobs)
  }

  lemma {:induction false} DecimalSizesLength(blobs: seq<string>)
    ensures |DecimalSizes(blobs)| == |blobs|
  {
    if blobs != [] {
      DecimalSizesLength(blobs[1..]);
    }
  }

  /** Reading what git prints gives the blobs back, for any bytes in them. */
  lemma PrintReadsBack(ids: seq<string>, blobs: seq<string>)
    requires |ids| == |blobs| && forall i | 0 <= i < |ids| :: CleanField(ids[i]) && IsAscii(ids[i])
    ensures ParseBatch(ids, Print(ids, blobs)) == Some(blobs)
  {
    DecimalSizesLength(blobs);
    DecimalSizesFit(ids, blobs);
    BatchReadsBack(ids, DecimalSizes(blobs), blobs);
  }

  lemma {:induction false} SizesAreDetermined(ids: seq<string>, sizes: seq<string>, sizes': seq<string>,
                                              blobs: seq<string>)
    requires BatchFits(ids, sizes, blobs) && BatchFits(ids, sizes', blobs)
    requires Batch(ids, sizes, blobs) == Batch(ids, sizes', blobs)
    ensures sizes == sizes'
  {
    if ids != [] {
      var rest, rest' := Batch(ids[1..], sizes[1..], blobs[1..]), Batch(ids[1..], sizes'[1..], blobs[1..]);
      FitsTail(ids, sizes, blobs);
      FitsTail(ids, sizes', blobs);
      RecordReadsBack(ids[0], sizes[0], blobs[0], rest);
      RecordReadsBack(ids[0], sizes'[0], blobs[0], rest');
      RecordSizeUnique(ids[0], sizes[0], sizes'[0], blobs[0], rest);
      SizesAreDetermined(ids[1..], sizes[1..], sizes'[1..], blobs[1..]);
      assert sizes == [sizes[0]] + sizes[1..] && sizes' == [sizes'[0]] + sizes'[1..];
    }
  }

  lemma RecordSizeUnique(oid: string, size: string, size': string, blob: string, rest: string)
    requires RecordFits(oid, size, blob) && RecordFits(oid, size', blob)
    requires Record(oid, size, blob) + rest == Record(oid, size', blob) + rest
    ensures size == size'
  {
    hide RecordFits, PromisedSize;
    var h, h' := HeaderText(oid, size), HeaderText(oid, size');
    var tail := blob + ['\n'] + rest;
    HeaderPromises(oid, size, blob);
    HeaderPromises(oid, size', blob);
    assert Record(oid, size, blob) + rest == h + ['\n'] + tail;
    assert Record(oid, size', blob) + rest == h' + ['\n'] + tail;
    CutSkips(h, '\n', tail);
    CutSkips(h', '\n', tail);
    assert h[|oid| + 6..] == size && h'[|oid| + 6..] == size';
  }

  /**
   The reader accepts more than git prints: a size field may carry a sign, spaces other than
   blanks, leading zeros or underscores. An accepted stream is the printed one exactly when every
   size field is in canonical decimal.
   */
  lemma PrintedIffCanonical(ids: seq<string>, s: string) returns (sizes: seq<string>)
    requires ParseBatch(ids, s).Some?
    ensures BatchFits(ids, sizes, ParseBatch(ids, s).value) && s == Batch(ids, sizes, ParseBatch(ids, s).value)
    ensures s == Print(ids, ParseBatch(ids, s).value) <==> sizes == DecimalSizes(ParseBatch(ids, s).value)
  {
    sizes := AcceptedIsBatch(ids, s);
    var blobs := ParseBatch(ids, s).value;
    DecimalSizesLength(blobs);
    assert forall i | 0 <= i < |ids| :: CleanField(ids[i]) && IsAscii(ids[i]) by {
      forall i | 0 <= i < |ids|
        ensures CleanField(ids[i]) && IsAscii(ids[i])
      {
        assert RecordFits(ids[i], sizes[i], blobs[i]);
      }
    }
    DecimalSizesFit(ids, blobs);
    if s == Print(ids, blobs) {
      SizesAreDetermined(ids, sizes, DecimalSizes(blobs), blobs);
    }
  }

  /** For any id, a stream with the size `+1`, which git never prints, is accepted. */
  lemma SignedSizeIsAccepted(oid: string)
    requires CleanField(oid) && IsAscii(oid)
    ensures ParseBatch([oid], Batch([oid], ["+1"], ["x"])) == Some(["x"])
    ensures Batch([oid], ["+1"], ["x"]) != Print([oid], ["x"])
  {
    var size := "+1";
    assert StripLeft(size) == size && StripRight(size) == size && size[1..] == "1";
    assert "1"[..0] == "";
    assert PyInt(size) == Some(1);
    assert RecordFits(oid, size, "x");
    BatchReadsBack([oid], [size], ["x"]);
    DecimalReadsBack(1);
    DecimalSizesFit([oid], ["x"]);
    assert |DecimalSizes(["x"])[0]| == 1;
    if Batch([oid], [size], ["x"]) == Print([oid], ["x"]) {
      SizesAreDetermined([oid], [size], DecimalSizes(["x"]), ["x"]);
    }
  }

  // ----- The program -----

  /** The blobs by id. */
  function Zip(ids: seq<string>, blobs: seq<string>): map<string, string>
    requires |ids| == |blobs|
  {
    if ids == [] then map[]
    else
      var n := |ids| - 1;
      Zip(ids[..n], blobs[..n])[ids[n] := blobs[n]]
  }

  lemma {:induction false} ZipAt(ids: seq<string>, blobs: seq<string>, i: nat)
    requires |ids| == |blobs| && Ascending(ids) && i < |ids|
    ensures ids[i] in Zip(ids, blobs) && Zip(ids, blobs)[ids[i]] == blobs[i]
  {
    var n := |ids| - 1;
    if i < n {
      ZipAt(ids[..n], blobs[..n], i);
      LessIrreflexive(ids[n]);
      assert ids[i] != ids[n];
    }
  }

  lemma {:induction false} ParseBatchLength(ids: seq<string>, s: string)
    ensures ParseBatch(ids, s).Some? ==> |ParseBatch(ids, s).value| == |ids|
  {
    if ids != [] && ParseRecord(ids[0], s).Some? {
      ParseBatchLength(ids[1..], ParseRecord(ids[0], s).value.1);
    }
  }

  function Prepend(done: seq<string>, others: Option<seq<string>>): Option<seq<string>> {
    if others.None? then None else Some(done + others.value)
  }

  /** The map for a batch, or nothing when the batch is refused. */
  function BatchMap(ids: seq<string>, s: string): Option<map<string, string>> {
    ParseBatchLength(ids, s);
    var blobs := ParseBatch(ids, s);
    if blobs.None? then None else Some(Zip(ids, blobs.value))
  }

  /** One record further, after `k` records have been taken. */
  lemma BatchStep(ids: seq<string>, s: string, k: nat, position: nat, taken: seq<string>)
    requires k < |ids| && position <= |s|
    requires ParseBatch(ids, s) == Prepend(taken, ParseBatch(ids[k..], s[position..]))
    ensures var record := ParseRecord(ids[k], s[position..]);
            if record.None? then ParseBatch(ids, s).None?
            else
              var (blob, after) := record.value;
              && |after| <= |s| && s[|s| - |after|..] == after
              && ParseBatch(ids, s) == Prepend(taken + [blob], ParseBatch(ids[k + 1..], after))
  {
    var left, rest := ids[k..], s[position..];
    assert left[0] == ids[k] && left[1..] == ids[k + 1..];
    assert ParseBatch(left, rest) ==
           var first := ParseRecord(left[0], rest);
           if first.None? then None else Prepend([first.value.0], ParseBatch(left[1..], first.value.1));
    hide ParseRecord, ParseBatch;
    if ParseRecord(ids[k], rest).Some? {
      var (blob, after) := ParseRecord(ids[k], rest).value;
      RecordIsFirst(ids[k], rest);
      var others := ParseBatch(ids[k + 1..], after);
      assert others.Some? ==> taken + ([blob] + others.value) == (taken + [blob]) + others.value;
    }
  }

  /** What follows a record is the end of the text it was read from. */
  lemma RecordIsFirst(oid: string, s: string)
    requires ParseRecord(oid, s).Some?
    ensures var after := ParseRecord(oid, s).value.1; |after| <= |s| && s[|s| - |after|..] == after
  {
    hide ParseRecord, Record, RecordFits;
    var size := AcceptedIsRecord(oid, s);
  }

  lemma ZipStep(ids: seq<string>, k: nat, taken: seq<string>, blob: string)
    requires k < |ids| && |taken| == k
    ensures Zip(ids[..k + 1], taken + [blob]) == Zip(ids[..k], taken)[ids[k] := blob]
  {
    assert ids[..k + 1][..k] == ids[..k] && (taken + [blob])[..k] == taken;
  }

  /**
   Reads the blobs of `oids`. `git(ids)` is what `cat-file --batch` prints when asked for `ids`;
   it is asked once, for the distinct ids in ascending order, and not at all when there are none.
   */
  method BlobBytes(oids: seq<string>, git: seq<string> -> string) returns (r: Option<map<string, string>>)
    ensures SortedDistinct(oids) == [] ==> r == Some(map[])
    ensures SortedDistinct(oids) != [] ==> r == BatchMap(SortedDistinct(oids), git(SortedDistinct(oids)))
  {
    hide ParseRecord, SortedDistinct;
    var ordered := SortedDistinct(oids);
    if ordered == [] {
      return Some(map[]);
    }
    var output := git(ordered);
    var position: nat := 0;
    var blobs: map<string, string> := map[];
    ghost var taken: seq<string> := [];
    assert ordered[0..] == ordered && output[0..] == output;
    ghost var whole := ParseBatch(ordered, output);
    assert whole.Some? ==> [] + whole.value == whole.value;
    for k := 0 to |ordered|
      invariant position <= |output| && |taken| == k
      invariant blobs == Zip(ordered[..k], taken)
      invariant ParseBatch(ordered, output) == Prepend(taken, ParseBatch(ordered[k..], output[position..]))
    {
      var record := ParseRecord(ordered[k], output[position..]);
      BatchStep(ordered, output, k, position, taken);
      if record.None? {
        return None;
      }
      var (blob, after) := record.value;
      ZipStep(ordered, k, taken, blob);
      position := |output| - |after|;
      taken := taken + [blob];
      blobs := blobs[ordered[k] := blob];
    }
    assert ordered[|ordered|..] == [] && ordered[..|ordered|] == ordered && taken + [] == taken;
    if position != |output| {
      return None;
    }
    return Some(blobs);
  }

  // ----- Is the worktree clean? -----

  datatype Entry = Entry(path: string, mode: string, oid: string)

  /** What reading a tracked path finds; a path that could leave the repository is an error. */
  datatype WorktreeFile = File(mode: string, content: string) | NotStable | UnsafePath

  datatype Verdict = Clean | Dirty | Error

  function EntryMap(entries: seq<Entry>): map<string, (string, string)> {
    if entries == [] then map[]
    else
      var n := |entries| - 1;
      EntryMap(entries[..n])[entries[n].path := (entries[n].mode, entries[n].oid)]
  }

  /** For distinct paths: each entry is under its path with its mode and id, and nothing else is there. */
  lemma {:induction false} EntryMapIs(entries: seq<Entry>)
    requires forall i, j | 0 <= i < j < |entries| :: entries[i].path != entries[j].path
    ensures forall i | 0 <= i < |entries| ::
              && entries[i].path in EntryMap(entries)
              && EntryMap(entries)[entries[i].path] == (entries[i].mode, entries[i].oid)
    ensures forall path | path in EntryMap(entries) :: exists i :: 0 <= i < |entries| && entries[i].path == path
  {
    if entries != [] {
      var n := |entries| - 1;
      EntryMapIs(entries[..n]);
      assert forall i | 0 <= i < n :: entries[..n][i] == entries[i];
    }
  }

  function Oids(entries: seq<Entry>): seq<string> {
    seq(|entries|, i requires 0 <= i < |entries| => entries[i].oid)
  }

  /** The file of the entry is in the worktree with the mode and the content the index records. */
  predicate Matches(e: Entry, read: string -> WorktreeFile, objects: map<string, string>) {
    e.oid in objects && read(e.path) == File(e.mode, objects[e.oid])
  }

  /** `git(ids)` prints the contents that `objects` gives the ids. */
  ghost predicate PrintsObjects(git: seq<string> -> string, ids: seq<string>, objects: map<string, string>) {
    && (forall i | 0 <= i < |ids| :: ids[i] in objects && CleanField(ids[i]) && IsAscii(ids[i]))
    && git(ids) == Print(ids, seq(|ids|, i requires 0 <= i < |ids| && ids[i] in objects => objects[ids[i]]))
  }

  /** What git prints for the ids of the index is read back as the contents of those objects. */
  lemma BlobsAreObjects(oids: seq<string>, git: seq<string> -> string, objects: map<string, string>, oid: string)
    requires PrintsObjects(git, SortedDistinct(oids), objects) && oid in oids
    ensures BatchMap(SortedDistinct(oids), git(SortedDistinct(oids))).Some?
    ensures var m := BatchMap(SortedDistinct(oids), git(SortedDistinct(oids))).value;
            oid in m && oid in objects && m[oid] == objects[oid]
  {
    hide ParseBatch, Print;
    var ids := SortedDistinct(oids);
    var blobs := seq(|ids|, i requires 0 <= i < |ids| && ids[i] in objects => objects[ids[i]]);
    PrintReadsBack(ids, blobs);
    SortedDistinctSorts(oids);
    var i :| 0 <= i < |ids| && ids[i] == oid;
    ZipAt(ids, blobs, i);
  }

  /**
   The cleanliness test. When git prints the objects of the index faithfully, the verdict is clean
   exactly when HEAD and index agree, nothing is untracked, and every indexed file is in the
   worktree with the recorded mode and the recorded content.
   */
  method WorktreeClean(head: map<string, (string, string)>, index: seq<Entry>, untracked: seq<string>,
                       git: seq<string> -> string, read: string -> WorktreeFile, ghost objects: map<string, string>)
    returns (v: Verdict)
    ensures PrintsObjects(git, SortedDistinct(Oids(index)), objects) ==>
              (v == Clean <==> && head == EntryMap(index) && untracked == []
                               && forall i | 0 <= i < |index| :: Matches(index[i], read, objects))
    ensures v == Error ==> || (SortedDistinct(Oids(index)) != []
                               && BatchMap(SortedDistinct(Oids(index)), git(SortedDistinct(Oids(index)))).None?)
                           || exists i :: 0 <= i < |index| && read(index[i].path).UnsafePath?
  {
    hide BatchMap, SortedDistinct, PrintsObjects, EntryMap;
    if head != EntryMap(index) || untracked != [] {
      return Dirty;
    }
    var oids := Oids(index);
    var blobs := BlobBytes(oids, git);
    SortedDistinctSorts(oids);
    assert |index| == 0 ==> SortedDistinct(oids) == [] by {
      assert SortedDistinct(oids) != [] ==> SortedDistinct(oids)[0] in oids;
    }
    ghost var honest := PrintsObjects(git, SortedDistinct(oids), objects);
    forall i | 0 <= i < |index| && honest
      ensures blobs.Some? && index[i].oid in blobs.value && index[i].oid in objects
      ensures blobs.value[index[i].oid] == objects[index[i].oid]
    {
      assert oids[i] in oids;
      BlobsAreObjects(oids, git, objects, oids[i]);
    }
    if blobs.None? {
      assert |index| > 0;
      ghost var first := index[0];
      assert !honest;
      return Error;
    }
    for i := 0 to |index|
      invariant honest ==> forall j | 0 <= j < i :: Matches(index[j], read, objects)
    {
      var e := index[i];
      var file := read(e.path);
      if file.UnsafePath? {
        return Error;
      }
      if file.NotStable? || e.oid !in blobs.value || file.mode != e.mode || file.content != blobs.value[e.oid] {
        assert honest ==> !Matches(index[i], read, objects);
        return Dirty;
      }
      assert honest ==> Matches(index[i], read, objects);
    }
    return Clean;
  }
}
