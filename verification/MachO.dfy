/**
 Reading the UUID of a thin arm64 Mach-O executable: a bounded walk over its load commands.
 */
module MachO {
  import opened Basics

  type byte = x: int | 0 <= x < 256
  type Bytes = seq<byte>

  const MAGIC: nat := 0xFEEDFACF
  const CPU_ARM64: nat := 0x0100000C
  const EXECUTABLE: nat := 2
  const MAX_SIZE: nat := 1024 * 1024
  const LC_UUID: nat := 0x1B
  const HEADER: nat := 32

  // ----- Little-endian words -----

  function Get32(b: Bytes): nat
    requires |b| == 4
  {
    b[0] as int + 256 * (b[1] as int + 256 * (b[2] as int + 256 * (b[3] as int)))
  }

  function Put32(n: nat): (b: Bytes)
    requires n < 0x1_0000_0000
    ensures |b| == 4
  {
    var n1 := n / 256;
    var n2 := n1 / 256;
    [n % 256, n1 % 256, n2 % 256, n2 / 256]
  }

  lemma PutGet(b: Bytes)
    requires |b| == 4
    ensures Get32(b) < 0x1_0000_0000 && Put32(Get32(b)) == b
  {
    var n2 := b[2] as int + 256 * (b[3] as int);
    var n1 := b[1] as int + 256 * n2;
    var n := b[0] as int + 256 * n1;
    assert n / 256 == n1 && n % 256 == b[0];
    assert n1 / 256 == n2 && n1 % 256 == b[1];
    assert n2 / 256 == b[3] && n2 % 256 == b[2];
  }

  lemma GetPut(n: nat)
    requires n < 0x1_0000_0000
    ensures Get32(Put32(n)) == n
  {
  }

  /** The word at an offset of the file. */
  function Word(b: Bytes, offset: nat): nat
    requires offset + 4 <= |b|
  {
    Get32(b[offset..offset + 4])
  }

  // ----- Load commands -----

  datatype Command = Command(kind: nat, body: Bytes)

  predicate Fits(c: Command) {
    c.kind < 0x1_0000_0000 && 8 + |c.body| < 0x1_0000_0000 && |c.body| % 8 == 0
  }

  ghost predicate AllFit(cs: seq<Command>) {
    forall i | 0 <= i < |cs| :: Fits(cs[i])
  }

  /** A command is its kind, its whole length, and its body. */
  function Lay(c: Command): Bytes
    requires Fits(c)
  {
    Put32(c.kind) + Put32(8 + |c.body|) + c.body
  }

  function Region(cs: seq<Command>): Bytes
    requires AllFit(cs)
  {
    if cs == [] then [] else Lay(cs[0]) + Region(cs[1..])
  }

  /** The command at the front of `s`, when its length is a multiple of 8, at least 8, and in bounds. */
  function First(s: Bytes): Option<Command> {
    if |s| < 8 then None
    else
      var length := Word(s, 4);
      if length < 8 || length % 8 != 0 || length > |s| then None else Some(Command(Word(s, 0), s[8..length]))
  }

  /** Splits `s` into exactly `count` commands. */
  function Split(s: Bytes, count: nat): Option<seq<Command>> {
    if count == 0 then if s == [] then Some([]) else None
    else
      var c := First(s);
      if c.None? then None
      else
        var rest := Split(s[8 + |c.value.body|..], count - 1);
        if rest.None? then None else Some([c.value] + rest.value)
  }

  lemma FirstOfLay(c: Command, rest: Bytes)
    requires Fits(c)
    ensures First(Lay(c) + rest) == Some(c) && (Lay(c) + rest)[8 + |c.body|..] == rest
  {
    hide Get32, Put32;
    var s := Lay(c) + rest;
    assert s[0..4] == Put32(c.kind) && s[4..8] == Put32(8 + |c.body|);
    GetPut(c.kind);
    GetPut(8 + |c.body|);
    assert s[8..8 + |c.body|] == c.body;
  }

  lemma LayOfFirst(s: Bytes)
    requires First(s).Some? && |s| < 0x1_0000_0000
    ensures Fits(First(s).value) && 8 + |First(s).value.body| <= |s|
    ensures s == Lay(First(s).value) + s[8 + |First(s).value.body|..]
  {
    hide Get32, Put32;
    var length := Word(s, 4);
    PutGet(s[0..4]);
    PutGet(s[4..8]);
    assert s == s[0..4] + s[4..8] + s[8..length] + s[length..];
  }

  /** The split of a region exists exactly when the region is laid out as that many fitting commands. */
  lemma {:induction false} SplitOfRegion(cs: seq<Command>)
    requires AllFit(cs)
    ensures Split(Region(cs), |cs|) == Some(cs)
  {
    hide First, Lay, Fits;
    if cs != [] {
      SplitOfRegion(cs[1..]);
      assert Fits(cs[0]);
      FirstOfLay(cs[0], Region(cs[1..]));
      assert cs == [cs[0]] + cs[1..];
    }
  }

  lemma {:induction false} RegionOfSplit(s: Bytes, count: nat)
    requires Split(s, count).Some? && |s| < 0x1_0000_0000
    ensures |Split(s, count).value| == count && AllFit(Split(s, count).value) && Region(Split(s, count).value) == s
  {
    if count > 0 {
      LayOfFirst(s);
      var c := First(s).value;
      var rest := s[8 + |c.body|..];
      RegionOfSplit(rest, count - 1);
      var cs := Split(s, count).value;
      assert cs[0] == c && cs[1..] == Split(rest, count - 1).value;
      forall i | 0 <= i < |cs|
        ensures Fits(cs[i])
      {
        if i > 0 {
          assert Fits(cs[1..][i - 1]);
        }
      }
    }
  }

  // ----- The UUID -----

  datatype Scan = Missing | Found(uuid: Bytes) | Ambiguous

  function Look(found: Scan, c: Command): Scan {
    if c.kind != LC_UUID then found
    else if |c.body| == 16 && found.Missing? then Found(c.body)
    else Ambiguous
  }

  function LookAll(cs: seq<Command>): Scan {
    if cs == [] then Missing else Look(LookAll(cs[..|cs| - 1]), cs[|cs| - 1])
  }

  /** Command `i` is the only UUID command, and its body is the UUID. */
  ghost predicate OnlyUuid(cs: seq<Command>, i: nat, uuid: Bytes) {
    && i < |cs| && cs[i] == Command(0x1B, uuid) && |uuid| == 16
    && forall j | 0 <= j < |cs| && j != i :: cs[j].kind != 0x1B
  }

  lemma {:induction false} LookAllMeans(cs: seq<Command>) returns (i: nat)
    ensures LookAll(cs).Found? ==> OnlyUuid(cs, i, LookAll(cs).uuid)
    ensures LookAll(cs).Missing? <==> forall j | 0 <= j < |cs| :: cs[j].kind != LC_UUID
  {
    i := 0;
    if cs != [] {
      var n := |cs| - 1;
      i := LookAllMeans(cs[..n]);
      assert forall j | 0 <= j < n :: cs[..n][j] == cs[j];
      if cs[n].kind == LC_UUID {
        i := n;
      }
    }
  }

  lemma {:induction false} OnlyUuidIsFound(cs: seq<Command>, i: nat, uuid: Bytes)
    requires OnlyUuid(cs, i, uuid)
    ensures LookAll(cs) == Found(uuid)
  {
    var n := |cs| - 1;
    if i < n {
      OnlyUuidIsFound(cs[..n], i, uuid);
    } else {
      var k := LookAllMeans(cs[..n]);
    }
  }

  lemma {:induction false} AmbiguousStays(cs: seq<Command>, more: seq<Command>)
    requires LookAll(cs).Ambiguous?
    ensures LookAll(cs + more).Ambiguous?
  {
    if more == [] {
      assert cs + more == cs;
    } else {
      var n := |more| - 1;
      AmbiguousStays(cs, more[..n]);
      assert (cs + more)[..|cs + more| - 1] == cs + more[..n];
    }
  }

  // ----- The program -----

  predicate HeaderOk(file: Bytes) {
    && |file| >= HEADER
    && Word(file, 0) == MAGIC && Word(file, 4) == CPU_ARM64 && Word(file, 12) == EXECUTABLE
    && Word(file, 20) <= MAX_SIZE && Word(file, 16) <= Word(file, 20) / 8
    && HEADER + Word(file, 20) <= |file|
  }

  /** The load-command region that the header announces. */
  function Commands(file: Bytes): Bytes
    requires HeaderOk(file)
  {
    file[HEADER..HEADER + Word(file, 20)]
  }

  function Verdict(cs: Option<seq<Command>>): Option<Bytes> {
    if cs.Some? && LookAll(cs.value).Found? then Some(LookAll(cs.value).uuid) else None
  }

  function Prepend(done: seq<Command>, rest: Option<seq<Command>>): Option<seq<Command>> {
    if rest.None? then None else Some(done + rest.value)
  }

  lemma SplitStep(all: Bytes, count: nat, k: nat, offset: nat, done: seq<Command>)
    requires k < count && offset <= |all| < 0x1_0000_0000
    requires Split(all, count) == Prepend(done, Split(all[offset..], count - k))
    ensures var c := First(all[offset..]);
            if c.None? then Split(all, count).None?
            else
              && offset + 8 + |c.value.body| <= |all|
              && Split(all, count) ==
                 Prepend(done + [c.value], Split(all[offset + 8 + |c.value.body|..], count - k - 1))
  {
    var s := all[offset..];
    if First(s).Some? {
      LayOfFirst(s);
      var c := First(s).value;
      assert s[8 + |c.body|..] == all[offset + 8 + |c.body|..];
      var rest := Split(s[8 + |c.body|..], count - k - 1);
      assert rest.Some? ==> done + ([c] + rest.value) == (done + [c]) + rest.value;
    }
  }

  /** The walk of the source: one pass, never reading outside the region. */
  method WalkCommands(commands: Bytes, count: nat) returns (r: Option<Bytes>)
    requires |commands| <= MAX_SIZE
    ensures r == Verdict(Split(commands, count))
  {
    hide First, Split, Word;
    var offset: nat := 0;
    var found: Option<Bytes> := None;
    ghost var done: seq<Command> := [];
    assert commands[0..] == commands;
    ghost var whole := Split(commands, count);
    assert whole.Some? ==> [] + whole.value == whole.value;
    for k := 0 to count
      invariant offset <= |commands|
      invariant Split(commands, count) == Prepend(done, Split(commands[offset..], count - k))
      invariant LookAll(done) == if found.None? then Missing else Found(found.value)
    {
      SplitStep(commands, count, k, offset, done);
      FirstAt(commands, offset);
      if offset + 8 > |commands| {
        return None;
      }
      var kind, length := Word(commands, offset), Word(commands, offset + 4);
      if length < 8 || length % 8 != 0 || offset + length > |commands| {
        return None;
      }
      var body := commands[offset + 8..offset + length];
      ghost var c := Command(kind, body);
      assert (done + [c])[..|done|] == done;
      if kind == LC_UUID {
        if length != 24 || found.Some? {
          StopsAmbiguous(Split(commands, count), done + [c], Split(commands[offset + length..], count - k - 1));
          return None;
        }
        found := Some(body);
      }
      done := done + [c];
      offset := offset + length;
    }
    assert done + [] == done;
    SplitEnd(commands[offset..]);
    return if offset == |commands| then found else None;
  }

  lemma SplitEnd(s: Bytes)
    ensures Split(s, 0) == if s == [] then Some([]) else None
  {
  }

  lemma FirstAt(all: Bytes, offset: nat)
    requires offset <= |all|
    ensures First(all[offset..]) ==
            if offset + 8 > |all| then None
            else
              var length := Word(all, offset + 4);
              if length < 8 || length % 8 != 0 || offset + length > |all| then None
              else Some(Command(Word(all, offset), all[offset + 8..offset + length]))
  {
    hide Get32;
    var s := all[offset..];
    if offset + 8 <= |all| {
      assert s[0..4] == all[offset..offset + 4] && s[4..8] == all[offset + 4..offset + 8];
      var length := Word(s, 4);
      if 8 <= length <= |s| {
        assert s[8..length] == all[offset + 8..offset + length];
      }
    }
  }

  lemma StopsAmbiguous(whole: Option<seq<Command>>, done: seq<Command>, rest: Option<seq<Command>>)
    requires whole == Prepend(done, rest) && LookAll(done).Ambiguous?
    ensures Verdict(whole) == None
  {
    if rest.Some? {
      AmbiguousStays(done, rest.value);
    }
  }

  /**
   A UUID is returned exactly when the file is laid out as an arm64 executable with one UUID command,
   and then it is that command's 16 bytes.
   */
  method ImageUuid(file: Bytes) returns (r: Option<Bytes>)
    ensures r == if HeaderOk(file) then Verdict(Split(Commands(file), Word(file, 16))) else None
    ensures forall uuid :: r == Some(uuid) <==> exists image: Image :: image.Carries(uuid) && file == image.Laid()
  {
    forall uuid
      ensures HeaderOk(file) && Verdict(Split(Commands(file), Word(file, 16))) == Some(uuid) <==>
              exists image: Image :: image.Carries(uuid) && file == image.Laid()
    {
      ImageIff(file, uuid);
    }
    hide HeaderOk, Verdict, Split, Commands, Word, Image.Carries, Image.Laid;
    r := HeaderUuid(file);
  }

  method HeaderUuid(file: Bytes) returns (r: Option<Bytes>)
    ensures r == if HeaderOk(file) then Verdict(Split(Commands(file), Word(file, 16))) else None
  {
    if |file| < HEADER {
      return None;
    }
    var size, count := Word(file, 20), Word(file, 16);
    if Word(file, 0) != MAGIC || Word(file, 4) != CPU_ARM64 || Word(file, 12) != EXECUTABLE {
      return None;
    }
    if size > MAX_SIZE || count > size / 8 || HEADER + size > |file| {
      return None;
    }
    r := WalkCommands(file[HEADER..HEADER + size], count);
  }

  /**
   With a good header, a UUID is returned exactly when the announced region is laid out as the
   announced number of commands, of lengths divisible by 8, with one UUID command among them, of
   length 24; and then it is that command's 16 bytes.
   */
  lemma AcceptedIff(file: Bytes, uuid: Bytes)
    requires HeaderOk(file)
    ensures Verdict(Split(Commands(file), Word(file, 16))) == Some(uuid) <==>
            exists cs: seq<Command>, i: nat ::
              |cs| == Word(file, 16) && AllFit(cs) && Region(cs) == Commands(file) && OnlyUuid(cs, i, uuid)
  {
    var s, count := Commands(file), Word(file, 16);
    if Verdict(Split(s, count)) == Some(uuid) {
      RegionOfSplit(s, count);
      var cs := Split(s, count).value;
      var i := LookAllMeans(cs);
      assert |cs| == count && AllFit(cs) && Region(cs) == s && OnlyUuid(cs, i, uuid);
    }
    if cs: seq<Command>, i: nat :| |cs| == count && AllFit(cs) && Region(cs) == s && OnlyUuid(cs, i, uuid) {
      SplitOfRegion(cs);
      OnlyUuidIsFound(cs, i, uuid);
    }
  }

  // ----- The whole file -----

  /** An arm64 executable: what its header leaves free, its load commands, and what follows them. */
  datatype Image = Image(subtype: nat, flags: nat, reserved: nat, commands: seq<Command>, tail: Bytes)
  {
    ghost predicate Valid() {
      && subtype < 0x1_0000_0000 && flags < 0x1_0000_0000 && reserved < 0x1_0000_0000
      && AllFit(commands) && |commands| < 0x1_0000_0000 && |Region(commands)| <= 1024 * 1024
    }

    /** Eight words, the commands, and the rest. */
    ghost function Laid(): Bytes
      requires Valid()
    {
      Head() + Region(commands) + tail
    }

    ghost function Head(): Bytes
      requires Valid()
    {
      [0xCF, 0xFA, 0xED, 0xFE] + [0x0C, 0x00, 0x00, 0x01] + Put32(subtype) + [0x02, 0x00, 0x00, 0x00]
      + Put32(|commands|) + Put32(|Region(commands)|) + Put32(flags) + Put32(reserved)
    }

    ghost predicate Carries(uuid: Bytes)
      ensures Carries(uuid) ==> Valid()
    {
      Valid() && exists i: nat :: OnlyUuid(commands, i, uuid)
    }
  }

  lemma {:induction false} RegionIsLong(cs: seq<Command>)
    requires AllFit(cs)
    ensures |Region(cs)| >= 8 * |cs|
  {
    if cs != [] {
      RegionIsLong(cs[1..]);
    }
  }

  /** The fixed words of the header, octet by octet. */
  lemma FixedWords(b: Bytes)
    requires |b| == 4
    ensures Get32(b) == MAGIC <==> b == [0xCF, 0xFA, 0xED, 0xFE]
    ensures Get32(b) == CPU_ARM64 <==> b == [0x0C, 0x00, 0x00, 0x01]
    ensures Get32(b) == EXECUTABLE <==> b == [0x02, 0x00, 0x00, 0x00]
  {
    PutGet(b);
    GetPut(MAGIC);
    GetPut(CPU_ARM64);
    GetPut(EXECUTABLE);
    assert Put32(MAGIC) == [0xCF, 0xFA, 0xED, 0xFE];
    assert Put32(CPU_ARM64) == [0x0C, 0x00, 0x00, 0x01];
    assert Put32(EXECUTABLE) == [0x02, 0x00, 0x00, 0x00];
  }

  /** The words of the header are where the source looks for them. */
  lemma HeadWords(image: Image)
    requires image.Valid()
    ensures |image.Head()| == HEADER
    ensures Word(image.Head(), 0) == MAGIC && Word(image.Head(), 4) == CPU_ARM64 && Word(image.Head(), 12) == EXECUTABLE
    ensures Word(image.Head(), 16) == |image.commands| && Word(image.Head(), 20) == |Region(image.commands)|
  {
    hide Get32, Put32, Region;
    var h := image.Head();
    assert h[0..4] == [0xCF, 0xFA, 0xED, 0xFE] && h[4..8] == [0x0C, 0x00, 0x00, 0x01];
    assert h[12..16] == [0x02, 0x00, 0x00, 0x00];
    FixedWords(h[0..4]);
    FixedWords(h[4..8]);
    FixedWords(h[12..16]);
    assert h[16..20] == Put32(|image.commands|) && h[20..24] == Put32(|Region(image.commands)|);
    GetPut(|image.commands|);
    GetPut(|Region(image.commands)|);
  }

  lemma WordOfPrefix(head: Bytes, file: Bytes, offset: nat)
    requires head <= file && offset + 4 <= |head|
    ensures Word(file, offset) == Word(head, offset)
  {
    assert file[offset..offset + 4] == head[offset..offset + 4];
  }

  lemma LaidHeader(image: Image)
    requires image.Valid()
    ensures HeaderOk(image.Laid()) && Word(image.Laid(), 16) == |image.commands|
    ensures Commands(image.Laid()) == Region(image.commands)
  {
    hide Word, Image.Head, Region;
    var head, file := image.Head(), image.Laid();
    HeadWords(image);
    RegionIsLong(image.commands);
    WordOfPrefix(head, file, 0);
    WordOfPrefix(head, file, 4);
    WordOfPrefix(head, file, 12);
    WordOfPrefix(head, file, 16);
    WordOfPrefix(head, file, 20);
  }

  lemma WordIs(file: Bytes, offset: nat)
    requires offset + 4 <= |file|
    ensures Word(file, offset) < 0x1_0000_0000 && Put32(Word(file, offset)) == file[offset..offset + 4]
  {
    PutGet(file[offset..offset + 4]);
  }

  /** The image whose header a file has. */
  function ImageOf(file: Bytes, cs: seq<Command>): Image
    requires HeaderOk(file)
  {
    Image(Word(file, 8), Word(file, 24), Word(file, 28), cs, file[HEADER + Word(file, 20)..])
  }

  lemma HeadOfFile(file: Bytes, cs: seq<Command>)
    requires HeaderOk(file) && AllFit(cs) && |cs| == Word(file, 16) && |Region(cs)| == Word(file, 20)
    ensures ImageOf(file, cs).Valid() && ImageOf(file, cs).Head() == file[..32]
  {
    hide Get32, Put32, Region;
    FixedWords(file[0..4]);
    FixedWords(file[4..8]);
    WordIs(file, 8);
    FixedWords(file[12..16]);
    WordIs(file, 16);
    WordIs(file, 20);
    WordIs(file, 24);
    WordIs(file, 28);
    HeadSplits(file);
  }

  /** A file with a good header is laid out so, around the region it announces. */
  lemma HeaderIsHead(file: Bytes, cs: seq<Command>)
    requires HeaderOk(file) && AllFit(cs) && |cs| == Word(file, 16) && Region(cs) == Commands(file)
    ensures ImageOf(file, cs).Valid() && ImageOf(file, cs).Laid() == file
  {
    hide Word, Region, Image.Head;
    HeadOfFile(file, cs);
    var end := HEADER + Word(file, 20);
    assert file == file[..HEADER] + file[HEADER..end] + file[end..];
  }

  lemma HeadSplits(file: Bytes)
    requires |file| >= 32
    ensures file[..32] == file[0..4] + file[4..8] + file[8..12] + file[12..16] + file[16..20] + file[20..24]
                          + file[24..28] + file[28..32]
  {
  }

  lemma ImageIff(file: Bytes, uuid: Bytes)
    ensures HeaderOk(file) && Verdict(Split(Commands(file), Word(file, 16))) == Some(uuid) <==>
            exists image: Image :: image.Carries(uuid) && file == image.Laid()
  {
    if HeaderOk(file) && Verdict(Split(Commands(file), Word(file, 16))) == Some(uuid) {
      AcceptedIff(file, uuid);
      hide HeaderOk, Verdict, Split, Commands, Word, Region, OnlyUuid;
      var cs: seq<Command>, i: nat :|
        |cs| == Word(file, 16) && AllFit(cs) && Region(cs) == Commands(file) && OnlyUuid(cs, i, uuid);
      HeaderIsHead(file, cs);
      var image := ImageOf(file, cs);
      assert image.Carries(uuid) && file == image.Laid();
    }
    if image: Image :| image.Carries(uuid) && file == image.Laid() {
      LaidHeader(image);
      AcceptedIff(file, uuid);
    }
  }
}
