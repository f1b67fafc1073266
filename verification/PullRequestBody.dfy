/**
 The body-only pull-request update: a snapshot, a PATCH and a readback, repeated a bounded
 number of times when the server answers a PATCH with an ambiguous HTTP 503.

 `Client.ExecutePrBodyUpdate` is the program. Its conversation with the server is judged by a
 protocol machine (`Phase`, `Next`, `Legal`), and the guarantees are proved about every legal
 conversation: with any server at all first, and then with a server nobody else writes to.
 */
module PullRequestBody {
  import opened Basics

  const WRITE_ATTEMPTS: nat := 3
  const READ_ATTEMPTS: nat := 3

  // ----- Replies and their validation -----

  /** The JSON document of a pull request; a field of the wrong type counts as absent. */
  datatype PullValue =
    | NotAnObject
    | PullObject(number: Option<int>, state: Option<string>, draft: Option<bool>,
                 headSha: Option<string>, baseSha: Option<string>, body: Option<string>)

  datatype Snapshot = Snapshot(number: int, state: string, draft: bool,
                               headOid: string, baseOid: string, body: string)
  {
    /** Every field but the body agrees. */
    predicate SameObjectAs(other: Snapshot) {
      this.(body := other.body) == other
    }

    predicate WellFormed() {
      (state == "open" || state == "closed") && IsFullOid(headOid) && IsFullOid(baseOid)
    }

    /** The document a server shows for this pull request. */
    function Document(): PullValue {
      PullObject(Some(number), Some(state), Some(draft), Some(headOid), Some(baseOid), Some(body))
    }
  }

  function Validate(v: PullValue, number: int): Option<Snapshot> {
    if v.PullObject?
       && v.number == Some(number)
       && (v.state == Some("open") || v.state == Some("closed"))
       && v.draft.Some?
       && v.headSha.Some? && IsFullOid(v.headSha.value)
       && v.baseSha.Some? && IsFullOid(v.baseSha.value)
       && v.body.Some?
    then Some(Snapshot(number, v.state.value, v.draft.value, v.headSha.value, v.baseSha.value, v.body.value))
    else None
  }

  /** A document is read as a pull request exactly when it is that pull request's own document. */
  lemma ValidateIff(v: PullValue, number: int, s: Snapshot)
    ensures Validate(v, number) == Some(s) <==> v == s.Document() && s.WellFormed() && s.number == number
  {
  }

  /** A reply is a document, HTTP 503, or any other failed request. */
  datatype Reply = Answer(value: PullValue) | Unavailable | ApiError

  datatype Exchange = Get(reply: Reply) | Patch(body: string, reply: Reply)

  /** What a read observed, when it observed a well-formed pull request. */
  function Seen(number: int, e: Exchange): Option<Snapshot> {
    if e.Get? && e.reply.Answer? then Validate(e.reply.value, number) else None
  }

  // ----- The protocol machine -----

  datatype Reason =
    | ReadFailed | ReadExhausted | BadShape
    | PatchFailed | PatchIdentityDrift | PatchBodyMismatch
    | IdentityDrift | BodyMismatch | ThirdState | PatchExhausted

  datatype Phase =
    | Opening(tries: nat)
    | Writing(original: Snapshot, attempt: nat)
    | Checking(original: Snapshot, attempt: nat, ambiguous: bool, tries: nat)
    | Done(attempts: nat)
    | Refused(reason: Reason)
  {
    predicate Final() {
      Done? || Refused?
    }
  }

  /** The request a phase sends. */
  predicate Sends(p: Phase, payload: string, e: Exchange) {
    match p
    case Opening(_) => e.Get?
    case Checking(_, _, _, _) => e.Get?
    case Writing(_, _) => e.Patch? && e.body == payload
    case _ => false
  }

  /** How a reading phase continues once it has seen a well-formed pull request. */
  function Judge(payload: string, p: Phase, seen: Snapshot): Phase {
    match p
    case Opening(_) => Writing(seen, 1)
    case Checking(original, attempt, ambiguous, _) =>
      if !seen.SameObjectAs(original) then Refused(IdentityDrift)
      else if seen.body == payload then Done(attempt)
      else if !ambiguous then Refused(BodyMismatch)
      else if seen.body != original.body then Refused(ThirdState)
      else if attempt == WRITE_ATTEMPTS then Refused(PatchExhausted)
      else Writing(original, attempt + 1)
    case _ => p
  }

  function Next(number: int, payload: string, p: Phase, reply: Reply): Phase {
    match p
    case Opening(tries) =>
      (match reply
       case ApiError => Refused(ReadFailed)
       case Unavailable => if tries + 1 == READ_ATTEMPTS then Refused(ReadExhausted) else Opening(tries + 1)
       case Answer(v) =>
         var s := Validate(v, number);
         if s.None? then Refused(BadShape) else Judge(payload, p, s.value))
    case Writing(original, attempt) =>
      (match reply
       case ApiError => Refused(PatchFailed)
       case Unavailable => Checking(original, attempt, true, 0)
       case Answer(v) =>
         var s := Validate(v, number);
         if s.None? then Refused(BadShape)
         else if !s.value.SameObjectAs(original) then Refused(PatchIdentityDrift)
         else if s.value.body != payload then Refused(PatchBodyMismatch)
         else Checking(original, attempt, false, 0))
    case Checking(original, attempt, ambiguous, tries) =>
      (match reply
       case ApiError => Refused(ReadFailed)
       case Unavailable =>
         if tries + 1 == READ_ATTEMPTS then Refused(ReadExhausted)
         else Checking(original, attempt, ambiguous, tries + 1)
       case Answer(v) =>
         var s := Validate(v, number);
         if s.None? then Refused(BadShape) else Judge(payload, p, s.value))
    case _ => p
  }

  function PhaseAfter(number: int, payload: string, tr: seq<Exchange>): Phase {
    if tr == [] then Opening(0)
    else Next(number, payload, PhaseAfter(number, payload, tr[..|tr| - 1]), tr[|tr| - 1].reply)
  }

  /** Every exchange of `tr` is the one the protocol asks for at that point. */
  ghost predicate Legal(number: int, payload: string, tr: seq<Exchange>) {
    forall k {:trigger tr[..k]} | 0 <= k < |tr| :: Sends(PhaseAfter(number, payload, tr[..k]), payload, tr[k])
  }

  lemma StepExtends(number: int, payload: string, tr: seq<Exchange>, e: Exchange)
    requires Legal(number, payload, tr) && Sends(PhaseAfter(number, payload, tr), payload, e)
    ensures Legal(number, payload, tr + [e])
    ensures PhaseAfter(number, payload, tr + [e]) == Next(number, payload, PhaseAfter(number, payload, tr), e.reply)
  {
    var ext := tr + [e];
    assert ext[..|tr|] == tr;
    forall k | 0 <= k < |ext|
      ensures Sends(PhaseAfter(number, payload, ext[..k]), payload, ext[k])
    {
      if k < |tr| {
        assert ext[..k] == tr[..k];
      }
    }
  }

  lemma LegalPrefix(number: int, payload: string, tr: seq<Exchange>, n: nat)
    requires Legal(number, payload, tr) && n <= |tr|
    ensures Legal(number, payload, tr[..n])
  {
    forall k | 0 <= k < n
      ensures Sends(PhaseAfter(number, payload, tr[..n][..k]), payload, tr[..n][k])
    {
      assert tr[..n][..k] == tr[..k];
    }
  }

  // ----- The program -----

  predicate IsPositiveDecimal(s: string) {
    s != "" && s[0] != '0' && forall i | 0 <= i < |s| :: IsDigit(s[i])
  }

  predicate IsBodyEdit(command: seq<string>) {
    |command| == 4 && command[..3] == ["gh", "pr", "edit"] && IsPositiveDecimal(command[3])
  }

  /** The commands that are executed are the edits of a pull request with a positive number, and no other. */
  lemma BodyEditIff(command: seq<string>)
    ensures IsBodyEdit(command) ==>
              DecimalValue(command[3]) > 0 && command == ["gh", "pr", "edit", Decimal(DecimalValue(command[3]))]
    ensures forall n: nat :: n > 0 ==> IsBodyEdit(["gh", "pr", "edit", Decimal(n)]) && DecimalValue(Decimal(n)) == n
  {
    if IsBodyEdit(command) {
      DecimalIsUnique(command[3]);
      assert command == command[..3] + [command[3]];
    }
    forall n: nat | n > 0
      ensures IsBodyEdit(["gh", "pr", "edit", Decimal(n)]) && DecimalValue(Decimal(n)) == n
    {
      DecimalIsDigits(n);
      assert ["gh", "pr", "edit", Decimal(n)][..3] == ["gh", "pr", "edit"];
    }
  }

  datatype ReadResult = Good(snapshot: Snapshot) | Bad(reason: Reason)

  /** The phase that follows an answered read, or a read that gave up. */
  function AfterRead(payload: string, p: Phase, r: ReadResult): Phase {
    match r
    case Bad(reason) => Refused(reason)
    case Good(s) => Judge(payload, p, s)
  }

  datatype Outcome = UnsafeCommand | Finished(phase: Phase)

  /** The conversation holds the server's replies, one for each request made since `from`. */
  ghost predicate Records(server: nat -> Reply, from: nat, requests: nat, log: seq<Exchange>) {
    requests == from + |log| && forall i | 0 <= i < |log| :: log[i].reply == server(from + i)
  }

  lemma RecordsMore(server: nat -> Reply, from: nat, requests: nat, log: seq<Exchange>, e: Exchange)
    requires Records(server, from, requests, log) && e.reply == server(requests)
    ensures Records(server, from, requests + 1, log + [e])
  {
  }

  /**
   A client of an arbitrary server: `server(n)` is its reply to request number `n`, so one value
   of `server` fixes one behaviour of the remote, interference by other writers included. `log`
   is the conversation of the update in progress.
   */
  class Client {
    const server: nat -> Reply
    var requests: nat
    var log: seq<Exchange>

    constructor (server: nat -> Reply)
      ensures this.server == server && requests == 0 && log == []
    {
      this.server := server;
      requests, log := 0, [];
    }

    method Read() returns (reply: Reply)
      modifies this
      ensures requests == old(requests) + 1 && reply == server(old(requests))
      ensures log == old(log) + [Get(reply)]
    {
      reply := server(requests);
      requests, log := requests + 1, log + [Get(reply)];
    }

    method MutateJson(body: string) returns (reply: Reply)
      modifies this
      ensures requests == old(requests) + 1 && reply == server(old(requests))
      ensures log == old(log) + [Patch(body, reply)]
    {
      reply := server(requests);
      requests, log := requests + 1, log + [Patch(body, reply)];
    }

    /**
     Reads until the server stops answering 503, at most `READ_ATTEMPTS` times. The reads are
     exactly the ones the protocol makes from the phase the caller is in.
     */
    method ReadPrBodySnapshot(number: int, ghost payload: string, ghost p: Phase, ghost from: nat)
      returns (r: ReadResult)
      requires Legal(number, payload, log) && PhaseAfter(number, payload, log) == p
      requires (p.Opening? || p.Checking?) && p.tries == 0 && Records(server, from, requests, log)
      modifies this
      ensures Legal(number, payload, log) && Records(server, from, requests, log)
      ensures old(requests) < requests <= old(requests) + READ_ATTEMPTS
      ensures PhaseAfter(number, payload, log) == AfterRead(payload, p, r)
    {
      hide Records, Legal, PhaseAfter;
      var attempt := 1;
      while true
        invariant 1 <= attempt <= READ_ATTEMPTS && requests == old(requests) + attempt - 1
        invariant Legal(number, payload, log) && Records(server, from, requests, log)
        invariant PhaseAfter(number, payload, log) == p.(tries := attempt - 1)
        decreases READ_ATTEMPTS - attempt
      {
        ghost var before, asked := log, requests;
        var reply := Read();
        StepExtends(number, payload, before, Get(reply));
        RecordsMore(server, from, asked, before, Get(reply));
        match reply {
          case Answer(v) =>
            var s := Validate(v, number);
            return if s.None? then Bad(BadShape) else Good(s.value);
          case ApiError =>
            return Bad(ReadFailed);
          case Unavailable =>
            if attempt == READ_ATTEMPTS {
              return Bad(ReadExhausted);
            }
            attempt := attempt + 1;
        }
      }
    }

    /**
     The whole update. Its conversation is legal, it stops only in a final phase, and that phase
     is what it reports.
     */
    method ExecutePrBodyUpdate(command: seq<string>, payload: string) returns (r: Outcome)
      modifies this
      ensures r.UnsafeCommand? <==> !IsBodyEdit(command)
      ensures r.UnsafeCommand? ==> log == [] && requests == old(requests)
      ensures r.Finished? ==>
                && Records(server, old(requests), requests, log)
                && Legal(DecimalValue(command[3]), payload, log)
                && r.phase.Final()
                && PhaseAfter(DecimalValue(command[3]), payload, log) == r.phase
    {
      log := [];
      if !IsBodyEdit(command) {
        return UnsafeCommand;
      }
      var number := DecimalValue(command[3]);
      ghost var from := requests;
      assert Records(server, from, requests, log);
      hide Records, Legal, PhaseAfter;
      var first := ReadPrBodySnapshot(number, payload, Opening(0), from);
      if first.Bad? {
        return Finished(Refused(first.reason));
      }
      var original := first.snapshot;
      var attempt := 1;
      while true
        invariant 1 <= attempt <= WRITE_ATTEMPTS
        invariant Legal(number, payload, log) && Records(server, from, requests, log)
        invariant PhaseAfter(number, payload, log) == Writing(original, attempt)
        decreases WRITE_ATTEMPTS - attempt
      {
        ghost var before, asked := log, requests;
        var reply := MutateJson(payload);
        StepExtends(number, payload, before, Patch(payload, reply));
        RecordsMore(server, from, asked, before, Patch(payload, reply));
        var ambiguous := false;
        match reply {
          case ApiError =>
            return Finished(Refused(PatchFailed));
          case Unavailable =>
            ambiguous := true;
          case Answer(v) =>
            var patched := Validate(v, number);
            if patched.None? {
              return Finished(Refused(BadShape));
            }
            if !patched.value.SameObjectAs(original) {
              return Finished(Refused(PatchIdentityDrift));
            }
            if patched.value.body != payload {
              return Finished(Refused(PatchBodyMismatch));
            }
        }
        var seen := ReadPrBodySnapshot(number, payload, Checking(original, attempt, ambiguous, 0), from);
        if seen.Bad? {
          return Finished(Refused(seen.reason));
        }
        var observed := seen.snapshot;
        if !observed.SameObjectAs(original) {
          return Finished(Refused(IdentityDrift));
        }
        if observed.body == payload {
          return Finished(Done(attempt));
        }
        if !ambiguous {
          return Finished(Refused(BodyMismatch));
        }
        if observed.body != original.body {
          return Finished(Refused(ThirdState));
        }
        if attempt == WRITE_ATTEMPTS {
          return Finished(Refused(PatchExhausted));
        }
        attempt := attempt + 1;
      }
    }
  }

  // ----- Guarantees against any server -----

  function Patches(tr: seq<Exchange>): nat {
    if tr == [] then 0 else Patches(tr[..|tr| - 1]) + (if tr[|tr| - 1].Patch? then 1 else 0)
  }

  function Gets(tr: seq<Exchange>): nat {
    if tr == [] then 0 else Gets(tr[..|tr| - 1]) + (if tr[|tr| - 1].Get? then 1 else 0)
  }

  /** How many requests each phase can have behind it. */
  predicate WithinBudget(p: Phase, patches: nat, gets: nat) {
    match p
    case Opening(tries) => patches == 0 && gets == tries < READ_ATTEMPTS
    case Writing(_, a) => 1 <= a <= WRITE_ATTEMPTS && patches == a - 1 && gets <= READ_ATTEMPTS * a
    case Checking(_, a, _, tries) =>
      1 <= a <= WRITE_ATTEMPTS && patches == a && tries < READ_ATTEMPTS && gets <= READ_ATTEMPTS * a + tries
    case Done(a) => 1 <= a <= WRITE_ATTEMPTS && patches == a && gets <= READ_ATTEMPTS * (a + 1)
    case Refused(_) => patches <= WRITE_ATTEMPTS && gets <= READ_ATTEMPTS * (patches + 1)
  }

  lemma {:induction false} BudgetHolds(number: int, payload: string, tr: seq<Exchange>)
    requires Legal(number, payload, tr)
    ensures WithinBudget(PhaseAfter(number, payload, tr), Patches(tr), Gets(tr))
  {
    if tr != [] {
      var n := |tr| - 1;
      LegalPrefix(number, payload, tr, n);
      BudgetHolds(number, payload, tr[..n]);
      assert Sends(PhaseAfter(number, payload, tr[..n]), payload, tr[n]);
    }
  }

  /** Every run makes at most three PATCH requests and at most twelve reads. */
  lemma RunIsBounded(number: int, payload: string, tr: seq<Exchange>)
    requires Legal(number, payload, tr)
    ensures Patches(tr) <= 3 && Gets(tr) <= 12
  {
    BudgetHolds(number, payload, tr);
  }

  /** The position of the first exchange that is not a read answered 503; `|tr|` when there is none. */
  function First(tr: seq<Exchange>): nat {
    if tr == [] then 0
    else
      var n := |tr| - 1;
      var f := First(tr[..n]);
      if f < n then f else if tr[n] == Get(Unavailable) then |tr| else n
  }

  /** The position of the last PATCH; -1 when there is none. */
  function LastPatch(tr: seq<Exchange>): int {
    if tr == [] then -1
    else if tr[|tr| - 1].Patch? then |tr| - 1
    else LastPatch(tr[..|tr| - 1])
  }

  lemma {:induction false} FirstMeans(tr: seq<Exchange>)
    ensures First(tr) <= |tr|
    ensures forall m | 0 <= m < First(tr) :: tr[m] == Get(Unavailable)
    ensures First(tr) < |tr| ==> tr[First(tr)] != Get(Unavailable)
  {
    if tr != [] {
      FirstMeans(tr[..|tr| - 1]);
    }
  }

  lemma {:induction false} LastPatchMeans(tr: seq<Exchange>)
    ensures -1 <= LastPatch(tr) < |tr|
    ensures LastPatch(tr) >= 0 ==> tr[LastPatch(tr)].Patch?
    ensures forall m | LastPatch(tr) < m < |tr| :: tr[m].Get?
  {
    if tr != [] {
      LastPatchMeans(tr[..|tr| - 1]);
    }
  }

  /** The first exchange that was not a 503 read is a read, and it saw `o`. */
  predicate Began(number: int, tr: seq<Exchange>, o: Snapshot) {
    First(tr) < |tr| && Seen(number, tr[First(tr)]) == Some(o)
  }

  /** What the phase remembers is what was observed. */
  predicate Remembers(number: int, payload: string, tr: seq<Exchange>, p: Phase) {
    var last := LastPatch(tr);
    match p
    case Opening(_) => First(tr) == |tr| && last == -1
    case Writing(o, a) =>
      && Began(number, tr, o)
      && Seen(number, tr[|tr| - 1]) == Some(o)
      && (if a == 1 then last == -1 else First(tr) < last < |tr| - 1 && tr[last].reply.Unavailable?)
    case Checking(o, _, ambiguous, _) =>
      && Began(number, tr, o)
      && First(tr) < last < |tr| && tr[last].reply.Unavailable? == ambiguous
      && (!ambiguous ==> Acknowledges(number, tr[last].reply, o.(body := payload)))
    case Done(_) => Confirmed(number, payload, tr)
    case Refused(_) => true
  }

  predicate Acknowledges(number: int, reply: Reply, s: Snapshot) {
    reply.Answer? && Validate(reply.value, number) == Some(s)
  }

  /**
   The last exchange is a read made after the last PATCH. It saw the payload, on the pull
   request that the very first answered read saw; and so did the reply to that PATCH, unless it was 503.
   */
  predicate Confirmed(number: int, payload: string, tr: seq<Exchange>) {
    && First(tr) < LastPatch(tr) < |tr| - 1
    && Seen(number, tr[First(tr)]).Some?
    && var updated := Seen(number, tr[First(tr)]).value.(body := payload);
    && Seen(number, tr[|tr| - 1]) == Some(updated)
    && (tr[LastPatch(tr)].reply.Unavailable? || Acknowledges(number, tr[LastPatch(tr)].reply, updated))
  }

  lemma {:induction false} MemoryIsFaithful(number: int, payload: string, tr: seq<Exchange>)
    requires Legal(number, payload, tr)
    ensures Remembers(number, payload, tr, PhaseAfter(number, payload, tr))
  {
    if tr != [] {
      var n := |tr| - 1;
      var init, e := tr[..n], tr[n];
      var p := PhaseAfter(number, payload, init);
      assert tr == init + [e];
      assert Sends(p, payload, e);
      LegalPrefix(number, payload, tr, n);
      MemoryIsFaithful(number, payload, init);
      BudgetHolds(number, payload, init);
      RememberStep(number, payload, init, p, e);
    }
  }

  lemma RememberStep(number: int, payload: string, init: seq<Exchange>, p: Phase, e: Exchange)
    requires Remembers(number, payload, init, p) && Sends(p, payload, e)
    requires WithinBudget(p, Patches(init), Gets(init))
    ensures Remembers(number, payload, init + [e], Next(number, payload, p, e.reply))
  {
    var tr := init + [e];
    assert tr[..|init|] == init;
    LastPatchMeans(init);
    FirstMeans(init);
    assert First(tr) == if First(init) < |init| then First(init) else if e == Get(Unavailable) then |tr| else |init|;
    assert LastPatch(tr) == if e.Patch? then |init| else LastPatch(init);
  }

  /** The exchange is a read that was answered with the document of pull request `number`. */
  predicate Shows(e: Exchange, number: int) {
    e.Get? && e.reply.Answer? && e.reply.value.PullObject? && e.reply.value.number == Some(number)
  }

  /**
   Exit code 0 is reported only when the read after the last PATCH shows the very document that the
   first answered read showed, with the payload for its body. The last PATCH was answered with the same
   document or with 503.
   */
  lemma SuccessIsConfirmed(number: int, payload: string, tr: seq<Exchange>)
    requires Legal(number, payload, tr) && PhaseAfter(number, payload, tr).Done?
    ensures 0 <= First(tr) < LastPatch(tr) < |tr| - 1 && Shows(tr[First(tr)], number) && Shows(tr[|tr| - 1], number)
    ensures var updated := tr[First(tr)].reply.value.(body := Some(payload));
            && tr[|tr| - 1].reply.value == updated
            && (tr[LastPatch(tr)].reply == Unavailable || tr[LastPatch(tr)].reply == Answer(updated))
    ensures forall i | 0 <= i < |tr| && tr[i].Patch? :: tr[i].body == payload
    ensures PhaseAfter(number, payload, tr).attempts == Patches(tr)
  {
    MemoryIsFaithful(number, payload, tr);
    BudgetHolds(number, payload, tr);
    var original := Seen(number, tr[First(tr)]).value;
    ValidateIff(tr[First(tr)].reply.value, number, original);
    ValidateIff(tr[|tr| - 1].reply.value, number, original.(body := payload));
    if tr[LastPatch(tr)].reply.Answer? {
      ValidateIff(tr[LastPatch(tr)].reply.value, number, original.(body := payload));
    }
    forall i | 0 <= i < |tr| && tr[i].Patch?
      ensures tr[i].body == payload
    {
      assert Sends(PhaseAfter(number, payload, tr[..i]), payload, tr[i]);
    }
  }

  /**
   A PATCH is repeated only after the previous one got a 503, and only when the read just before
   it was answered with exactly the document of the first answered read. A third state that was observed
   is therefore never overwritten.
   */
  lemma RepeatIsReconciled(number: int, payload: string, tr: seq<Exchange>, i: nat, j: nat)
    requires Legal(number, payload, tr)
    requires i < j < |tr| && tr[i].Patch? && tr[j].Patch?
    requires forall m | i < m < j :: tr[m].Get?
    ensures tr[i].reply == Unavailable
    ensures i < j - 1 && First(tr[..j]) < i
    ensures Shows(tr[j - 1], number) && tr[j - 1] == tr[First(tr[..j])]
  {
    var init := tr[..j];
    assert Sends(PhaseAfter(number, payload, init), payload, tr[j]);
    LegalPrefix(number, payload, tr, j);
    LastPatchIs(init, i);
    WritingWasReconciled(number, payload, init);
    var original := Seen(number, tr[j - 1]).value;
    ValidateIff(tr[j - 1].reply.value, number, original);
    ValidateIff(tr[First(init)].reply.value, number, original);
  }

  lemma LastPatchIs(tr: seq<Exchange>, i: nat)
    requires i < |tr| && tr[i].Patch? && forall m | i < m < |tr| :: tr[m].Get?
    ensures LastPatch(tr) == i
  {
    LastPatchMeans(tr);
  }

  lemma WritingWasReconciled(number: int, payload: string, init: seq<Exchange>)
    requires Legal(number, payload, init) && PhaseAfter(number, payload, init).Writing? && LastPatch(init) >= 0
    ensures First(init) < LastPatch(init) < |init| - 1 && init[LastPatch(init)].reply == Unavailable
    ensures Seen(number, init[|init| - 1]).Some?
    ensures Seen(number, init[|init| - 1]) == Seen(number, init[First(init)])
  {
    MemoryIsFaithful(number, payload, init);
  }

  // ----- A server nobody else writes to -----

  /** One exchange on a server whose pull request only changes by this client's PATCH. */
  ghost predicate Honest(s: Snapshot, e: Exchange, s': Snapshot) {
    && s.WellFormed()
    && match e
       case Get(reply) => s' == s && (reply.Answer? ==> reply.value == s.Document())
       case Patch(body, reply) =>
         // A PATCH that is not acknowledged may or may not have been applied.
         if reply.Answer? then s' == s.(body := body) && reply.value == s'.Document()
         else s' == s || s' == s.(body := body)
  }

  ghost predicate HonestRun(states: seq<Snapshot>, tr: seq<Exchange>) {
    && |states| == |tr| + 1
    && forall i | 0 <= i < |tr| :: Honest(states[i], tr[i], states[i + 1])
  }

  /** At every moment the remote body is the original one or the payload; nothing else changed. */
  lemma {:induction false} BodyIsOneOfTwo(number: int, payload: string, tr: seq<Exchange>,
                                          states: seq<Snapshot>, i: nat)
    requires Legal(number, payload, tr) && HonestRun(states, tr)
    requires i < |states|
    ensures states[i].body == states[0].body || states[i].body == payload
    ensures states[i].SameObjectAs(states[0])
  {
    if i > 0 {
      BodyIsOneOfTwo(number, payload, tr, states, i - 1);
      assert Honest(states[i - 1], tr[i - 1], states[i]);
      assert Sends(PhaseAfter(number, payload, tr[..i - 1]), payload, tr[i - 1]);
    }
  }

  /** What each phase knows about the state `now` of an honest server that started as `s0`. */
  ghost predicate Tracks(payload: string, p: Phase, s0: Snapshot, now: Snapshot, tr: seq<Exchange>) {
    match p
    case Opening(tries) =>
      now == s0 && tries <= |tr| && StarvedFor(tr, tries) && AmbiguousPatches(tr) == 0
    case Writing(o, a) =>
      && o == s0 && now == s0
      && (a > 1 ==> s0.body != payload)
      && AmbiguousPatches(tr) == a - 1
    case Checking(o, a, ambiguous, tries) =>
      && o == s0
      && (!ambiguous ==> now.body == payload)
      && AmbiguousPatches(tr) == (if ambiguous then a else a - 1)
      && tries <= |tr| && StarvedFor(tr, tries)
    case Done(_) =>
      now.body == payload && |tr| > 0 && tr[|tr| - 1].Get? && tr[|tr| - 1].reply.Answer?
    case Refused(reason) =>
      match reason
      case ReadFailed => |tr| > 0 && tr[|tr| - 1] == Get(ApiError)
      case PatchFailed => |tr| > 0 && tr[|tr| - 1].Patch? && tr[|tr| - 1].reply == ApiError
      case ReadExhausted => |tr| >= READ_ATTEMPTS && StarvedFor(tr, READ_ATTEMPTS)
      case PatchExhausted => now == s0 && s0.body != payload && AmbiguousPatches(tr) == WRITE_ATTEMPTS
      case _ => false
  }

  /** The last `n` exchanges were reads answered 503. */
  ghost predicate StarvedFor(tr: seq<Exchange>, n: nat)
    requires n <= |tr|
  {
    forall m | |tr| - n <= m < |tr| :: tr[m] == Get(Unavailable)
  }

  function AmbiguousPatches(tr: seq<Exchange>): nat {
    if tr == [] then 0
    else AmbiguousPatches(tr[..|tr| - 1])
         + (if tr[|tr| - 1].Patch? && tr[|tr| - 1].reply.Unavailable? then 1 else 0)
  }

  lemma {:induction false} MachineTracksServer(number: int, payload: string, tr: seq<Exchange>, states: seq<Snapshot>)
    requires Legal(number, payload, tr) && HonestRun(states, tr) && states[0].number == number
    ensures Tracks(payload, PhaseAfter(number, payload, tr), states[0], states[|tr|], tr)
  {
    if tr != [] {
      var n := |tr| - 1;
      LegalPrefix(number, payload, tr, n);
      MachineTracksServer(number, payload, tr[..n], states[..n + 1]);
      BodyIsOneOfTwo(number, payload, tr, states, n);
      BudgetHolds(number, payload, tr[..n]);
      TrackStep(number, payload, tr, PhaseAfter(number, payload, tr[..n]), states[0], states[n], states[n + 1]);
    }
  }

  lemma TrackStep(number: int, payload: string, tr: seq<Exchange>, p: Phase,
                  s0: Snapshot, s: Snapshot, s': Snapshot)
    requires tr != [] && s0.number == number
    requires var n := |tr| - 1;
             && Tracks(payload, p, s0, s, tr[..n])
             && Sends(p, payload, tr[n])
             && Honest(s, tr[n], s')
             && WithinBudget(p, Patches(tr[..n]), Gets(tr[..n]))
    requires s.SameObjectAs(s0) && (s.body == s0.body || s.body == payload)
    ensures Tracks(payload, Next(number, payload, p, tr[|tr| - 1].reply), s0, s', tr)
  {
    var n := |tr| - 1;
    assert s.body == s0.body ==> s == s0;
    assert s'.body == s0.body && s'.SameObjectAs(s0) ==> s' == s0;
    forall t: nat | t <= n && StarvedFor(tr[..n], t) && tr[n] == Get(Unavailable)
      ensures StarvedFor(tr, t + 1)
    {
      forall m | |tr| - (t + 1) <= m < |tr|
        ensures tr[m] == Get(Unavailable)
      {
        if m < n {
          assert tr[..n][m] == Get(Unavailable);
        }
      }
    }
  }

  /**
   On such a server a finished run succeeds exactly when its last request was an answered read
   and the remote body is then the payload. A refusal leaves only three explanations: a request
   failed outright, a read was answered 503 three times, or three PATCHes were answered 503 and
   none of them was applied.
   */
  lemma HonestOutcome(number: int, payload: string, tr: seq<Exchange>, states: seq<Snapshot>)
    requires Legal(number, payload, tr) && HonestRun(states, tr) && states[0].number == number
    requires PhaseAfter(number, payload, tr).Final()
    ensures tr != []
    ensures PhaseAfter(number, payload, tr).Done? <==>
            tr[|tr| - 1].Get? && tr[|tr| - 1].reply.Answer? && states[|tr|].body == payload
    ensures PhaseAfter(number, payload, tr).Refused? ==>
              || tr[|tr| - 1].reply == ApiError
              || (|tr| >= READ_ATTEMPTS && StarvedFor(tr, READ_ATTEMPTS))
              || (AmbiguousPatches(tr) == WRITE_ATTEMPTS && states[|tr|] == states[0] && states[0].body != payload)
  {
    MachineTracksServer(number, payload, tr, states);
    var p := PhaseAfter(number, payload, tr);
    if p.Refused? && p.reason.ReadExhausted? {
      assert tr[|tr| - 1] == Get(Unavailable);
    }
  }

  /**
   At most two PATCHes answered 503, at most two consecutive 503 answers per read and no other
   failure: the run always ends in success, with the payload on the remote.
   */
  lemma FewFaultsSucceed(number: int, payload: string, tr: seq<Exchange>, states: seq<Snapshot>)
    requires Legal(number, payload, tr) && HonestRun(states, tr) && states[0].number == number
    requires PhaseAfter(number, payload, tr).Final()
    requires forall i | 0 <= i < |tr| :: !tr[i].reply.ApiError?
    requires AmbiguousPatches(tr) <= 2
    requires forall i | 0 <= i < |tr| - 2 :: !(tr[i] == tr[i + 1] == tr[i + 2] == Get(Unavailable))
    ensures PhaseAfter(number, payload, tr).Done? && states[|tr|] == states[0].(body := payload)
  {
    HonestOutcome(number, payload, tr, states);
    BodyIsOneOfTwo(number, payload, tr, states, |tr|);
    assert |tr| < READ_ATTEMPTS || !StarvedFor(tr, READ_ATTEMPTS);
  }
}
