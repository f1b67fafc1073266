/**
 The governed-release command: one invocation, one mutation, one full readback.

 `Server` is the GitHub repository as one client sees it. Tags and releases are its `store`, which
 only this client writes. Everything else may change between any two requests, and any request may
 fail, or be answered as a success and do something else; `oracle(n)` fixes what surrounds request
 number `n`.
 */
module ReleaseCommand {
  import opened Basics
  import opened ReleaseModel

  // ----- What surrounds a request -----

  datatype CommitFacts = CommitFacts(versions: set<string>, contractIntact: bool)

  datatype World = World(main: RefTarget, commits: map<Oid, CommitFacts>, merged: set<(Oid, Oid)>,
                         branches: set<string>)

  /**
   `Rejected`: not applied. `ReplyLost`: applied, but reported as failed. `CutOff`: half an upload.
   `Strange`: reported as done, with the id `id`, but what it left behind is `left`, whatever that is.
   */
  datatype Fault = Fine | Rejected | ReplyLost | CutOff | Strange(left: Store, id: nat)

  /** `oid` is the id the server would give to a tag object created now. */
  datatype Moment = Moment(world: World, fault: Fault, oid: Oid)

  type Oracle = nat -> Moment

  const COMMON_READS: nat := 6

  /** What the `k`-th read of the common check must answer. */
  predicate CommonAnswer(k: nat, c: Common, w: World) {
    match k
    case 0 => w.main == RefTarget(ObjectKind.Commit, c.expectedMain)
    case 1 => c.targetOid in w.commits
    case 2 => (c.targetOid, c.expectedMain) in w.merged
    case 3 => c.targetOid in w.commits && w.commits[c.targetOid].versions == {c.version}
    case 4 => c.targetOid in w.commits && w.commits[c.targetOid].contractIntact
    case _ => c.Tag() !in w.branches
  }

  predicate CommonReadPasses(oracle: Oracle, n: nat, k: nat, c: Common) {
    oracle(n + k).fault.Fine? && CommonAnswer(k, c, oracle(n + k).world)
  }

  /** The six reads starting with request `n` all succeed and all answer as required. */
  ghost predicate CommonAt(oracle: Oracle, n: nat, c: Common) {
    forall k | 0 <= k < COMMON_READS :: CommonReadPasses(oracle, n, k, c)
  }

  /** What a common check that passed has seen: one fact of the repository with each of its reads. */
  lemma CommonMeans(oracle: Oracle, n: nat, c: Common)
    ensures CommonAt(oracle, n, c) <==>
            && (forall m | n <= m < n + 6 :: oracle(m).fault.Fine?)
            && oracle(n).world.main == RefTarget(ObjectKind.Commit, c.expectedMain)
            && c.targetOid in oracle(n + 1).world.commits
            && (c.targetOid, c.expectedMain) in oracle(n + 2).world.merged
            && c.targetOid in oracle(n + 3).world.commits
            && oracle(n + 3).world.commits[c.targetOid].versions == {c.version}
            && c.targetOid in oracle(n + 4).world.commits && oracle(n + 4).world.commits[c.targetOid].contractIntact
            && "mac-v" + c.version !in oracle(n + 5).world.branches
  {
    forall k | 0 <= k < COMMON_READS
      ensures CommonReadPasses(oracle, n, k, c) <==>
              oracle(n + k).fault.Fine? && CommonAnswer(k, c, oracle(n + k).world)
    {
    }
    if CommonAt(oracle, n, c) {
      assert forall k | 0 <= k < 6 :: CommonReadPasses(oracle, n, k, c);
      forall m | n <= m < n + 6
        ensures oracle(m).fault.Fine?
      {
        assert CommonReadPasses(oracle, n, m - n, c);
      }
      assert CommonReadPasses(oracle, n, 0, c) && CommonReadPasses(oracle, n, 1, c);
      assert CommonReadPasses(oracle, n, 2, c);
      assert CommonReadPasses(oracle, n, 3, c) && CommonReadPasses(oracle, n, 4, c);
      assert CommonReadPasses(oracle, n, 5, c);
    }
  }

  /** From request `n` on nothing fails, nothing drifts, and a new tag object gets a full id of its own. */
  ghost predicate Quiet(oracle: Oracle, n: nat, s: Store, c: Common) {
    forall m | n <= m :: QuietMoment(oracle, n, m, s, c)
  }

  predicate QuietMoment(oracle: Oracle, n: nat, m: nat, s: Store, c: Common) {
    && oracle(m).fault.Fine? && oracle(m).world == oracle(n).world
    && IsFullOid(oracle(m).oid) && s.Admits(c, oracle(m).oid)
  }

  lemma QuietKeepsCommon(oracle: Oracle, n: nat, m: nat, s: Store, c: Common)
    requires Quiet(oracle, n, s, c) && CommonAt(oracle, n, c) && n <= m
    ensures CommonAt(oracle, m, c)
  {
    forall k | 0 <= k < COMMON_READS
      ensures CommonReadPasses(oracle, m, k, c)
    {
      assert CommonReadPasses(oracle, n, k, c);
      assert QuietMoment(oracle, n, n + k, s, c) && QuietMoment(oracle, n, m + k, s, c);
    }
  }

  /** Some request from `from` up to `to` was not answered. */
  ghost predicate Faulty(oracle: Oracle, from: nat, to: nat) {
    exists m | from <= m < to :: !oracle(m).fault.Fine?
  }

  /** While it is quiet every request is answered, and a common check that passed passes again. */
  lemma QuietMeans(oracle: Oracle, n: nat, s: Store, c: Common, from: nat, again: nat, to: nat)
    requires n <= from <= again && CommonAt(oracle, n, c)
    ensures Quiet(oracle, n, s, c) ==> QuietMoment(oracle, n, from, s, c)
    ensures Quiet(oracle, n, s, c) ==> !Faulty(oracle, from, to)
    ensures Quiet(oracle, n, s, c) ==> CommonAt(oracle, again, c)
  {
    if Quiet(oracle, n, s, c) {
      forall m | from <= m < to
        ensures oracle(m).fault.Fine?
      {
        assert QuietMoment(oracle, n, m, s, c);
      }
      QuietKeepsCommon(oracle, n, again, s, c);
    }
  }

  // ----- What an invocation promises -----

  datatype Exit = Receipt(oid: Oid, id: nat) | Blocked

  /**
   The contract of one invocation that makes the requests from `n` up to `to` on store `s`, sends
   `writes` mutations, the last one ever as request `sentAt`, and leaves `s'`.
   */
  ghost predicate Promise(h: Hash, oracle: Oracle, n: nat, to: nat, q: Request, s: Store, s': Store, writes: int,
                          sentAt: nat, r: Exit)
  {
    // At most one mutation, and only after every precondition was read.
    && 0 <= writes <= 1
    && (writes == 0 ==> s' == s && r == Blocked)
    && (writes == 1 ==> q.WellFormed() && CommonAt(oracle, n, q.common) && Guard(h, s, q))
    && (writes == 1 ==> oracle(sentAt).fault.Strange? || Step(h, s, q, s'))
    && (writes == 1 ==> n + COMMON_READS <= sentAt < to)
    // Exit code 0 means, whatever the server did, that what was asked for is there, and that the common
    // state was checked again; and when the server did nothing else, it means the full effect.
    && (r.Receipt? ==> writes == 1 && ReadBack(s, q, s', r) && CommonAgain(oracle, sentAt, to, q.common))
    && (r.Receipt? && !oracle(sentAt).fault.Strange? ==> Completed(h, s, q, s', r))
    // With no failure and no drift, what is allowed is sent and takes full effect, and what was sent
    // is also read back. There is one exception.
    && (Quiet(oracle, n, s, q.common) ==>
          && (Allowed(h, oracle, n, q, s) ==> writes == 1)
          && (writes == 1 && !q.op.TagObjectCreate? ==> s' == Applied(h, s, q, ""))
          && (writes == 1 ==> (r.Receipt? <==> !PublishesPrerelease(s, q))))
  }

  /** All preconditions of the invocation hold. */
  ghost predicate Allowed(h: Hash, oracle: Oracle, n: nat, q: Request, s: Store) {
    q.WellFormed() && CommonAt(oracle, n, q.common) && Guard(h, s, q)
  }

  /** All reads of a common check that passed lie behind the mutation and within the invocation. */
  ghost predicate CommonAgain(oracle: Oracle, sentAt: nat, to: nat, c: Common) {
    exists m: nat :: sentAt < m && m + COMMON_READS <= to && CommonAt(oracle, m, c)
  }

  /** The store after a confirmed mutation, and the identifier on its receipt. */
  predicate Completed(h: Hash, s: Store, q: Request, s': Store, r: Exit) {
    && r.Receipt? && Applicable(s, q)
    && s' == Applied(h, s, q, r.oid)
    && (match q.op
        case TagObjectCreate => IsFullOid(r.oid) && s.Admits(q.common, r.oid)
        case TagRefCreate(oid) => r.oid == oid
        case Publish(oid, id, _) => r.oid == oid && r.id == id
        case _ => r.oid == q.op.tagOid && r.id == s.nextId)
  }

  /** The common check has just passed, starting with request `n`. */
  ghost predicate Entered(oracle: Oracle, n: nat, q: Request, calls: nat) {
    n + COMMON_READS <= calls && q.WellFormed() && CommonAt(oracle, n, q.common)
  }

  predicate ReleaseBound(s: Store, c: Common, id: nat, oid: Oid) {
    id in s.releases && s.releases[id].tag == c.Tag() && s.TagBound(c, oid)
  }

  /** What every receipt stands for, on any server: what was asked for is in the store, as it was asked for. */
  ghost predicate ReadBack(s: Store, q: Request, s': Store, r: Exit) {
    var c := q.common;
    && r.Receipt?
    && match q.op
       case TagObjectCreate =>
         IsFullOid(r.oid) && r.oid in s'.tagObjects && s'.tagObjects[r.oid] == c.GovernedTag() && s'.TagAbsent(c.Tag())
       case TagRefCreate(oid) =>
         r.oid == oid && s'.TagBound(c, oid) && s'.ReleaseAbsent(c.Tag())
       case DraftCreate(oid, title) =>
         && r.oid == oid && ReleaseBound(s', c, r.id, oid)
         && s'.releases[r.id] == Release(c.Tag(), title, q.payload, true, false, [])
       case AssetUpload(oid, id, e, _) =>
         && r.oid == oid && ReleaseBound(s', c, id, oid) && HeldAs(s'.releases[id].assets, r.id, e)
         && id in s.releases && RemoteAssets(s.releases[id].assets).Some?
         && RemoteAssets(s'.releases[id].assets) == Some(RemoteAssets(s.releases[id].assets).value[e.name := e])
       case Publish(oid, id, manifest) =>
         && r.oid == oid && r.id == id && ReleaseBound(s', c, id, oid)
         && !s'.releases[id].draft && !s'.releases[id].prerelease && Carries(s'.releases[id].assets, manifest)
  }

  /** The asset with that id is fully uploaded, with that name, size and digest. */
  ghost predicate HeldAs(assets: seq<Asset>, assetId: nat, e: Expectation) {
    exists j :: 0 <= j < |assets| && assets[j].id == assetId && Is(assets[j], e)
  }

  function FindAsset(assets: seq<Asset>, id: nat): Option<Asset> {
    if assets == [] then None
    else if assets[|assets| - 1].id == id then Some(assets[|assets| - 1])
    else FindAsset(assets[..|assets| - 1], id)
  }

  /** The upload is found under its id, and the listing is the one before with the upload added. */
  predicate UploadListed(s: Store, q: Request, before: map<string, Expectation>, assetId: nat)
    requires q.op.AssetUpload?
  {
    && ReleaseBound(s, q.common, q.op.releaseId, q.op.tagOid)
    && var assets := s.releases[q.op.releaseId].assets;
    && FindAsset(assets, assetId).Some? && Is(FindAsset(assets, assetId).value, q.op.asset)
    && RemoteAssets(assets) == Some(before[q.op.asset.name := q.op.asset])
  }

  lemma {:induction false} FoundIsThere(assets: seq<Asset>, assetId: nat) returns (j: nat)
    requires FindAsset(assets, assetId).Some?
    ensures j < |assets| && assets[j].id == assetId && FindAsset(assets, assetId) == Some(assets[j])
  {
    j := |assets| - 1;
    if assets[j].id != assetId {
      j := FoundIsThere(assets[..j], assetId);
    }
  }

  lemma UploadIsReadBack(s: Store, q: Request, s': Store, before: map<string, Expectation>, assetId: nat)
    requires q.op.AssetUpload? && UploadListed(s', q, before, assetId)
    requires q.op.releaseId in s.releases && RemoteAssets(s.releases[q.op.releaseId].assets) == Some(before)
    ensures ReadBack(s, q, s', Receipt(q.op.tagOid, assetId))
  {
    var j := FoundIsThere(s'.releases[q.op.releaseId].assets, assetId);
  }

  lemma NothingListed(assets: seq<Asset>)
    ensures RemoteAssets(assets) == Some(map[]) <==> assets == []
  {
    if RemoteAssets(assets) == Some(map[]) {
      ListingIsExact(assets);
    }
  }

  /** A complete upload passes its readback, and is what a receipt stands for. */
  lemma UploadIsListed(h: Hash, s: Store, q: Request, oid: Oid)
    requires q.op.AssetUpload? && Guard(h, s, q)
    ensures Applied(h, s, q, oid) == Applied(h, s, q, "")
    ensures Completed(h, s, q, Applied(h, s, q, oid), Receipt(q.op.tagOid, s.nextId))
    ensures UploadListed(Applied(h, s, q, oid), q, RemoteAssets(s.releases[q.op.releaseId].assets).value, s.nextId)
  {
    var a := Applied(h, s, q, oid).releases[q.op.releaseId].assets;
    assert a[..|a| - 1] == s.releases[q.op.releaseId].assets;
  }

  /** Builds the listing asset by asset, giving up at the first one that cannot be listed. */
  method ListAssets(assets: seq<Asset>) returns (m: Option<map<string, Expectation>>)
    ensures m == RemoteAssets(assets)
  {
    var result: map<string, Expectation> := map[];
    for i := 0 to |assets|
      invariant RemoteAssets(assets[..i]) == Some(result)
    {
      assert assets[..i + 1][..i] == assets[..i];
      if assets[i].name in result || !Listable(assets[i]) {
        ListingPrefix(assets, i + 1);
        return None;
      }
      result := result[assets[i].name := AsExpectation(assets[i])];
    }
    assert assets[..|assets|] == assets;
    return Some(result);
  }

  lemma {:induction false} ListingPrefix(assets: seq<Asset>, n: nat)
    requires n <= |assets| && RemoteAssets(assets[..n]).None?
    ensures RemoteAssets(assets).None?
    decreases |assets|
  {
    if n == |assets| {
      assert assets[..n] == assets;
    } else {
      var init := assets[..|assets| - 1];
      assert init[..n] == assets[..n];
      ListingPrefix(init, n);
    }
  }

  method ReadManifest(manifest: seq<Expectation>) returns (m: Option<map<string, Expectation>>)
    ensures m == ManifestMap(manifest)
  {
    var result: map<string, Expectation> := map[];
    for i := 0 to |manifest|
      invariant ManifestMap(manifest[..i]) == Some(result)
    {
      assert manifest[..i + 1][..i] == manifest[..i];
      if !Acceptable(manifest[i]) || manifest[i].name in result {
        ManifestPrefix(manifest, i + 1);
        return None;
      }
      result := result[manifest[i].name := manifest[i]];
    }
    assert manifest[..|manifest|] == manifest;
    return Some(result);
  }

  lemma {:induction false} ManifestPrefix(manifest: seq<Expectation>, n: nat)
    requires n <= |manifest| && ManifestMap(manifest[..n]).None?
    ensures ManifestMap(manifest).None?
    decreases |manifest|
  {
    if n == |manifest| {
      assert manifest[..n] == manifest;
    } else {
      var init := manifest[..|manifest| - 1];
      assert init[..n] == manifest[..n];
      ManifestPrefix(init, n);
    }
  }

  class Server {
    const sha256: Hash
    const oracle: Oracle
    var store: Store
    var calls: nat
    var writes: nat
    /** The number of the request that carried the last mutation. */
    var sentAt: nat

    constructor (sha256: Hash, oracle: Oracle, store: Store)
      ensures this.sha256 == sha256 && this.oracle == oracle && this.store == store && calls == 0 && writes == 0
    {
      this.sha256, this.oracle, this.store := sha256, oracle, store;
      calls, writes, sentAt := 0, 0, 0;
    }

    /** One GET request. A client that gets an answer looks at `store`, which only it changes. */
    method Read() returns (ok: bool)
      modifies this`calls
      ensures calls == old(calls) + 1 && ok == oracle(old(calls)).fault.Fine?
    {
      ok := oracle(calls).fault.Fine?;
      calls := calls + 1;
    }

    /** One mutating request; to send it, its guard must hold. The reply names a tag object or a release. */
    method Send(q: Request) returns (ok: bool, oid: Oid, id: nat)
      requires Guard(sha256, store, q)
      modifies this`store, this`calls, this`writes, this`sentAt
      ensures calls == old(calls) + 1 && writes == old(writes) + 1 && sentAt == old(calls)
      ensures oid == oracle(old(calls)).oid
      ensures !oracle(sentAt).fault.Strange? ==>
                && (ok <==> oracle(sentAt).fault.Fine? && (q.op.TagObjectCreate? ==> old(store).Admits(q.common, oid)))
                && (ok ==> store == Applied(sha256, old(store), q, oid) && id == old(store).nextId)
                && Step(sha256, old(store), q, store)
    {
      var now := oracle(calls);
      oid, id := now.oid, store.nextId;
      calls, writes, sentAt := calls + 1, writes + 1, calls;
      if now.fault.Strange? {
        store := now.fault.left;
        return true, oid, now.fault.id;
      }
      var admitted := q.op.TagObjectCreate? ==> store.Admits(q.common, oid);
      ok := now.fault.Fine? && admitted;
      if now.fault.CutOff? && q.op.AssetUpload? {
        store := WithAsset(store, q.op.releaseId, Asset(store.nextId, q.op.asset.name, 0, NoSha256, false));
      } else if ok || (now.fault.ReplyLost? && admitted) {
        store := Applied(sha256, store, q, oid);
      }
    }

    method AssertCommon(c: Common) returns (ok: bool)
      modifies this`calls
      ensures old(calls) <= calls && (ok <==> CommonAt(oracle, old(calls), c))
      ensures ok ==> calls == old(calls) + COMMON_READS
    {
      ghost var n := calls;
      for k := 0 to COMMON_READS
        invariant calls == n + k
        invariant forall j | 0 <= j < k :: CommonReadPasses(oracle, n, j, c)
      {
        var answered := Read();
        if !answered || !CommonAnswer(k, c, oracle(calls - 1).world) {
          assert !CommonReadPasses(oracle, n, k, c);
          return false;
        }
      }
      return true;
    }

    method AssertReleaseAbsent(tag: string) returns (ok: bool)
      modifies this`calls
      ensures old(calls) <= calls
      ensures ok ==> store.ReleaseAbsent(tag)
      ensures !ok ==> !store.ReleaseAbsent(tag) || Faulty(oracle, old(calls), calls)
    {
      var byTag := Read();
      if !byTag {
        return false;
      }
      // The lookup by tag only finds published releases; the listing finds drafts too.
      if exists id | id in store.releases :: store.releases[id].tag == tag && !store.releases[id].draft {
        return false;
      }
      var listing := Read();
      ok := listing && store.ReleaseAbsent(tag);
    }

    method AssertTagAbsent(tag: string) returns (ok: bool)
      modifies this`calls
      ensures old(calls) <= calls
      ensures ok ==> store.TagAbsent(tag)
      ensures !ok ==> !store.TagAbsent(tag) || Faulty(oracle, old(calls), calls)
    {
      ok := Read();
      if !ok || tag in store.tagRefs {
        return false;
      }
      ok := AssertReleaseAbsent(tag);
    }

    method ReadTag(c: Common, oid: Oid) returns (ok: bool)
      modifies this`calls
      ensures old(calls) <= calls
      ensures ok ==> store.TagBound(c, oid)
      ensures !ok ==> !store.TagBound(c, oid) || Faulty(oracle, old(calls), calls)
    {
      ok := Read();
      if !ok || c.Tag() !in store.tagRefs || store.tagRefs[c.Tag()] != RefTarget(Tag, oid) {
        return false;
      }
      ok := Read();
      ok := ok && oid in store.tagObjects && store.tagObjects[oid] == c.GovernedTag();
    }

    /** The release has the id and the tag that were asked for, and the tag is bound. */
    method ReadRelease(c: Common, id: nat, oid: Oid) returns (ok: bool)
      modifies this`calls
      ensures old(calls) <= calls
      ensures ok ==> ReleaseBound(store, c, id, oid)
      ensures !ok ==> !ReleaseBound(store, c, id, oid) || Faulty(oracle, old(calls), calls)
    {
      ok := Read();
      if !ok || id !in store.releases || store.releases[id].tag != c.Tag() {
        return false;
      }
      ok := ReadTag(c, oid);
    }

    method CreateTagObject(q: Request, ghost n: nat) returns (r: Exit)
      requires q.op.TagObjectCreate? && Entered(oracle, n, q, calls)
      modifies this`store, this`calls, this`writes, this`sentAt
      ensures old(calls) <= calls
      ensures old(writes) <= writes
      ensures Promise(sha256, oracle, n, calls, q, old(store), store, writes - old(writes), sentAt, r)
    {
      r := Blocked;
      var c := q.common;
      if q.payload != c.Message() {
        return;
      }
      var ok := AssertTagAbsent(c.Tag());
      QuietMeans(oracle, n, old(store), c, old(calls), old(calls), calls);
      if !ok {
        return;
      }
      ghost var from := calls;
      var sent, oid, _ := Send(q);
      ghost var again := calls;
      if sent && IsFullOid(oid) {
        ok := Read();
        again := calls;
        if ok && oid in store.tagObjects && store.tagObjects[oid] == c.GovernedTag() {
          ok := AssertCommon(c);
          if ok {
            ok := AssertTagAbsent(c.Tag());
            if ok {
              r := Receipt(oid, 0);
            }
          }
        }
      }
      QuietMeans(oracle, n, old(store), c, from, again, calls);
    }

    method CreateTagRef(q: Request, ghost n: nat) returns (r: Exit)
      requires q.op.TagRefCreate? && Entered(oracle, n, q, calls)
      modifies this`store, this`calls, this`writes, this`sentAt
      ensures old(calls) <= calls
      ensures old(writes) <= writes
      ensures Promise(sha256, oracle, n, calls, q, old(store), store, writes - old(writes), sentAt, r)
    {
      r := Blocked;
      var c, oid := q.common, q.op.tagOid;
      if q.payload != c.Message() {
        return;
      }
      var ok := AssertTagAbsent(c.Tag());
      if ok {
        ok := Read();
      }
      QuietMeans(oracle, n, old(store), c, old(calls), old(calls), calls);
      if !ok || oid !in store.tagObjects || store.tagObjects[oid] != c.GovernedTag() {
        return;
      }
      ghost var from := calls;
      var sent, _, _ := Send(q);
      ghost var again := calls;
      if sent {
        ok := AssertCommon(c);
        if ok {
          ok := ReadTag(c, oid);
          if ok {
            ok := AssertReleaseAbsent(c.Tag());
            if ok {
              r := Receipt(oid, 0);
            }
          }
        }
      }
      QuietMeans(oracle, n, old(store), c, from, again, calls);
    }

    method CreateDraft(q: Request, ghost n: nat) returns (r: Exit)
      requires q.op.DraftCreate? && Entered(oracle, n, q, calls) && store.TagBound(q.common, q.op.tagOid)
      modifies this`store, this`calls, this`writes, this`sentAt
      ensures old(calls) <= calls
      ensures old(writes) <= writes
      ensures Promise(sha256, oracle, n, calls, q, old(store), store, writes - old(writes), sentAt, r)
    {
      r := Blocked;
      var c, oid, title := q.common, q.op.tagOid, q.op.title;
      if q.payload == "" || title == "" {
        return;
      }
      var ok := AssertReleaseAbsent(c.Tag());
      QuietMeans(oracle, n, old(store), c, old(calls), old(calls), calls);
      if !ok {
        return;
      }
      ghost var from := calls;
      var sent, _, id := Send(q);
      ghost var again := calls;
      if sent {
        ok := AssertCommon(c);
        if ok {
          ok := ReadRelease(c, id, oid);
          if ok {
            var rel := store.releases[id];
            var listing := ListAssets(rel.assets);
            NothingListed(rel.assets);
            if rel.draft && !rel.prerelease && rel.name == title && rel.body == q.payload && listing == Some(map[]) {
              r := Receipt(oid, id);
            }
          }
        }
      }
      QuietMeans(oracle, n, old(store), c, from, again, calls);
    }

    method UploadAsset(q: Request, ghost n: nat) returns (r: Exit)
      requires q.op.AssetUpload? && Entered(oracle, n, q, calls) && q.payload == ""
      requires ReleaseBound(store, q.common, q.op.releaseId, q.op.tagOid) && store.releases[q.op.releaseId].draft
      modifies this`store, this`calls, this`writes, this`sentAt
      ensures old(calls) <= calls
      ensures old(writes) <= writes
      ensures Promise(sha256, oracle, n, calls, q, old(store), store, writes - old(writes), sentAt, r)
    {
      hide UploadListed, RemoteAssets, Applied, Completed, ReadBack, Step, CommonAt;
      r := Blocked;
      var c, oid, id, e := q.common, q.op.tagOid, q.op.releaseId, q.op.asset;
      var before := ListAssets(store.releases[id].assets);
      if Acceptable(e) && before.Some? && e.name !in before.value && FileMatches(sha256, e, q.op.file) {
        assert Guard(sha256, store, q);
        ghost var from := calls;
        var sent, newOid, assetId := Send(q);
        if sent {
          UploadIsListed(sha256, old(store), q, newOid);
          var confirmed := ConfirmUpload(q, before.value, assetId);
          if confirmed {
            UploadIsReadBack(old(store), q, store, before.value, assetId);
            r := Receipt(oid, assetId);
          }
        }
        QuietMeans(oracle, n, old(store), c, from, from + 1, calls);
      }
    }

    /** The readback of an upload: it passes exactly when the upload is listed, unless a request fails. */
    method ConfirmUpload(q: Request, before: map<string, Expectation>, assetId: nat) returns (ok: bool)
      requires q.op.AssetUpload?
      modifies this`calls
      ensures old(calls) <= calls
      ensures ok ==> CommonAt(oracle, old(calls), q.common) && old(calls) + COMMON_READS <= calls
      ensures ok ==> UploadListed(store, q, before, assetId)
      ensures !ok ==>
                || !CommonAt(oracle, old(calls), q.common) || Faulty(oracle, old(calls), calls)
                || !UploadListed(store, q, before, assetId)
    {
      ok := AssertCommon(q.common);
      if !ok {
        return;
      }
      var answered := Read();
      var id := q.op.releaseId;
      if !answered || id !in store.releases {
        return false;
      }
      var found := FindAsset(store.releases[id].assets, assetId);
      if found.None? || !Is(found.value, q.op.asset) {
        return false;
      }
      var bound := ReadRelease(q.common, id, q.op.tagOid);
      if !bound {
        return false;
      }
      var after := ListAssets(store.releases[id].assets);
      ok := after == Some(before[q.op.asset.name := q.op.asset]);
    }

    method PublishRelease(q: Request, ghost n: nat) returns (r: Exit)
      requires q.op.Publish? && Entered(oracle, n, q, calls) && q.payload == ""
      requires ReleaseBound(store, q.common, q.op.releaseId, q.op.tagOid) && store.releases[q.op.releaseId].draft
      modifies this`store, this`calls, this`writes, this`sentAt
      ensures old(calls) <= calls
      ensures old(writes) <= writes
      ensures Promise(sha256, oracle, n, calls, q, old(store), store, writes - old(writes), sentAt, r)
    {
      r := Blocked;
      var c, oid, id := q.common, q.op.tagOid, q.op.releaseId;
      var expected := ReadManifest(q.op.manifest);
      if expected.None? || expected.value.Keys != GOVERNED_ASSETS {
        return;
      }
      var listing := ListAssets(store.releases[id].assets);
      if listing != expected {
        return;
      }
      ghost var from := calls;
      var sent, _, _ := Send(q);
      ghost var again := calls;
      if sent {
        var ok := AssertCommon(c);
        if ok {
          ok := ReadRelease(c, id, oid);
          if ok {
            var rel := store.releases[id];
            listing := ListAssets(rel.assets);
            if !rel.draft && !rel.prerelease && listing == expected {
              SameMapCarries(rel.assets, q.op.manifest);
              r := Receipt(oid, id);
            }
          }
        }
      }
      QuietMeans(oracle, n, old(store), c, from, again, calls);
    }

    /** One invocation of the command. */
    method ExecuteGovernedRelease(q: Request) returns (r: Exit)
      modifies this`store, this`calls, this`writes, this`sentAt
      ensures old(calls) <= calls && old(writes) <= writes
      ensures Promise(sha256, oracle, old(calls), calls, q, old(store), store, writes - old(writes), sentAt, r)
    {
      r := Blocked;
      if !q.WellFormed() {
        return;
      }
      var ok := AssertCommon(q.common);
      if !ok {
        return;
      }
      if q.op.TagObjectCreate? {
        r := CreateTagObject(q, old(calls));
        return;
      }
      if !q.op.TagRefCreate? && !q.op.DraftCreate? && q.payload != "" {
        return;
      }
      if q.op.TagRefCreate? {
        r := CreateTagRef(q, old(calls));
        return;
      }
      ghost var n, entered := old(calls), calls;
      ok := ReadTag(q.common, q.op.tagOid);
      QuietMeans(oracle, n, store, q.common, entered, entered, calls);
      if !ok {
        return;
      }
      if q.op.DraftCreate? {
        r := CreateDraft(q, old(calls));
        return;
      }
      entered := calls;
      ok := ReadRelease(q.common, q.op.releaseId, q.op.tagOid);
      QuietMeans(oracle, n, store, q.common, entered, entered, calls);
      if !ok || !store.releases[q.op.releaseId].draft {
        return;
      }
      if q.op.AssetUpload? {
        r := UploadAsset(q, old(calls));
      } else {
        r := PublishRelease(q, old(calls));
      }
    }
  }
}
