/**
 Guarantees over whole runs of governed-release invocations, when nothing else writes tags or
 releases. A run is any sequence of requests, each doing nothing or its one guarded mutation.
 */
module ReleaseRuns {
  import opened Basics
  import opened ReleaseModel

  ghost predicate IsRun(h: Hash, states: seq<Store>, reqs: seq<Request>) {
    && |states| == |reqs| + 1
    && forall i | 0 <= i < |reqs| :: StepAt(h, states, reqs, i)
  }

  ghost predicate StepAt(h: Hash, states: seq<Store>, reqs: seq<Request>, i: nat)
    requires i < |reqs| && |states| == |reqs| + 1
  {
    Step(h, states[i], reqs[i], states[i + 1])
  }

  /** The release that `q` published is published, carries the manifest, and hangs on the governed tag. */
  predicate Sealed(s: Store, q: Request) {
    && q.op.Publish?
    && q.op.releaseId in s.releases
    && var rel := s.releases[q.op.releaseId];
    && !rel.draft && rel.tag == q.common.Tag()
    && ManifestMap(q.op.manifest).Some? && ManifestMap(q.op.manifest).value.Keys == GOVERNED_ASSETS
    && RemoteAssets(rel.assets) == ManifestMap(q.op.manifest)
    && s.TagBound(q.common, q.op.tagOid)
  }

  /** Nothing the seal covers differs between the two stores. */
  predicate SameSeal(s: Store, s': Store, q: Request)
    requires Sealed(s, q) && Sealed(s', q)
  {
    && s'.releases[q.op.releaseId] == s.releases[q.op.releaseId]
    && s'.tagRefs[q.common.Tag()] == s.tagRefs[q.common.Tag()]
    && s'.tagObjects[q.op.tagOid] == s.tagObjects[q.op.tagOid]
  }

  lemma PublishSeals(h: Hash, s: Store, q: Request, s': Store)
    requires q.op.Publish? && Mutated(h, s, q, s')
    ensures Sealed(s', q)
  {
  }

  lemma IdsStayBelowNext(h: Hash, s: Store, q: Request, s': Store)
    requires Step(h, s, q, s') && s.IdsBelowNext()
    ensures s'.IdsBelowNext()
  {
    if s' != s && q.op.AssetUpload? {
      var id := q.op.releaseId;
      assert s.releases[id].AssetIdsBelow(s.nextId);
      assert s'.releases == s.releases[id := s'.releases[id]] && s'.releases[id].AssetIdsBelow(s'.nextId);
    }
  }

  /** No request whatsoever breaks a seal or touches what it covers. */
  lemma SealSurvivesStep(h: Hash, s: Store, q: Request, r: Request, s': Store)
    requires Sealed(s, q) && Step(h, s, r, s') && s.IdsBelowNext()
    ensures Sealed(s', q) && SameSeal(s, s', q)
  {
    if s' != s {
      assert Guard(h, s, r);
      match r.op {
        case TagObjectCreate =>
        case TagRefCreate(_) =>
        case DraftCreate(_, _) =>
        case AssetUpload(_, id, _, _) => assert id != q.op.releaseId;
        case Publish(_, id, _) => assert id != q.op.releaseId;
      }
    }
  }

  lemma {:induction false} IdsBelowNextInRun(h: Hash, states: seq<Store>, reqs: seq<Request>, n: nat)
    requires IsRun(h, states, reqs) && states[0].IdsBelowNext() && n < |states|
    ensures states[n].IdsBelowNext()
  {
    if n > 0 {
      IdsBelowNextInRun(h, states, reqs, n - 1);
      var s, q, s' := states[n - 1], reqs[n - 1], states[n];
      assert StepAt(h, states, reqs, n - 1);
      IdsStayBelowNext(h, s, q, s');
    }
  }

  lemma {:induction false} SealSurvivesRun(h: Hash, states: seq<Store>, reqs: seq<Request>, q: Request, i: nat, j: nat)
    requires IsRun(h, states, reqs) && states[0].IdsBelowNext()
    requires i <= j < |states| && Sealed(states[i], q)
    ensures Sealed(states[j], q) && SameSeal(states[i], states[j], q)
  {
    if i < j {
      SealSurvivesRun(h, states, reqs, q, i, j - 1);
      IdsBelowNextInRun(h, states, reqs, j - 1);
      assert StepAt(h, states, reqs, j - 1);
      SealSurvivesStep(h, states[j - 1], q, reqs[j - 1], states[j]);
    }
  }

  /**
   Once an invocation has published a release, that release, its assets and its tag stay exactly
   as they were published, whatever is invoked afterwards.
   */
  lemma PublishedStaysPublished(h: Hash, states: seq<Store>, reqs: seq<Request>, i: nat, j: nat)
    requires IsRun(h, states, reqs) && states[0].IdsBelowNext()
    requires i < j < |states| && reqs[i].op.Publish? && states[i + 1] != states[i]
    ensures Sealed(states[i + 1], reqs[i]) && Sealed(states[j], reqs[i])
    ensures SameSeal(states[i + 1], states[j], reqs[i])
  {
    assert StepAt(h, states, reqs, i);
    PublishSeals(h, states[i], reqs[i], states[i + 1]);
    SealSurvivesRun(h, states, reqs, reqs[i], i + 1, j);
  }

  predicate IsPublished(s: Store, id: nat) {
    id in s.releases && !s.releases[id].draft
  }

  /** Only a publish request turns a release into a published one. */
  lemma OnlyPublishPublishes(h: Hash, s: Store, q: Request, s': Store, id: nat)
    requires Step(h, s, q, s') && IsPublished(s', id) && !IsPublished(s, id)
    ensures s' != s && q.op.Publish? && q.op.releaseId == id
  {
  }

  /**
   Every published release of a run that began with none was published by an invocation of the
   run, `i`, and still carries that invocation's manifest and tag.
   */
  lemma {:induction false} PublishedWasGoverned(h: Hash, states: seq<Store>, reqs: seq<Request>, n: nat, id: nat)
    returns (i: nat)
    requires IsRun(h, states, reqs) && states[0].IdsBelowNext()
    requires forall k | k in states[0].releases :: states[0].releases[k].draft
    requires n < |states| && IsPublished(states[n], id)
    ensures i < n && reqs[i].op.Publish? && reqs[i].op.releaseId == id && Sealed(states[n], reqs[i])
    ensures |reqs[i].op.manifest| == 2 && Carries(states[n].releases[id].assets, reqs[i].op.manifest)
    ensures forall k | 0 <= k < 2 :: reqs[i].op.manifest[k].name in GOVERNED_ASSETS
  {
    if IsPublished(states[n - 1], id) {
      i := PublishedWasGoverned(h, states, reqs, n - 1, id);
      SealSurvivesRun(h, states, reqs, reqs[i], n - 1, n);
    } else {
      i := n - 1;
      assert StepAt(h, states, reqs, i);
      OnlyPublishPublishes(h, states[i], reqs[i], states[n], id);
      PublishSeals(h, states[i], reqs[i], states[n]);
    }
    SealedHasTwoAssets(states[n], reqs[i]);
  }

  lemma SealedHasTwoAssets(s: Store, q: Request)
    requires Sealed(s, q)
    ensures |q.op.manifest| == 2 && Carries(s.releases[q.op.releaseId].assets, q.op.manifest)
    ensures forall k | 0 <= k < 2 :: q.op.manifest[k].name in GOVERNED_ASSETS
  {
    var m := ManifestMap(q.op.manifest).value;
    SameMapCarries(s.releases[q.op.releaseId].assets, q.op.manifest);
    ManifestIsExact(q.op.manifest);
    assert forall k | 0 <= k < |q.op.manifest| :: MapsToItself(m, q.op.manifest[k]);
    assert |m| == |m.Keys| == |GOVERNED_ASSETS|;
    assert GOVERNED_ASSETS - {"Soyeht.dmg"} == {"appcast.xml"};
  }

  // ----- Where assets and releases come from -----

  /** The request uploads a file, and the asset is listed with that file's size and digest. */
  ghost predicate Sent(h: Hash, q: Request, a: Asset) {
    && q.op.AssetUpload? && q.op.file.Some? && a.name == q.op.asset.name
    && a.size == |q.op.file.value| && a.digest == Sha256(h(q.op.file.value))
  }

  lemma AssetOfStep(h: Hash, s: Store, q: Request, s': Store, id: nat, k: nat)
    requires Step(h, s, q, s') && id in s'.releases
    requires k < |s'.releases[id].assets| && s'.releases[id].assets[k].uploaded
    ensures || Sent(h, q, s'.releases[id].assets[k])
            || (id in s.releases && k < |s.releases[id].assets|
                && s.releases[id].assets[k] == s'.releases[id].assets[k])
  {
  }

  /** Over any run that began without releases, a fully uploaded asset is the file of some upload of the run. */
  lemma {:induction false} AssetsWereSent(h: Hash, states: seq<Store>, reqs: seq<Request>, n: nat, id: nat, k: nat)
    returns (i: nat)
    requires IsRun(h, states, reqs) && states[0].releases == map[] && n < |states|
    requires id in states[n].releases
    requires k < |states[n].releases[id].assets| && states[n].releases[id].assets[k].uploaded
    ensures i < n && Sent(h, reqs[i], states[n].releases[id].assets[k])
  {
    hide Sent, Step;
    assert StepAt(h, states, reqs, n - 1);
    AssetOfStep(h, states[n - 1], reqs[n - 1], states[n], id, k);
    if Sent(h, reqs[n - 1], states[n].releases[id].assets[k]) {
      i := n - 1;
    } else {
      i := AssetsWereSent(h, states, reqs, n - 1, id, k);
    }
  }

  /** So every line of a published manifest gives the size and the SHA-256 of bytes that were sent. */
  lemma PublishedBytesWereSent(h: Hash, states: seq<Store>, reqs: seq<Request>, n: nat, id: nat, k: nat)
    returns (p: nat, i: nat)
    requires IsRun(h, states, reqs) && states[0].releases == map[]
    requires n < |states| && IsPublished(states[n], id) && k < 2
    ensures p < n && reqs[p].op.Publish? && reqs[p].op.releaseId == id && |reqs[p].op.manifest| == 2
    ensures i < n && reqs[i].op.AssetUpload? && reqs[i].op.file.Some?
    ensures var line, file := reqs[p].op.manifest[k], reqs[i].op.file.value;
            line.name == reqs[i].op.asset.name && line.size == |file| && line.sha256 == h(file)
  {
    hide Sealed;
    p := PublishedWasGoverned(h, states, reqs, n, id);
    var assets := states[n].releases[id].assets;
    assert Held(assets, reqs[p].op.manifest[k]);
    var j :| 0 <= j < |assets| && Is(assets[j], reqs[p].op.manifest[k]);
    i := AssetsWereSent(h, states, reqs, n, id, j);
  }

  /** The release has a name and a body, and its tag is an annotated one with the fixed message, on a commit. */
  predicate WellMade(s: Store, rel: Release) {
    && rel.name != "" && rel.body != "" && "mac-v" <= rel.tag
    && rel.tag in s.tagRefs && s.tagRefs[rel.tag].kind == Tag && s.tagRefs[rel.tag].oid in s.tagObjects
    && var tag := s.tagObjects[s.tagRefs[rel.tag].oid];
    && tag.tag == rel.tag && tag.message == "Soyeht " + rel.tag[5..] + "\n" && tag.kind == ObjectKind.Commit
  }

  ghost predicate AllWellMade(s: Store) {
    forall id | id in s.releases :: WellMade(s, s.releases[id])
  }

  /** Refs and tag objects, once there, never change. */
  lemma TagsStay(h: Hash, s: Store, q: Request, s': Store)
    requires Step(h, s, q, s')
    ensures forall t | t in s.tagRefs :: t in s'.tagRefs && s'.tagRefs[t] == s.tagRefs[t]
    ensures forall o | o in s.tagObjects :: o in s'.tagObjects && s'.tagObjects[o] == s.tagObjects[o]
  {
  }

  lemma ReleaseOfStep(h: Hash, s: Store, q: Request, s': Store, id: nat)
    requires Step(h, s, q, s') && id in s'.releases
    ensures var rel := s'.releases[id];
            if id in s.releases && (q.op.DraftCreate? ==> id != s.nextId) then
              var was := s.releases[id]; rel.tag == was.tag && rel.name == was.name && rel.body == was.body
            else s' == s || WellMade(s', rel)
  {
    assert q.common.Tag()[5..] == q.common.version;
  }

  lemma StepMakesWell(h: Hash, s: Store, q: Request, s': Store)
    requires Step(h, s, q, s') && AllWellMade(s)
    ensures AllWellMade(s')
  {
    TagsStay(h, s, q, s');
    hide Step;
    forall id | id in s'.releases
      ensures WellMade(s', s'.releases[id])
    {
      ReleaseOfStep(h, s, q, s', id);
      assert id in s.releases ==> WellMade(s, s.releases[id]);
    }
  }

  lemma {:induction false} RunMakesWell(h: Hash, states: seq<Store>, reqs: seq<Request>, n: nat)
    requires IsRun(h, states, reqs) && AllWellMade(states[0]) && n < |states|
    ensures AllWellMade(states[n])
  {
    if n > 0 {
      RunMakesWell(h, states, reqs, n - 1);
      assert StepAt(h, states, reqs, n - 1);
      StepMakesWell(h, states[n - 1], reqs[n - 1], states[n]);
    }
  }

  /** At most one release, draft or not, per tag. */
  ghost predicate OneReleasePerTag(s: Store) {
    forall a, b | a in s.releases && b in s.releases && s.releases[a].tag == s.releases[b].tag :: a == b
  }

  ghost predicate NoPrerelease(s: Store) {
    forall id | id in s.releases :: !s.releases[id].prerelease
  }

  lemma {:induction false} RunKeepsReleasesApart(h: Hash, states: seq<Store>, reqs: seq<Request>, n: nat)
    requires IsRun(h, states, reqs) && OneReleasePerTag(states[0]) && NoPrerelease(states[0]) && n < |states|
    ensures OneReleasePerTag(states[n]) && NoPrerelease(states[n])
  {
    if n > 0 {
      RunKeepsReleasesApart(h, states, reqs, n - 1);
      assert StepAt(h, states, reqs, n - 1);
      StepKeepsReleasesApart(h, states[n - 1], reqs[n - 1], states[n]);
    }
  }

  lemma StepKeepsReleasesApart(h: Hash, s: Store, q: Request, s': Store)
    requires Step(h, s, q, s') && OneReleasePerTag(s) && NoPrerelease(s)
    ensures OneReleasePerTag(s') && NoPrerelease(s')
  {
    if s' != s {
      assert Guard(h, s, q);
      match q.op {
        case TagObjectCreate =>
        case TagRefCreate(_) =>
        case DraftCreate(_, _) =>
          assert forall id | id in s.releases :: s.releases[id].tag != q.common.Tag();
        case AssetUpload(_, id, _, _) =>
        case Publish(_, id, _) =>
      }
    }
  }

  /** On a store that only governed invocations wrote, no publish ever meets a prerelease draft. */
  lemma GovernedDraftsAreNoPrereleases(h: Hash, states: seq<Store>, reqs: seq<Request>, n: nat, q: Request)
    requires IsRun(h, states, reqs) && OneReleasePerTag(states[0]) && NoPrerelease(states[0]) && n < |states|
    ensures !PublishesPrerelease(states[n], q)
  {
    RunKeepsReleasesApart(h, states, reqs, n);
  }

  // ----- The pipeline goes through -----

  // Each operation establishes what the guard of the next one asks for: no guard is stricter than that.

  lemma TagStage(h: Hash, s: Store, c: Common, oid: Oid) returns (s1: Store, s2: Store)
    requires s.TagAbsent(c.Tag()) && s.Admits(c, oid)
    ensures var q1, q2 := Request(c, TagObjectCreate, c.Message()), Request(c, TagRefCreate(oid), c.Message());
            && Guard(h, s, q1) && s1 == Applied(h, s, q1, oid)
            && Guard(h, s1, q2) && s2 == Applied(h, s1, q2, oid)
    ensures s2.TagBound(c, oid) && s2.ReleaseAbsent(c.Tag()) && s2.nextId == s.nextId
  {
    s1 := Applied(h, s, Request(c, TagObjectCreate, c.Message()), oid);
    s2 := Applied(h, s1, Request(c, TagRefCreate(oid), c.Message()), oid);
  }

  lemma DraftStage(h: Hash, s: Store, c: Common, oid: Oid, title: string, body: string) returns (s': Store)
    requires s.TagBound(c, oid) && s.ReleaseAbsent(c.Tag()) && title != "" && body != ""
    ensures var q := Request(c, DraftCreate(oid, title), body); Guard(h, s, q) && s' == Applied(h, s, q, oid)
    ensures Collecting(s', c, oid, s.nextId, map[])
  {
    s' := Applied(h, s, Request(c, DraftCreate(oid, title), body), oid);
  }

  /** The draft `id` is no prerelease, hangs on its tag and lists exactly `m`. */
  predicate Collecting(s: Store, c: Common, oid: Oid, id: nat, m: map<string, Expectation>) {
    && s.TagBound(c, oid) && DraftOpen(s, c, id) && !s.releases[id].prerelease
    && RemoteAssets(s.releases[id].assets) == Some(m)
  }

  lemma UploadStage(h: Hash, s: Store, c: Common, oid: Oid, id: nat, e: Expectation, file: Bytes,
                    m: map<string, Expectation>) returns (s': Store)
    requires Collecting(s, c, oid, id, m) && Acceptable(e) && FileMatches(h, e, Some(file)) && e.name !in m
    ensures var q := Request(c, AssetUpload(oid, id, e, Some(file)), ""); Guard(h, s, q) && s' == Applied(h, s, q, oid)
    ensures Collecting(s', c, oid, id, m[e.name := e])
  {
    s' := Applied(h, s, Request(c, AssetUpload(oid, id, e, Some(file)), ""), oid);
    var a := s'.releases[id].assets;
    assert a[..|a| - 1] == s.releases[id].assets;
  }

  lemma PublishStage(h: Hash, s: Store, c: Common, oid: Oid, id: nat, dmg: Expectation, xml: Expectation)
    returns (s': Store)
    requires Acceptable(dmg) && dmg.name == "Soyeht.dmg" && Acceptable(xml) && xml.name == "appcast.xml"
    requires Collecting(s, c, oid, id, map[dmg.name := dmg][xml.name := xml])
    ensures var q := Request(c, Publish(oid, id, [dmg, xml]), "");
            Guard(h, s, q) && s' == Applied(h, s, q, oid) && Sealed(s', q)
  {
    s' := Applied(h, s, Request(c, Publish(oid, id, [dmg, xml]), ""), oid);
    var m := map[dmg.name := dmg][xml.name := xml];
    assert [dmg, xml][..1] == [dmg] && [dmg][..0] == [];
    assert ManifestMap([dmg]) == Some(map[dmg.name := dmg]);
    assert dmg.name != xml.name by {
      assert |dmg.name| != |xml.name|;
    }
    assert m.Keys == GOVERNED_ASSETS;
  }

  /**
   A prerelease draft that was not made by this command passes every guard of a publish, although
   the readback that follows refuses a prerelease: the release is published and reported as blocked.
   */
  lemma PrereleaseDraftPassesGuard(h: Hash, s: Store, q: Request)
    requires q.op.Publish? && q.op.releaseId in s.releases && Guard(h, s, q)
    ensures var s' := s.(releases := s.releases[q.op.releaseId := s.releases[q.op.releaseId].(prerelease := true)]);
            && Guard(h, s', q) && PublishesPrerelease(s', q)
            && !Applied(h, s', q, "").releases[q.op.releaseId].draft
  {
  }
}
