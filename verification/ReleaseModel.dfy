/**
 The remote side of a governed release: the tags and releases a repository holds, what one
 invocation of the release command may ask for, when it is allowed, and what it changes.
 */
module ReleaseModel {
  import opened Basics

  type Oid = string
  type Bytes = seq<bv8>
  type Hash = Bytes -> string

  const TAG_PREFIX := "mac-v"
  const REF_PREFIX := "refs/tags/"
  const GOVERNED_ASSETS: set<string> := {"Soyeht.dmg", "appcast.xml"}

  // ----- Tags, releases and assets -----

  datatype ObjectKind = Commit | Tag

  /** An annotated tag object: its name, its message and the object it points to. */
  datatype TagObject = TagObject(tag: string, message: string, kind: ObjectKind, target: Oid)

  datatype RefTarget = RefTarget(kind: ObjectKind, oid: Oid)

  /** The digest the server lists for an asset: `sha256:` followed by hex digits, or not that. */
  datatype Digest = Sha256(hex: string) | NoSha256

  datatype Asset = Asset(id: nat, name: string, size: int, digest: Digest, uploaded: bool)

  datatype Release = Release(tag: string, name: string, body: string, draft: bool, prerelease: bool,
                             assets: seq<Asset>)
  {
    ghost predicate AssetIdsBelow(n: nat) {
      forall i | 0 <= i < |assets| :: assets[i].id < n
    }
  }

  datatype Store = Store(tagObjects: map<Oid, TagObject>, tagRefs: map<string, RefTarget>,
                         releases: map<nat, Release>, nextId: nat)
  {
    /** No release, draft or published, uses the tag. */
    predicate ReleaseAbsent(tag: string) {
      forall id | id in releases :: releases[id].tag != tag
    }

    predicate TagAbsent(tag: string) {
      tag !in tagRefs && ReleaseAbsent(tag)
    }

    /** A tag object created now may get the id `oid`: it is new, or the same content has it already. */
    predicate Admits(c: Common, oid: Oid) {
      oid in tagObjects ==> tagObjects[oid] == c.GovernedTag()
    }

    /** The ref of the tag names the annotated object `oid`, which carries the governed content. */
    predicate TagBound(c: Common, oid: Oid) {
      && c.Tag() in tagRefs && tagRefs[c.Tag()] == RefTarget(Tag, oid)
      && oid in tagObjects && tagObjects[oid] == c.GovernedTag()
    }

    /** Release and asset ids are handed out in increasing order. */
    ghost predicate IdsBelowNext() {
      forall id | id in releases :: id < nextId && releases[id].AssetIdsBelow(nextId)
    }
  }

  datatype Expectation = Expectation(name: string, size: int, sha256: string)

  predicate Listable(a: Asset) {
    a.digest.Sha256? && a.uploaded && a.size > 0
  }

  function AsExpectation(a: Asset): Expectation
    requires Listable(a)
  {
    Expectation(a.name, a.size, a.digest.hex)
  }

  /** The asset listing of a release by name, unless a name repeats or an asset is not listable. */
  function RemoteAssets(assets: seq<Asset>): Option<map<string, Expectation>> {
    if assets == [] then Some(map[])
    else
      var n := |assets| - 1;
      var before := RemoteAssets(assets[..n]);
      if before.None? || assets[n].name in before.value || !Listable(assets[n]) then None
      else Some(before.value[assets[n].name := AsExpectation(assets[n])])
  }

  ghost predicate AllListed(m: map<string, Expectation>, assets: seq<Asset>) {
    |m| == |assets| && forall i | 0 <= i < |assets| :: Listed(m, assets[i])
  }

  /** The asset is fully uploaded, not empty and has a SHA-256, and the listing says so. */
  predicate Listed(m: map<string, Expectation>, a: Asset) {
    && a.uploaded && a.size >= 1 && a.digest.Sha256?
    && a.name in m && m[a.name] == Expectation(a.name, a.size, a.digest.hex)
  }

  ghost predicate DistinctNames(assets: seq<Asset>) {
    forall i, j | 0 <= i < j < |assets| :: assets[i].name != assets[j].name
  }

  lemma ListsOneMore(m: map<string, Expectation>, assets: seq<Asset>, a: Asset)
    requires AllListed(m, assets) && DistinctNames(assets) && Listable(a) && a.name !in m
    ensures AllListed(m[a.name := AsExpectation(a)], assets + [a]) && DistinctNames(assets + [a])
  {
    var m' := m[a.name := AsExpectation(a)];
    forall i | 0 <= i < |assets|
      ensures Listed(m', assets[i]) && assets[i].name != a.name
    {
      assert Listed(m, assets[i]);
    }
  }

  /** A listing that exists has one entry per asset, and the names are distinct. */
  lemma {:induction false} ListingIsExact(assets: seq<Asset>)
    requires RemoteAssets(assets).Some?
    ensures AllListed(RemoteAssets(assets).value, assets) && DistinctNames(assets)
  {
    if assets != [] {
      var n := |assets| - 1;
      ListingIsExact(assets[..n]);
      ListsOneMore(RemoteAssets(assets[..n]).value, assets[..n], assets[n]);
      assert assets == assets[..n] + [assets[n]];
    }
  }

  lemma {:induction false} NameComesFrom(assets: seq<Asset>, name: string) returns (i: nat)
    requires RemoteAssets(assets).Some? && name in RemoteAssets(assets).value
    ensures i < |assets| && assets[i].name == name
  {
    var n := |assets| - 1;
    if assets[n].name == name {
      i := n;
    } else {
      i := NameComesFrom(assets[..n], name);
    }
  }

  /** Listable assets with distinct names always have a listing. */
  lemma {:induction false} ListingExists(assets: seq<Asset>)
    requires DistinctNames(assets) && forall i | 0 <= i < |assets| :: Listable(assets[i])
    ensures RemoteAssets(assets).Some?
  {
    if assets != [] {
      var n := |assets| - 1;
      ListingExists(assets[..n]);
      if assets[n].name in RemoteAssets(assets[..n]).value {
        var i := NameComesFrom(assets[..n], assets[n].name);
        assert false;
      }
    }
  }

  // ----- Requests -----

  datatype Common = Common(tagRef: string, version: string, targetOid: Oid, expectedMain: Oid)
  {
    predicate WellFormed() {
      tagRef == REF_PREFIX + Tag() && IsFullOid(targetOid) && IsFullOid(expectedMain)
    }

    function Tag(): string {
      TAG_PREFIX + version
    }

    function Message(): string {
      "Soyeht " + version + "\n"
    }

    function GovernedTag(): TagObject {
      TagObject(Tag(), Message(), ObjectKind.Commit, targetOid)
    }
  }

  datatype Operation =
    | TagObjectCreate
    | TagRefCreate(tagOid: Oid)
    | DraftCreate(tagOid: Oid, title: string)
    | AssetUpload(tagOid: Oid, releaseId: nat, asset: Expectation, file: Option<Bytes>)
    | Publish(tagOid: Oid, releaseId: nat, manifest: seq<Expectation>)

  datatype Request = Request(common: Common, op: Operation, payload: string)
  {
    predicate WellFormed() {
      common.WellFormed() && (!op.TagObjectCreate? ==> IsFullOid(op.tagOid))
    }
  }

  lemma WellFormedIff(q: Request)
    ensures q.WellFormed() <==>
            && q.common.tagRef == "refs/tags/mac-v" + q.common.version
            && IsFullOid(q.common.targetOid) && IsFullOid(q.common.expectedMain)
            && (q.op.TagObjectCreate? || IsFullOid(q.op.tagOid))
  {
    assert "refs/tags/" + ("mac-v" + q.common.version) == "refs/tags/mac-v" + q.common.version;
  }

  /** An expectation the command accepts: a governed name, a positive size, a SHA-256 in hex. */
  predicate Acceptable(e: Expectation) {
    && e.name in GOVERNED_ASSETS && e.size > 0 && |e.sha256| == 64
    && forall i | 0 <= i < 64 :: '0' <= e.sha256[i] <= '9' || 'a' <= e.sha256[i] <= 'f'
  }

  lemma AcceptableIff(e: Expectation)
    ensures Acceptable(e) <==>
            && (e.name == "Soyeht.dmg" || e.name == "appcast.xml") && e.size >= 1
            && |e.sha256| == 64 && forall i | 0 <= i < |e.sha256| :: e.sha256[i] in "0123456789abcdef"
  {
    forall i | 0 <= i < |e.sha256|
      ensures e.sha256[i] in "0123456789abcdef" <==> '0' <= e.sha256[i] <= '9' || 'a' <= e.sha256[i] <= 'f'
    {
      HexDigitIff(e.sha256[i]);
    }
  }

  /** The publish manifest by name, unless an entry is unacceptable or a name repeats. */
  function ManifestMap(manifest: seq<Expectation>): Option<map<string, Expectation>> {
    if manifest == [] then Some(map[])
    else
      var n := |manifest| - 1;
      var before := ManifestMap(manifest[..n]);
      if before.None? || !Acceptable(manifest[n]) || manifest[n].name in before.value then None
      else Some(before.value[manifest[n].name := manifest[n]])
  }

  /** The assets are the lines of the manifest, one asset for each line, under distinct names. */
  ghost predicate Carries(assets: seq<Asset>, manifest: seq<Expectation>) {
    && |assets| == |manifest| && DistinctNames(assets)
    && forall i | 0 <= i < |manifest| :: Held(assets, manifest[i])
  }

  /** One of the assets is fully uploaded with that name, size and digest. */
  ghost predicate Held(assets: seq<Asset>, e: Expectation) {
    exists j :: 0 <= j < |assets| && Is(assets[j], e)
  }

  predicate Is(a: Asset, e: Expectation) {
    a.uploaded && a.name == e.name && a.size == e.size && a.digest == Sha256(e.sha256)
  }

  /** A manifest that has a map is a list of acceptable lines with distinct names, each mapped to itself. */
  lemma {:induction false} ManifestIsExact(manifest: seq<Expectation>)
    requires ManifestMap(manifest).Some?
    ensures |ManifestMap(manifest).value| == |manifest|
    ensures forall i | 0 <= i < |manifest| :: MapsToItself(ManifestMap(manifest).value, manifest[i])
    ensures forall i, j | 0 <= i < j < |manifest| :: manifest[i].name != manifest[j].name
  {
    if manifest != [] {
      var n := |manifest| - 1;
      ManifestIsExact(manifest[..n]);
      var before := ManifestMap(manifest[..n]).value;
      forall i | 0 <= i < n
        ensures MapsToItself(before[manifest[n].name := manifest[n]], manifest[i])
        ensures manifest[i].name != manifest[n].name
      {
        assert MapsToItself(before, manifest[..n][i]);
      }
      assert forall i | 0 <= i < n :: manifest[..n][i] == manifest[i];
    }
  }

  predicate MapsToItself(m: map<string, Expectation>, e: Expectation) {
    Acceptable(e) && e.name in m && m[e.name] == e
  }

  /** Conversely, acceptable lines with distinct names always have a map. */
  lemma {:induction false} ManifestExists(manifest: seq<Expectation>)
    requires forall i | 0 <= i < |manifest| :: Acceptable(manifest[i])
    requires forall i, j | 0 <= i < j < |manifest| :: manifest[i].name != manifest[j].name
    ensures ManifestMap(manifest).Some?
    ensures forall name | name in ManifestMap(manifest).value :: NamedIn(manifest, name)
  {
    if manifest != [] {
      var n := |manifest| - 1;
      var init := manifest[..n];
      ManifestExists(init);
      assert !NamedIn(init, manifest[n].name);
      forall name | name in ManifestMap(init).value
        ensures NamedIn(manifest, name)
      {
        var i :| 0 <= i < n && init[i].name == name;
        assert manifest[i].name == name;
      }
    }
  }

  ghost predicate NamedIn(manifest: seq<Expectation>, name: string) {
    exists i :: 0 <= i < |manifest| && manifest[i].name == name
  }

  /** Assets whose listing is the manifest's map are the lines of the manifest. */
  lemma SameMapCarries(assets: seq<Asset>, manifest: seq<Expectation>)
    requires ManifestMap(manifest).Some? && RemoteAssets(assets) == ManifestMap(manifest)
    ensures Carries(assets, manifest)
  {
    ListingIsExact(assets);
    ManifestIsExact(manifest);
    forall i | 0 <= i < |manifest|
      ensures Held(assets, manifest[i])
    {
      assert MapsToItself(ManifestMap(manifest).value, manifest[i]);
      var j := NameComesFrom(assets, manifest[i].name);
      assert Listed(RemoteAssets(assets).value, assets[j]);
      assert Is(assets[j], manifest[i]);
    }
  }

  predicate FileMatches(h: Hash, e: Expectation, file: Option<Bytes>) {
    file.Some? && |file.value| == e.size && h(file.value) == e.sha256
  }

  // ----- What an invocation may do -----

  /** The draft that an upload or a publish works on. */
  predicate DraftOpen(s: Store, c: Common, id: nat) {
    id in s.releases && s.releases[id].tag == c.Tag() && s.releases[id].draft
  }

  /** Everything about tags and releases that must hold before the mutation is sent. */
  ghost predicate Guard(h: Hash, s: Store, q: Request) {
    var c := q.common;
    match q.op
    case TagObjectCreate =>
      q.payload == c.Message() && s.TagAbsent(c.Tag())
    case TagRefCreate(oid) =>
      && q.payload == c.Message() && s.TagAbsent(c.Tag())
      && oid in s.tagObjects && s.tagObjects[oid] == c.GovernedTag()
    case DraftCreate(oid, title) =>
      s.TagBound(c, oid) && q.payload != "" && title != "" && s.ReleaseAbsent(c.Tag())
    case AssetUpload(oid, id, e, file) =>
      && s.TagBound(c, oid) && q.payload == "" && DraftOpen(s, c, id)
      && Acceptable(e) && FileMatches(h, e, file)
      && RemoteAssets(s.releases[id].assets).Some? && e.name !in RemoteAssets(s.releases[id].assets).value
    case Publish(oid, id, manifest) =>
      && s.TagBound(c, oid) && q.payload == "" && DraftOpen(s, c, id)
      && ManifestMap(manifest).Some? && ManifestMap(manifest).value.Keys == GOVERNED_ASSETS
      && RemoteAssets(s.releases[id].assets) == ManifestMap(manifest)
  }

  /** What must hold of tags and releases before any mutation, in words of the repository. */
  lemma GuardMeans(h: Hash, s: Store, q: Request)
    requires Guard(h, s, q)
    ensures var tag, message := "mac-v" + q.common.version, "Soyeht " + q.common.version + "\n";
            if q.op.TagObjectCreate? || q.op.TagRefCreate? then
              q.payload == message && tag !in s.tagRefs && forall id | id in s.releases :: s.releases[id].tag != tag
            else
              && tag in s.tagRefs && s.tagRefs[tag] == RefTarget(Tag, q.op.tagOid)
              && if q.op.DraftCreate? then
                   q.payload != "" && q.op.title != "" && forall id | id in s.releases :: s.releases[id].tag != tag
                 else
                   && q.payload == "" && q.op.releaseId in s.releases
                   && s.releases[q.op.releaseId].tag == tag && s.releases[q.op.releaseId].draft
    ensures !q.op.TagObjectCreate? ==>
              && q.op.tagOid in s.tagObjects
              && s.tagObjects[q.op.tagOid] == TagObject("mac-v" + q.common.version,
                                                        "Soyeht " + q.common.version + "\n",
                                                        ObjectKind.Commit, q.common.targetOid)
  {
  }

  /** The guard of a publish does not look at the prerelease flag; its readback does. */
  predicate PublishesPrerelease(s: Store, q: Request) {
    q.op.Publish? && q.op.releaseId in s.releases && s.releases[q.op.releaseId].prerelease
  }

  /** The request names a release that exists and, for an upload, comes with the file. */
  predicate Applicable(s: Store, q: Request) {
    && (q.op.AssetUpload? || q.op.Publish? ==> q.op.releaseId in s.releases)
    && (q.op.AssetUpload? ==> q.op.file.Some?)
  }

  /**
   The store after the mutation took effect; `oid` names a newly created tag object. The server lists
   the size and the digest of the bytes it was sent, whatever was announced.
   */
  function Applied(h: Hash, s: Store, q: Request, oid: Oid): Store
    requires Applicable(s, q)
  {
    var c := q.common;
    match q.op
    case TagObjectCreate =>
      s.(tagObjects := s.tagObjects[oid := TagObject(c.Tag(), q.payload, ObjectKind.Commit, c.targetOid)])
    case TagRefCreate(named) =>
      s.(tagRefs := s.tagRefs[c.Tag() := RefTarget(if named in s.tagObjects then Tag else ObjectKind.Commit, named)])
    case DraftCreate(_, title) =>
      s.(releases := s.releases[s.nextId := Release(c.Tag(), title, q.payload, true, false, [])],
         nextId := s.nextId + 1)
    case AssetUpload(_, id, e, file) =>
      WithAsset(s, id, Asset(s.nextId, e.name, |file.value|, Sha256(h(file.value)), true))
    case Publish(_, id, _) =>
      s.(releases := s.releases[id := s.releases[id].(draft := false)])
  }

  function WithAsset(s: Store, id: nat, a: Asset): Store
    requires id in s.releases
  {
    s.(releases := s.releases[id := s.releases[id].(assets := s.releases[id].assets + [a])],
       nextId := s.nextId + 1)
  }

  /** A mutation that was sent while its guard held, whether or not its reply arrived. */
  ghost predicate Mutated(h: Hash, s: Store, q: Request, s': Store) {
    && Guard(h, s, q)
    && ((exists oid: Oid :: (q.op.TagObjectCreate? ==> s.Admits(q.common, oid)) && s' == Applied(h, s, q, oid))
        // An upload cut off half way leaves an asset that is not fully uploaded.
        || (q.op.AssetUpload? && exists a: Asset :: a.id == s.nextId && !a.uploaded && a.name == q.op.asset.name
                                                    && s' == WithAsset(s, q.op.releaseId, a)))
  }

  /** Everything one invocation can do to tags and releases: nothing, or its one guarded mutation. */
  ghost predicate Step(h: Hash, s: Store, q: Request, s': Store) {
    s' == s || Mutated(h, s, q, s')
  }
}
