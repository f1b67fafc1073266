/** What the release command does on a quiet server: one whole release, and the one release it misjudges. */
module ReleasePipeline {
  import opened Basics
  import opened ReleaseModel
  import opened ReleaseRuns
  import opened ReleaseCommand

  /** A quiet server stays quiet, later and after any mutation the command can make. */
  lemma QuietStays(h: Hash, oracle: Oracle, n: nat, m: nat, s: Store, q: Request, oid: Oid)
    requires n <= m && Quiet(oracle, n, s, q.common)
    requires Applicable(s, q) && (q.op.TagObjectCreate? ==> q.payload == q.common.Message())
    ensures Quiet(oracle, m, Applied(h, s, q, oid), q.common)
  {
    var s' := Applied(h, s, q, oid);
    forall k | m <= k
      ensures QuietMoment(oracle, m, k, s', q.common)
    {
      assert QuietMoment(oracle, n, m, s, q.common) && QuietMoment(oracle, n, k, s, q.common);
    }
  }

  /**
   An allowed publication of a prerelease draft, on a server where nothing fails: the release is
   published and the invocation reports that it was blocked.
   */
  lemma PublishedButBlocked(h: Hash, oracle: Oracle, n: nat, to: nat, q: Request, s: Store, s': Store, writes: int,
                            sentAt: nat, r: Exit)
    requires Promise(h, oracle, n, to, q, s, s', writes, sentAt, r)
    requires Allowed(h, oracle, n, q, s) && Quiet(oracle, n, s, q.common) && PublishesPrerelease(s, q)
    ensures r == Blocked && writes == 1 && IsPublished(s', q.op.releaseId) && Sealed(s', q)
  {
    assert QuietMoment(oracle, n, sentAt, s, q.common);
    PublishSeals(h, s, q, s');
  }

  /** One invocation that is allowed, on a quiet server: it mutates, is confirmed, and leaves the server quiet. */
  method Invoke(server: Server, q: Request) returns (r: Exit)
    requires Allowed(server.sha256, server.oracle, server.calls, q, server.store)
    requires Quiet(server.oracle, server.calls, server.store, q.common) && !PublishesPrerelease(server.store, q)
    modifies server
    ensures server.writes == old(server.writes) + 1 && Completed(server.sha256, old(server.store), q, server.store, r)
    ensures Quiet(server.oracle, server.calls, server.store, q.common)
    ensures CommonAt(server.oracle, server.calls, q.common)
  {
    ghost var n, s := server.calls, server.store;
    r := server.ExecuteGovernedRelease(q);
    assert QuietMoment(server.oracle, n, server.sentAt, s, q.common);
    QuietKeepsCommon(server.oracle, n, server.calls, s, q.common);
    QuietStays(server.sha256, server.oracle, n, server.calls, s, q, r.oid);
  }

  /** The artifacts of one release: what is expected of each file, and the file. */
  datatype Artifacts = Artifacts(dmg: Expectation, dmgFile: Bytes, xml: Expectation, xmlFile: Bytes)
  {
    predicate Match(h: Hash) {
      && Acceptable(dmg) && FileMatches(h, dmg, Some(dmgFile)) && dmg.name == "Soyeht.dmg"
      && Acceptable(xml) && FileMatches(h, xml, Some(xmlFile)) && xml.name == "appcast.xml"
    }
  }

  /**
   A whole release by six invocations, each using the ids on the receipts before it. From a store
   without the tag, on a quiet server, all six return a receipt and the release ends up sealed.
   */
  method Release(server: Server, c: Common, title: string, body: string, a: Artifacts)
    returns (oid: Oid, id: nat, receipts: seq<Exit>)
    requires c.WellFormed() && CommonAt(server.oracle, server.calls, c)
    requires Quiet(server.oracle, server.calls, server.store, c) && server.store.TagAbsent(c.Tag())
    requires title != "" && body != "" && a.Match(server.sha256)
    modifies server
    ensures |receipts| == 6 && forall i | 0 <= i < 6 :: receipts[i].Receipt?
    ensures server.writes == old(server.writes) + 6
    ensures Sealed(server.store, Request(c, Publish(oid, id, [a.dmg, a.xml]), ""))
  {
    var tagged;
    oid, tagged := CreateTag(server, c);
    ghost var s := server.store;
    var draft := Invoke(server, Request(c, DraftCreate(oid, title), body));
    id := draft.id;
    ghost var s' := DraftStage(server.sha256, s, c, oid, title, body);
    var filled := Fill(server, c, oid, id, a);
    receipts := tagged + [draft] + filled;
  }

  method CreateTag(server: Server, c: Common) returns (oid: Oid, receipts: seq<Exit>)
    requires c.WellFormed() && CommonAt(server.oracle, server.calls, c)
    requires Quiet(server.oracle, server.calls, server.store, c) && server.store.TagAbsent(c.Tag())
    modifies server
    ensures |receipts| == 2 && forall i | 0 <= i < 2 :: receipts[i].Receipt?
    ensures server.writes == old(server.writes) + 2 && IsFullOid(oid)
    ensures Quiet(server.oracle, server.calls, server.store, c) && CommonAt(server.oracle, server.calls, c)
    ensures server.store.TagBound(c, oid) && server.store.ReleaseAbsent(c.Tag())
  {
    ghost var s := server.store;
    var created := Invoke(server, Request(c, TagObjectCreate, c.Message()));
    oid := created.oid;
    ghost var s1, s2 := TagStage(server.sha256, s, c, oid);
    var bound := Invoke(server, Request(c, TagRefCreate(oid), c.Message()));
    receipts := [created, bound];
  }

  /** Both uploads and the publication. */
  method Fill(server: Server, c: Common, oid: Oid, id: nat, a: Artifacts) returns (receipts: seq<Exit>)
    requires c.WellFormed() && IsFullOid(oid) && CommonAt(server.oracle, server.calls, c)
    requires Quiet(server.oracle, server.calls, server.store, c) && Collecting(server.store, c, oid, id, map[])
    requires a.Match(server.sha256)
    modifies server
    ensures |receipts| == 3 && forall i | 0 <= i < 3 :: receipts[i].Receipt?
    ensures server.writes == old(server.writes) + 3
    ensures Sealed(server.store, Request(c, Publish(oid, id, [a.dmg, a.xml]), ""))
  {
    var h := server.sha256;
    assert a.dmg.name != a.xml.name by {
      assert |a.dmg.name| != |a.xml.name|;
    }
    ghost var s1 := UploadStage(h, server.store, c, oid, id, a.dmg, a.dmgFile, map[]);
    var first := Invoke(server, Request(c, AssetUpload(oid, id, a.dmg, Some(a.dmgFile)), ""));
    ghost var s2 := UploadStage(h, server.store, c, oid, id, a.xml, a.xmlFile, map[a.dmg.name := a.dmg]);
    var second := Invoke(server, Request(c, AssetUpload(oid, id, a.xml, Some(a.xmlFile)), ""));
    ghost var s3 := PublishStage(h, server.store, c, oid, id, a.dmg, a.xml);
    var third := Invoke(server, Request(c, Publish(oid, id, [a.dmg, a.xml]), ""));
    receipts := [first, second, third];
  }
}
