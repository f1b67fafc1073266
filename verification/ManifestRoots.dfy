/** The directories of a listing that hold a manifest, in the order in which they are tried. */
module ManifestRoots {
  import opened Basics
  import opened Order

  const MANIFEST_NAMES: set<string> := {"Cargo.toml", "package.json", "pyproject.toml", "go.mod"}

  /** What stands before and after the last slash. */
  function LastSlash(s: string): Option<(string, string)> {
    if s == "" then None
    else
      var n := |s| - 1;
      if s[n] == '/' then Some((s[..n], ""))
      else
        var r := LastSlash(s[..n]);
        if r.None? then None else Some((r.value.0, r.value.1 + [s[n]]))
  }

  lemma {:induction false} LastSlashIff(s: string, head: string, name: string)
    ensures LastSlash(s) == Some((head, name)) <==> s == head + "/" + name && '/' !in name
  {
    if s != "" {
      var n := |s| - 1;
      if name == "" {
        assert s == head + "/" + name ==> s[n] == '/' && s[..n] == head;
        assert s[n] == '/' ==> s == s[..n] + "/" + "";
      } else {
        var m := |name| - 1;
        LastSlashIff(s[..n], head, name[..m]);
        assert head + "/" + name == (head + "/" + name[..m]) + [name[m]];
        assert s == s[..n] + [s[n]] && name == name[..m] + [name[m]];
        assert s == head + "/" + name ==> s[n] == name[m] && s[..n] == head + "/" + name[..m];
      }
    }
  }

  /** The line of a listing is a manifest in the directory `d`, which is not the top of the repository. */
  predicate IsManifestIn(d: string, line: string) {
    && d != "" && d + "/" <= line && line[|d| + 1..] in MANIFEST_NAMES
  }

  ghost predicate HoldsManifest(d: string, listing: seq<string>) {
    exists i :: 0 <= i < |listing| && IsManifestIn(d, listing[i])
  }

  /** Longer directories come first, and those of one length by name. */
  predicate Before(a: string, b: string) {
    |a| > |b| || (|a| == |b| && Less(a, b))
  }

  ghost predicate Sorted(roots: seq<string>) {
    forall i, j | 0 <= i < j < |roots| :: Before(roots[i], roots[j])
  }

  ghost predicate LongestFirst(roots: seq<string>) {
    forall i, j | 0 <= i < j < |roots| :: |roots[i]| >= |roots[j]|
  }

  function Place(x: string, s: seq<string>): seq<string> {
    if s == [] then [x]
    else if x == s[0] then s
    else if Before(x, s[0]) then [x] + s
    else [s[0]] + Place(x, s[1..])
  }

  lemma BeforeTransitive(a: string, b: string, c: string)
    requires Before(a, b) && Before(b, c)
    ensures Before(a, c)
  {
    if |a| == |b| == |c| {
      LessTransitive(a, b, c);
    }
  }

  lemma {:induction false} PlaceKeepsSorted(x: string, s: seq<string>)
    requires Sorted(s)
    ensures Sorted(Place(x, s)) && forall y :: y in Place(x, s) <==> y == x || y in s
  {
    if s != [] && x != s[0] {
      LessTotal(x, s[0]);
      if Before(x, s[0]) {
        forall j | 0 < j < |s|
          ensures Before(x, s[j])
        {
          BeforeTransitive(x, s[0], s[j]);
        }
      } else {
        PlaceKeepsSorted(x, s[1..]);
        var t := Place(x, s[1..]);
        forall j | 0 <= j < |t|
          ensures Before(s[0], t[j])
        {
          assert t[j] in t;
        }
        assert forall y :: y in s <==> y == s[0] || y in s[1..];
      }
    }
  }

  lemma ManifestLineIff(d: string, line: string)
    ensures IsManifestIn(d, line) <==>
            LastSlash(line).Some? && LastSlash(line).value.1 in MANIFEST_NAMES
            && LastSlash(line).value.0 == d && d != ""
  {
    assert forall name | name in MANIFEST_NAMES :: '/' !in name;
    if LastSlash(line).Some? {
      var (head, name) := LastSlash(line).value;
      LastSlashIff(line, head, name);
      assert line[|head| + 1..] == name && head + "/" <= line;
    }
    if IsManifestIn(d, line) {
      var name := line[|d| + 1..];
      assert line == d + "/" + name;
      LastSlashIff(line, d, name);
    }
  }

  /** Exactly the directories that hold a manifest, each once, longest first. */
  method FindRoots(listing: seq<string>) returns (roots: seq<string>)
    ensures Sorted(roots) && LongestFirst(roots)
    ensures forall d :: d in roots <==> HoldsManifest(d, listing)
  {
    roots := [];
    for k := 0 to |listing|
      invariant Sorted(roots)
      invariant forall d :: d in roots <==> exists i :: 0 <= i < k && IsManifestIn(d, listing[i])
    {
      var cut := LastSlash(listing[k]);
      forall d
        ensures IsManifestIn(d, listing[k]) <==>
                cut.Some? && cut.value.1 in MANIFEST_NAMES && cut.value.0 == d && d != ""
      {
        ManifestLineIff(d, listing[k]);
      }
      if cut.Some? && cut.value.1 in MANIFEST_NAMES && cut.value.0 != "" {
        PlaceKeepsSorted(cut.value.0, roots);
        roots := Place(cut.value.0, roots);
      }
    }
  }
}
