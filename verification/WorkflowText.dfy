/** The string operations the workflow scanner uses, and what they do to text laid out by hand. */
module WorkflowText {
  import opened Basics

  predicate IsWord(c: char) {
    'a' <= c <= 'z' || 'A' <= c <= 'Z' || '0' <= c <= '9' || c == '_'
  }

  lemma WordIff(c: char)
    ensures IsWord(c) <==> var n := c as int; 48 <= n <= 57 || 65 <= n <= 90 || n == 95 || 97 <= n <= 122
  {
  }

  function Strip(s: string): string {
    StripRight(StripLeft(s))
  }

  /** The number of leading blanks. */
  function Indent(s: string): nat {
    if s != "" && s[0] == ' ' then 1 + Indent(s[1..]) else 0
  }

  function Blanks(n: nat): string {
    if n == 0 then "" else " " + Blanks(n - 1)
  }

  /** What stands before and after the first colon. */
  function Partition(s: string): Option<(string, string)> {
    if s == "" then None
    else if s[0] == ':' then Some(("", s[1..]))
    else
      var r := Partition(s[1..]);
      if r.None? then None else Some(([s[0]] + r.value.0, r.value.1))
  }

  /** `*` or `&` followed by a word character. */
  predicate StartsReference(s: string) {
    |s| >= 2 && (s[0] == '*' || s[0] == '&') && IsWord(s[1])
  }

  /** A colon, then at least one space, then a reference, anywhere in the text. */
  predicate RefersAfterColon(s: string) {
    && s != ""
    && ((s[0] == ':' && |s| >= 2 && IsSpace(s[1]) && StartsReference(StripLeft(s[1..]))) || RefersAfterColon(s[1..]))
  }

  /** A YAML alias, anchor or merge key, which the scanner refuses. */
  predicate IsAlias(body: string) {
    || "<<:" <= body
    || ("- " <= body && StartsReference(body[2..]))
    || RefersAfterColon(body)
  }

  /** At `i` a colon, then only spaces and at least one, and at `k` a reference. */
  predicate RefersAt(s: string, i: nat, k: nat) {
    && i + 1 < k < |s| && s[i] == ':' && (forall m | i < m < k :: IsSpace(s[m]))
    && k + 1 < |s| && (s[k] == '*' || s[k] == '&') && IsWord(s[k + 1])
  }

  lemma HeadRefers(s: string)
    requires |s| >= 2 && s[0] == ':' && IsSpace(s[1])
    ensures StartsReference(StripLeft(s[1..])) <==> exists k: nat :: RefersAt(s, 0, k)
  {
    var n := StripLeftIs(s[1..]);
    assert forall m | 1 <= m < |s| :: s[1..][m - 1] == s[m];
    if k: nat :| RefersAt(s, 0, k) {
      assert !IsSpace(s[k]);
      assert n + 1 == k;
    }
    if StartsReference(StripLeft(s[1..])) {
      assert RefersAt(s, 0, n + 1);
    }
  }

  lemma {:induction false} RefersIff(s: string)
    ensures RefersAfterColon(s) <==> exists i: nat, k: nat :: RefersAt(s, i, k)
  {
    if s != "" {
      RefersIff(s[1..]);
      if |s| >= 2 && s[0] == ':' && IsSpace(s[1]) {
        HeadRefers(s);
      }
      if i: nat, k: nat :| RefersAt(s[1..], i, k) {
        assert forall m | 1 <= m < |s| :: s[1..][m - 1] == s[m];
        assert RefersAt(s, i + 1, k + 1);
      }
      if i: nat, k: nat :| RefersAt(s, i, k) {
        if i == 0 {
          assert IsSpace(s[1]);
        } else {
          assert forall m | 1 <= m < |s| :: s[1..][m - 1] == s[m];
          assert RefersAt(s[1..], i - 1, k - 1);
        }
      }
    }
  }

  /** A merge key, an alias or anchor as a list item, or one behind a colon and spaces; nothing else is refused. */
  lemma AliasIff(s: string)
    ensures IsAlias(s) <==>
            || (|s| >= 3 && s[..3] == "<<:")
            || (|s| >= 4 && (s[..3] == "- *" || s[..3] == "- &") && IsWord(s[3]))
            || exists i: nat, k: nat :: RefersAt(s, i, k)
  {
    RefersIff(s);
    assert |s| >= 3 ==> s[..3] == [s[0], s[1], s[2]];
  }

  // ----- Text laid out by hand -----

  /** Nothing to strip at either end. */
  predicate Trimmed(s: string) {
    s != "" ==> !IsSpace(s[0]) && !IsSpace(s[|s| - 1])
  }

  /** The visible part of a significant line. */
  predicate IsBody(s: string) {
    s != "" && Trimmed(s) && s[0] != '#' && '\t' !in s && !IsAlias(s)
  }

  lemma {:induction false} LaidOut(n: nat, body: string)
    requires body != "" && Trimmed(body)
    ensures Strip(Blanks(n) + body) == body && Indent(Blanks(n) + body) == n
  {
    if n == 0 {
      assert Blanks(0) + body == body;
    } else {
      LaidOut(n - 1, body);
      assert (Blanks(n) + body)[1..] == Blanks(n - 1) + body;
    }
  }

  predicate IsKey(s: string) {
    s != "" && Trimmed(s) && ':' !in s
  }

  /** `key: value`, or `key:` when the value is empty. */
  function Pair(key: string, value: string): string {
    if value == "" then key + ":" else key + ": " + value
  }

  lemma {:induction false} PartitionAt(key: string, rest: string)
    requires ':' !in key
    ensures Partition(key + ":" + rest) == Some((key, rest))
  {
    var s := key + ":" + rest;
    if key == "" {
      assert s[1..] == rest;
    } else {
      assert s[1..] == key[1..] + ":" + rest;
      PartitionAt(key[1..], rest);
      assert key == [key[0]] + key[1..];
    }
  }

  /** A pair is taken apart into its key and its value. */
  lemma PairParts(key: string, value: string)
    requires IsKey(key) && Trimmed(value)
    ensures Partition(Pair(key, value)).Some?
    ensures Strip(Partition(Pair(key, value)).value.0) == key && Strip(Partition(Pair(key, value)).value.1) == value
  {
    assert Strip(key) == key;
    if value == "" {
      assert Pair(key, value) == key + ":" + "";
      PartitionAt(key, "");
    } else {
      assert Pair(key, value) == key + ":" + (" " + value);
      PartitionAt(key, " " + value);
      LaidOut(1, value);
      assert Blanks(1) == " " + Blanks(0) == " ";
    }
  }
}
