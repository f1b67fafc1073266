/**
 The build script's printer for Rust string literals, against a reader for them.

 The reader follows the Rust Reference, chapter "Tokens": a raw string literal ends at the first
 quote followed by as many hashes as stand before its opening quote, at most 255 of them; neither
 form of literal may contain a bare carriage return; and a CR LF pair is read as LF before anything
 else. What follows a literal is left as it is: a suffix is not part of the token here.
 */
module StringLiteral {
  import opened Basics

  /** A literal's value, and the source text that follows the literal. */
  type Token = Option<(string, string)>

  const MAX_HASHES: nat := 255

  // ----- The reader -----

  /** The number of hashes at the front. */
  function Hashes(s: string): nat {
    if s != "" && s[0] == '#' then 1 + Hashes(s[1..]) else 0
  }

  lemma {:induction false} HashesBound(s: string)
    ensures Hashes(s) <= |s|
  {
    if s != "" && s[0] == '#' {
      HashesBound(s[1..]);
    }
  }

  function Prefixed(c: char, t: Token): Token {
    if t.None? then None else Some(([c] + t.value.0, t.value.1))
  }

  /** Reads up to the first quote that is followed by `n` hashes. */
  function ReadRaw(s: string, n: nat): Token {
    if s == "" then None
    else if s[0] == '"' && Hashes(s[1..]) >= n then
      HashesBound(s[1..]);
      Some(("", s[1 + n..]))
    else Prefixed(s[0], ReadRaw(s[1..], n))
  }

  function Unescape(c: char): Option<char> {
    match c
    case 'n' => Some('\n')
    case 'r' => Some('\r')
    case 't' => Some('\t')
    case '0' => Some('\0')
    case '\\' => Some('\\')
    case '"' => Some('"')
    case '\'' => Some('\'')
    case _ => None
  }

  /** Reads up to the closing quote of an ordinary literal. */
  function ReadPlain(s: string): Token {
    if s == "" || s[0] == '\r' then None
    else if s[0] == '"' then Some(("", s[1..]))
    else if s[0] == '\\' then
      if |s| < 2 || Unescape(s[1]).None? then None else Prefixed(Unescape(s[1]).value, ReadPlain(s[2..]))
    else Prefixed(s[0], ReadPlain(s[1..]))
  }

  function LexRaw(s: string): Token {
    var n := Hashes(s);
    if n > MAX_HASHES || n >= |s| || s[n] != '"' then None
    else
      var t := ReadRaw(s[n + 1..], n);
      if t.Some? && '\r' !in t.value.0 then t else None
  }

  function Lex(s: string): Token {
    if s == "" then None
    else if s[0] == 'r' then LexRaw(s[1..])
    else if s[0] == '"' then ReadPlain(s[1..])
    else None
  }

  function Normalize(s: string): string {
    if s == "" then ""
    else if |s| >= 2 && s[0] == '\r' && s[1] == '\n' then Normalize(s[1..])
    else [s[0]] + Normalize(s[1..])
  }

  /** What the compiler makes of source text that begins with a literal. */
  function Compile(s: string): Token {
    Lex(Normalize(s))
  }

  // ----- The printer -----

  function Replace(s: string, c: char, sub: string): string {
    if s == "" then "" else (if s[0] == c then sub else [s[0]]) + Replace(s[1..], c, sub)
  }

  function EscapeStr(s: string): string {
    Replace(Replace(s, '\\', "\\\\"), '"', "\\\"")
  }

  function EscapeStrFull(s: string): string {
    Replace(Replace(Replace(Replace(EscapeStr(s), '\n', "\\n"), '\r', "\\r"), '\t', "\\t"), '\0', "\\0")
  }

  function Repeat(n: nat): string {
    if n == 0 then "" else "#" + Repeat(n - 1)
  }

  /** The longest run of hashes right after a quote; -1 when there is no quote. */
  function LongestRun(s: string): int {
    if s == "" then -1
    else
      var here, later := if s[0] == '"' then Hashes(s[1..]) else -1, LongestRun(s[1..]);
      if here > later then here else later
  }

  function CountHashes(s: string): nat {
    if LongestRun(s) < 0 then 0 else LongestRun(s)
  }

  function RawLiteral(n: nat, s: string): string {
    "r" + Repeat(n) + "\"" + s + "\"" + Repeat(n)
  }

  function Emit(s: string): string {
    if s == "" then "\"\""
    else if '"' !in s then RawLiteral(0, s)
    else if CountHashes(s) < 255 then RawLiteral(CountHashes(s) + 1, s)
    else "\"" + EscapeStrFull(s) + "\""
  }

  /** `n` is 0 or the run behind some quote before position `i`, and no such run is longer. */
  ghost predicate GreatestRunBefore(s: string, i: nat, n: nat)
    requires i <= |s|
  {
    && (forall k | 0 <= k < i && s[k] == '"' :: Hashes(s[k + 1..]) <= n)
    && (n > 0 ==> exists k :: 0 <= k < i && s[k] == '"' && Hashes(s[k + 1..]) == n)
  }

  lemma {:induction false} LongestRunMeans(s: string)
    ensures LongestRun(s) >= -1 && (LongestRun(s) >= 0 <==> '"' in s)
    ensures forall k | 0 <= k < |s| && s[k] == '"' :: Hashes(s[k + 1..]) <= LongestRun(s)
    ensures LongestRun(s) >= 0 ==> exists k :: 0 <= k < |s| && s[k] == '"' && Hashes(s[k + 1..]) == LongestRun(s)
  {
    if s != "" {
      LongestRunMeans(s[1..]);
      forall k | 0 <= k < |s| && s[k] == '"'
        ensures Hashes(s[k + 1..]) <= LongestRun(s)
      {
        if k > 0 {
          assert s[1..][k - 1] == '"' && s[1..][k..] == s[k + 1..];
        }
      }
      if LongestRun(s) >= 0 && LongestRun(s) == LongestRun(s[1..]) {
        var k :| 0 <= k < |s| - 1 && s[1..][k] == '"' && Hashes(s[1..][k + 1..]) == LongestRun(s);
        assert s[k + 1] == '"' && s[1..][k + 1..] == s[k + 2..];
      }
    }
  }

  lemma CountIsGreatest(s: string, n: nat)
    requires GreatestRunBefore(s, |s|, n)
    ensures n == CountHashes(s)
  {
    LongestRunMeans(s);
  }

  /** For each quote, count the hashes behind it; the greatest count is the result. */
  method CountMaxConsecutiveQuoteHashes(s: string) returns (max: nat)
    ensures max == CountHashes(s) && GreatestRunBefore(s, |s|, max)
  {
    max := 0;
    for i := 0 to |s|
      invariant GreatestRunBefore(s, i, max)
    {
      if s[i] == '"' {
        var n, j := 0, i + 1;
        while j < |s| && s[j] == '#'
          invariant i + 1 <= j <= |s| && n + Hashes(s[j..]) == Hashes(s[i + 1..])
        {
          assert s[j..][1..] == s[j + 1..];
          n, j := n + 1, j + 1;
        }
        if n > max {
          max := n;
        }
      }
    }
    CountIsGreatest(s, max);
  }

  // ----- Raw literals -----

  lemma {:induction false} HashesOfRepeat(n: nat, rest: string)
    requires rest == "" || rest[0] != '#'
    ensures |Repeat(n)| == n && Hashes(Repeat(n) + rest) == n
  {
    if n == 0 {
      assert Repeat(0) + rest == rest;
    } else {
      HashesOfRepeat(n - 1, rest);
      assert (Repeat(n) + rest)[1..] == Repeat(n - 1) + rest;
    }
  }

  lemma {:induction false} RepeatCloses(n: nat, rest: string)
    ensures |Repeat(n)| == n && Hashes(Repeat(n) + rest) >= n && '\r' !in Repeat(n)
  {
    if n > 0 {
      RepeatCloses(n - 1, rest);
      assert (Repeat(n) + rest)[1..] == Repeat(n - 1) + rest;
    }
  }

  lemma {:induction false} HashesStopAtQuote(s: string, tail: string)
    requires tail != "" && tail[0] == '"'
    ensures Hashes(s + tail) == Hashes(s)
  {
    if s == "" {
      assert s + tail == tail;
    } else {
      assert (s + tail)[1..] == s[1..] + tail;
      HashesStopAtQuote(s[1..], tail);
    }
  }

  /** Reading `s` back needs more hashes than any run behind a quote in `s`; otherwise it stops short. */
  lemma {:induction false} ReadRawIff(s: string, n: nat, rest: string)
    ensures var tail := "\"" + Repeat(n) + rest;
            if LongestRun(s) < n then ReadRaw(s + tail, n) == Some((s, rest))
            else ReadRaw(s + tail, n).Some? && |ReadRaw(s + tail, n).value.0| < |s|
  {
    var tail := "\"" + Repeat(n) + rest;
    RepeatCloses(n, rest);
    assert tail[1..] == Repeat(n) + rest && tail[1 + n..] == rest;
    if s == "" {
      assert s + tail == tail;
    } else {
      assert (s + tail)[1..] == s[1..] + tail;
      HashesStopAtQuote(s[1..], tail);
      ReadRawIff(s[1..], n, rest);
      assert s == [s[0]] + s[1..];
    }
  }

  /** A raw literal with `n` hashes is read back exactly when `n` is big enough and there is no CR. */
  lemma RawLiteralIff(s: string, n: nat, rest: string)
    requires n <= MAX_HASHES
    ensures Lex(RawLiteral(n, s) + rest) == Some((s, rest)) <==> LongestRun(s) < n && '\r' !in s
  {
    var tail := "\"" + Repeat(n) + rest;
    var src := RawLiteral(n, s) + rest;
    var body := "\"" + (s + tail);
    HashesOfRepeat(n, body);
    assert src[1..] == Repeat(n) + body;
    assert src[1..][n] == '"' && src[1..][n + 1..] == s + tail;
    ReadRawIff(s, n, rest);
  }

  // ----- Escaped literals -----

  /** How one character is escaped; control characters only in the full form. */
  function Escape(c: char, full: bool): string {
    if c == '\\' then "\\\\"
    else if c == '"' then "\\\""
    else if full && c == '\n' then "\\n"
    else if full && c == '\r' then "\\r"
    else if full && c == '\t' then "\\t"
    else if full && c == '\0' then "\\0"
    else [c]
  }

  /** Escaping in one pass over the string. */
  function OnePass(s: string, full: bool): string {
    if s == "" then "" else Escape(s[0], full) + OnePass(s[1..], full)
  }

  lemma {:induction false} ReplaceConcat(a: string, b: string, c: char, sub: string)
    ensures Replace(a + b, c, sub) == Replace(a, c, sub) + Replace(b, c, sub)
  {
    if a == "" {
      assert a + b == b;
    } else {
      ReplaceConcat(a[1..], b, c, sub);
      assert (a + b)[1..] == a[1..] + b;
      var first, x, y := if a[0] == c then sub else [a[0]], Replace(a[1..], c, sub), Replace(b, c, sub);
      assert Replace(a + b, c, sub) == first + (x + y) == (first + x) + y;
    }
  }

  lemma {:induction false} ReplaceNothing(s: string, c: char, sub: string)
    requires c !in s
    ensures Replace(s, c, sub) == s
  {
    if s != "" {
      ReplaceNothing(s[1..], c, sub);
    }
  }

  lemma ReplaceOne(x: char, c: char, sub: string)
    ensures Replace([x], c, sub) == if x == c then sub else [x]
  {
    assert [x][1..] == "";
  }

  lemma EscapeStrOne(x: char)
    ensures EscapeStr([x]) == Escape(x, false)
  {
    ReplaceOne(x, '\\', "\\\\");
    ReplaceOne(x, '"', "\\\"");
    ReplaceNothing("\\\\", '"', "\\\"");
  }

  lemma EscapeStrConcat(a: string, b: string)
    ensures EscapeStr(a + b) == EscapeStr(a) + EscapeStr(b)
  {
    ReplaceConcat(a, b, '\\', "\\\\");
    ReplaceConcat(Replace(a, '\\', "\\\\"), Replace(b, '\\', "\\\\"), '"', "\\\"");
  }

  /** The last four replacements, which the full form adds. */
  function Controls(s: string): string {
    Replace(Replace(Replace(Replace(s, '\n', "\\n"), '\r', "\\r"), '\t', "\\t"), '\0', "\\0")
  }

  lemma ControlsConcat(a: string, b: string)
    ensures Controls(a + b) == Controls(a) + Controls(b)
  {
    ReplaceConcat(a, b, '\n', "\\n");
    var a1, b1 := Replace(a, '\n', "\\n"), Replace(b, '\n', "\\n");
    ReplaceConcat(a1, b1, '\r', "\\r");
    var a2, b2 := Replace(a1, '\r', "\\r"), Replace(b1, '\r', "\\r");
    ReplaceConcat(a2, b2, '\t', "\\t");
    ReplaceConcat(Replace(a2, '\t', "\\t"), Replace(b2, '\t', "\\t"), '\0', "\\0");
  }

  predicate IsControl(c: char) {
    c == '\n' || c == '\r' || c == '\t' || c == '\0'
  }

  lemma ControlsNothing(s: string)
    requires forall i | 0 <= i < |s| :: !IsControl(s[i])
    ensures Controls(s) == s
  {
    ReplaceNothing(s, '\n', "\\n");
    ReplaceNothing(s, '\r', "\\r");
    ReplaceNothing(s, '\t', "\\t");
    ReplaceNothing(s, '\0', "\\0");
  }

  lemma ControlsOne(x: char)
    requires IsControl(x)
    ensures Controls([x]) == Escape(x, true)
  {
    hide Replace;
    ReplaceOne(x, '\n', "\\n");
    ReplaceOne(x, '\r', "\\r");
    ReplaceOne(x, '\t', "\\t");
    ReplaceOne(x, '\0', "\\0");
    var e := Escape(x, true);
    ReplaceNothing(e, '\n', "\\n");
    ReplaceNothing(e, '\r', "\\r");
    ReplaceNothing(e, '\t', "\\t");
    ReplaceNothing(e, '\0', "\\0");
  }

  /** The chained replacements escape exactly as one pass would: no step undoes or redoes another. */
  lemma {:induction false} ChainIsOnePass(s: string)
    ensures EscapeStr(s) == OnePass(s, false) && EscapeStrFull(s) == OnePass(s, true)
  {
    assert EscapeStrFull(s) == Controls(EscapeStr(s));
    if s != "" {
      hide Replace;
      assert s == [s[0]] + s[1..];
      EscapeStrConcat([s[0]], s[1..]);
      EscapeStrOne(s[0]);
      ControlsConcat(EscapeStr([s[0]]), EscapeStr(s[1..]));
      if IsControl(s[0]) {
        ControlsOne(s[0]);
      } else {
        ControlsNothing(Escape(s[0], false));
      }
      ChainIsOnePass(s[1..]);
    }
  }

  lemma ReadEscape(c: char, full: bool, more: string)
    ensures ReadPlain(Escape(c, full) + more) == if c == '\r' && !full then None else Prefixed(c, ReadPlain(more))
  {
    var e := Escape(c, full);
    assert (e + more)[|e|..] == more;
  }

  /** An escaped literal is read back, except that the short form stops at a bare CR. */
  lemma {:induction false} ReadEscaped(s: string, full: bool, rest: string)
    ensures ReadPlain(OnePass(s, full) + "\"" + rest) ==
            if full || '\r' !in s then Some((s, rest)) else None
  {
    var tail := "\"" + rest;
    var src := OnePass(s, full) + "\"" + rest;
    if s == "" {
      assert src == tail && tail[1..] == rest;
    } else {
      hide Escape, ReadPlain;
      var more := OnePass(s[1..], full) + "\"" + rest;
      assert src == Escape(s[0], full) + more;
      ReadEscape(s[0], full, more);
      ReadEscaped(s[1..], full, rest);
      assert s == [s[0]] + s[1..];
    }
  }

  // ----- Carriage returns -----

  lemma {:induction false} NormalizeNothing(s: string)
    requires '\r' !in s
    ensures Normalize(s) == s
  {
    if s != "" {
      NormalizeNothing(s[1..]);
    }
  }

  lemma {:induction false} OnePassHasNoCr(s: string)
    ensures '\r' !in OnePass(s, true)
  {
    if s != "" {
      OnePassHasNoCr(s[1..]);
    }
  }

  /** Reading CR LF as LF commutes with the short form of escaping. */
  lemma {:induction false} NormalizeEscaped(s: string, tail: string)
    requires '\r' !in tail && (tail == "" || tail[0] != '\n')
    ensures Normalize(OnePass(s, false) + tail) == OnePass(Normalize(s), false) + tail
  {
    if s == "" {
      assert OnePass(s, false) + tail == tail;
      NormalizeNothing(tail);
    } else {
      var e, more := Escape(s[0], false), OnePass(s[1..], false) + tail;
      NormalizeEscaped(s[1..], tail);
      assert OnePass(s, false) + tail == e + more;
      if s[0] == '\r' {
        NormalizeCr(s, tail);
      } else {
        NormalizeSkips(e, more);
        OnePassCons(s[0], Normalize(s[1..]), tail);
      }
    }
  }

  lemma OnePassCons(c: char, s: string, tail: string)
    ensures OnePass([c] + s, false) + tail == Escape(c, false) + (OnePass(s, false) + tail)
  {
    assert ([c] + s)[1..] == s;
  }

  lemma NormalizeCr(s: string, tail: string)
    requires s != "" && s[0] == '\r' && '\r' !in tail && (tail == "" || tail[0] != '\n')
    requires Normalize(OnePass(s[1..], false) + tail) == OnePass(Normalize(s[1..]), false) + tail
    ensures Normalize(OnePass(s, false) + tail) == OnePass(Normalize(s), false) + tail
  {
    var u := s[1..];
    var more := OnePass(u, false) + tail;
    assert s == ['\r'] + u;
    NormalizeCons('\r', u);
    NormalizeCons('\r', more);
    OnePassCons('\r', u, tail);
    OnePassCons('\r', Normalize(u), tail);
    LineFeedFirst(u, tail);
    hide OnePass, Normalize;
    assert Escape('\r', false) == ['\r'];
  }

  lemma NormalizeCons(c: char, s: string)
    ensures Normalize([c] + s) == if c == '\r' && s != "" && s[0] == '\n' then Normalize(s) else [c] + Normalize(s)
  {
    assert ([c] + s)[1..] == s;
  }

  lemma LineFeedFirst(s: string, tail: string)
    requires tail == "" || tail[0] != '\n'
    ensures var t := OnePass(s, false) + tail; (t != "" && t[0] == '\n') <==> (s != "" && s[0] == '\n')
  {
    if s == "" {
      assert OnePass(s, false) + tail == tail;
    } else {
      assert Escape(s[0], false) != "";
    }
  }

  lemma {:induction false} NormalizeSkips(a: string, b: string)
    requires '\r' !in a
    ensures Normalize(a + b) == a + Normalize(b)
  {
    if a == "" {
      assert a + b == b;
    } else {
      assert (a + b)[1..] == a[1..] + b;
      NormalizeSkips(a[1..], b);
    }
  }

  // ----- The theorems -----

  /** Every string without CR is read back from its literal, whatever follows the literal. */
  lemma EmitReadsBack(s: string, rest: string)
    requires '\r' !in s
    ensures Lex(Emit(s) + rest) == Some((s, rest))
  {
    LongestRunMeans(s);
    if s == "" {
      assert (Emit(s) + rest)[1..] == "\"" + rest && ("\"" + rest)[1..] == rest;
    } else if '"' !in s {
      RawLiteralIff(s, 0, rest);
    } else if CountHashes(s) < 255 {
      RawLiteralIff(s, CountHashes(s) + 1, rest);
    } else {
      EscapedLiteralReadsBack(s, rest);
    }
  }

  lemma EscapedLiteralReadsBack(s: string, rest: string)
    ensures Lex("\"" + EscapeStrFull(s) + "\"" + rest) == Some((s, rest))
  {
    ChainIsOnePass(s);
    ReadEscaped(s, true, rest);
    var src := "\"" + EscapeStrFull(s) + "\"" + rest;
    assert src[1..] == OnePass(s, true) + "\"" + rest;
  }

  /** With a quote in the string, no smaller number of hashes would have done. */
  lemma EmitUsesFewestHashes(s: string, n: nat)
    requires '"' in s && CountHashes(s) < 255 && n <= MAX_HASHES
    requires Lex(RawLiteral(n, s)) == Some((s, ""))
    ensures CountHashes(s) + 1 <= n && Emit(s) == RawLiteral(CountHashes(s) + 1, s)
  {
    LongestRunMeans(s);
    assert RawLiteral(n, s) + "" == RawLiteral(n, s);
    RawLiteralIff(s, n, "");
  }

  /**
   The compiler reads the literal back exactly when the string has no CR or is printed escaped: the
   raw forms cannot carry a CR, so a string with CR and short runs is not preserved.
   */
  lemma EmitReadsBackIff(s: string)
    ensures Compile(Emit(s)) == Some((s, "")) <==> '\r' !in s || CountHashes(s) >= 255
  {
    assert Emit(s) + "" == Emit(s);
    LongestRunMeans(s);
    if '\r' !in s {
      EmitHasNoCr(s);
      NormalizeNothing(Emit(s));
      EmitReadsBack(s, "");
    } else if CountHashes(s) >= 255 {
      ChainIsOnePass(s);
      OnePassHasNoCr(s);
      NormalizeNothing(Emit(s));
      EscapedLiteralReadsBack(s, "");
    } else {
      assert Emit(s)[0] == 'r' && Normalize(Emit(s))[0] == 'r';
    }
  }

  /** A CR LF pair comes back as LF alone, without any error. */
  lemma CrLfBecomesLf()
    ensures Compile(Emit("\r\n")) == Some(("\n", ""))
  {
    assert Emit("\r\n") == "r\"" + "\r\n\"";
    NormalizeSkips("r\"", "\r\n\"");
    assert "\r\n\""[1..] == "\n\"";
    NormalizeNothing("\n\"");
    RawLiteralIff("\n", 0, "");
    assert RawLiteral(0, "\n") + "" == "r\"" + "\n\"";
  }

  lemma EmitHasNoCr(s: string)
    requires '\r' !in s
    ensures '\r' !in Emit(s)
  {
    RepeatCloses(0, "");
    RepeatCloses(CountHashes(s) + 1, "");
    ChainIsOnePass(s);
    OnePassHasNoCr(s);
    hide OnePass, Repeat, EscapeStrFull, LongestRun;
    assert '\r' !in RawLiteral(CountHashes(s) + 1, s);
  }

  /** The short form, used for single-line fields, is preserved exactly when there is no CR. */
  lemma EscapeStrReadsBackIff(s: string)
    ensures Compile("\"" + EscapeStr(s) + "\"") == Some((s, "")) <==> '\r' !in s
  {
    ChainIsOnePass(s);
    hide OnePass, ReadPlain, EscapeStr;
    var src := "\"" + EscapeStr(s) + "\"";
    var u := Normalize(s);
    assert src == "\"" + (OnePass(s, false) + "\"");
    NormalizeSkips("\"", OnePass(s, false) + "\"");
    NormalizeEscaped(s, "\"");
    ReadEscaped(u, false, "");
    assert Normalize(src)[1..] == OnePass(u, false) + "\"" + "";
    if '\r' !in s {
      NormalizeNothing(s);
    }
  }
}
