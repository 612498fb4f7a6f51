/** Ignore rules: the glob matcher and the directory rules built on it. */
module Ignore {
  import Bytes

  const IGNORE_FILE := ".cavsignore"

  // ---------- The matcher ----------

  predicate SlashFree(s: string) {
    '/' !in s
  }

  /** What follows a `**`: a slash right after it is swallowed with it. */
  function AfterDoubleStar(p: string): string
    requires |p| > 1
  {
    if |p| > 2 && p[2] == '/' then p[3..] else p[2..]
  }

  /** `glob_rec`. */
  predicate GlobRec(p: string, t: string)
    decreases |p|
  {
    if p == "" then t == ""
    else if p[0] == '*' && |p| > 1 && p[1] == '*' then
      exists i :: 0 <= i <= |t| && GlobRec(AfterDoubleStar(p), t[i..])
    else if p[0] == '*' then
      exists i :: 0 <= i <= |t| && SlashFree(t[..i]) && GlobRec(p[1..], t[i..])
    else if p[0] == '?' then
      t != "" && t[0] != '/' && GlobRec(p[1..], t[1..])
    else
      t != "" && t[0] == p[0] && GlobRec(p[1..], t[1..])
  }

  // ---------- Denotation ----------

  datatype Token = AnyText | InSegment | OneChar | Exactly(c: char)

  function Tokens(p: string): seq<Token>
    decreases |p|
  {
    if p == "" then []
    else if p[0] == '*' && |p| > 1 && p[1] == '*' then [AnyText] + Tokens(AfterDoubleStar(p))
    else if p[0] == '*' then [InSegment] + Tokens(p[1..])
    else if p[0] == '?' then [OneChar] + Tokens(p[1..])
    else [Exactly(p[0])] + Tokens(p[1..])
  }

  predicate Accepts(tok: Token, piece: string) {
    match tok
    case AnyText => true
    case InSegment => SlashFree(piece)
    case OneChar => |piece| == 1 && SlashFree(piece)
    case Exactly(c) => piece == [c]
  }

  function Concat(pieces: seq<string>): string {
    if pieces == [] then "" else pieces[0] + Concat(pieces[1..])
  }

  /** `pieces` cuts `t` into one accepted piece per token. */
  ghost predicate Cuts(toks: seq<Token>, t: string, pieces: seq<string>) {
    && |pieces| == |toks| && Concat(pieces) == t
    && forall i :: 0 <= i < |toks| ==> Accepts(toks[i], pieces[i])
  }

  ghost predicate Denotes(toks: seq<Token>, t: string) {
    exists pieces :: Cuts(toks, t, pieces)
  }

  lemma {:induction false} MatchIsCut(p: string, t: string) returns (pieces: seq<string>)
    requires GlobRec(p, t)
    ensures Cuts(Tokens(p), t, pieces)
    decreases |p|
  {
    if p == "" {
      return [];
    }
    var rest, i;
    if p[0] == '*' && |p| > 1 && p[1] == '*' {
      rest := AfterDoubleStar(p);
      i :| 0 <= i <= |t| && GlobRec(rest, t[i..]);
    } else if p[0] == '*' {
      rest := p[1..];
      i :| 0 <= i <= |t| && SlashFree(t[..i]) && GlobRec(rest, t[i..]);
    } else {
      rest, i := p[1..], 1;
    }
    var later := MatchIsCut(rest, t[i..]);
    pieces := [t[..i]] + later;
    assert pieces[1..] == later && t == t[..i] + t[i..];
  }

  lemma {:induction false} CutIsMatch(p: string, t: string, pieces: seq<string>)
    requires Cuts(Tokens(p), t, pieces)
    ensures GlobRec(p, t)
    decreases |p|
  {
    if p == "" {
      return;
    }
    var i, rest := |pieces[0]|, if p[0] == '*' && |p| > 1 && p[1] == '*' then AfterDoubleStar(p) else p[1..];
    assert t[..i] == pieces[0] && t[i..] == Concat(pieces[1..]);
    assert Tokens(p)[1..] == Tokens(rest);
    assert Accepts(Tokens(p)[0], pieces[0]);
    forall k | 0 <= k < |Tokens(rest)| ensures Accepts(Tokens(rest)[k], pieces[1..][k]) {
      assert Accepts(Tokens(p)[k + 1], pieces[k + 1]);
    }
    CutIsMatch(rest, t[i..], pieces[1..]);
  }

  /** The matcher accepts exactly the texts that can be cut into pieces the pattern's tokens accept. */
  lemma GlobExact(p: string, t: string)
    ensures GlobRec(p, t) <==> Denotes(Tokens(p), t)
  {
    var toks := Tokens(p);
    if GlobRec(p, t) {
      var pieces := MatchIsCut(p, t);
      assert Cuts(toks, t, pieces);
    }
    forall pieces | Cuts(toks, t, pieces) ensures GlobRec(p, t) {
      CutIsMatch(p, t, pieces);
    }
  }

  // ---------- Slashes ----------

  function Slashes(s: string): nat {
    if s == "" then 0 else (if s[0] == '/' then 1 else 0) + Slashes(s[1..])
  }

  predicate HasDoubleStar(p: string) {
    exists i :: 0 < i < |p| && p[i - 1] == '*' && p[i] == '*'
  }

  lemma {:induction false} SlashesAppend(a: string, b: string)
    ensures Slashes(a + b) == Slashes(a) + Slashes(b)
  {
    if a == "" {
      assert a + b == b;
    } else {
      assert (a + b)[1..] == a[1..] + b;
      SlashesAppend(a[1..], b);
    }
  }

  lemma {:induction false} SlashFreeCount(s: string)
    ensures SlashFree(s) <==> Slashes(s) == 0
  {
    if s != "" {
      SlashFreeCount(s[1..]);
      assert forall c :: c in s <==> c == s[0] || c in s[1..];
    }
  }

  /** Without `**`, a pattern only matches texts with exactly as many slashes as itself. */
  lemma {:induction false} SlashesKept(p: string, t: string)
    requires !HasDoubleStar(p) && GlobRec(p, t)
    ensures Slashes(t) == Slashes(p)
    decreases |p|
  {
    if p == "" {
      return;
    }
    assert |p| > 1 && p[0] == '*' && p[1] == '*' ==> HasDoubleStar(p) by {
      assert |p| > 1 && p[0] == '*' && p[1] == '*' ==> p[1 - 1] == '*';
    }
    forall i | 0 < i < |p[1..]| ensures !(p[1..][i - 1] == '*' && p[1..][i] == '*') {
      assert p[i + 1 - 1] == p[1..][i - 1] && p[i + 1] == p[1..][i];
    }
    if p[0] == '*' {
      var i :| 0 <= i <= |t| && SlashFree(t[..i]) && GlobRec(p[1..], t[i..]);
      SlashesKept(p[1..], t[i..]);
      SlashFreeCount(t[..i]);
      SlashesAppend(t[..i], t[i..]);
      assert t == t[..i] + t[i..];
    } else {
      SlashesKept(p[1..], t[1..]);
    }
  }

  // ---------- Rules ----------

  /** The pattern without its trailing slash, and whether it had one. */
  function StripSlash(pattern: string): (string, bool) {
    if pattern != "" && pattern[|pattern| - 1] == '/' then (pattern[..|pattern| - 1], true) else (pattern, false)
  }

  predicate Anchored(p: string) {
    '/' in p
  }

  function Segments(rel: string): (r: seq<string>)
    ensures r != []
  {
    Bytes.Split(rel, '/')
  }

  /** `prefix_dir_match`: some directory above `rel` matches. */
  predicate PrefixDirMatch(p: string, rel: string) {
    exists i :: 0 <= i < |rel| && rel[i] == '/' && GlobRec(p, rel[..i])
  }

  /** `pattern_matches`. */
  predicate PatternMatches(pattern: string, rel: string, isDir: bool) {
    var (p, dirOnly) := StripSlash(pattern);
    if p == "" then false
    else if dirOnly then
      if Anchored(p) then (isDir && GlobRec(p, rel)) || PrefixDirMatch(p, rel)
      else
        exists i :: 0 <= i < |Segments(rel)| && GlobRec(p, Segments(rel)[i]) && (i < |Segments(rel)| - 1 || isDir)
    else if Anchored(p) then GlobRec(p, rel)
    else exists i :: 0 <= i < |Segments(rel)| && GlobRec(p, Segments(rel)[i])
  }

  predicate Ignored(patterns: seq<string>, rel: string, isDir: bool) {
    rel == IGNORE_FILE || exists p <- patterns :: PatternMatches(p, rel, isDir)
  }

  /** Matching as a file implies matching as a directory. */
  lemma {:induction false} FileMatchIsDirMatch(pattern: string, rel: string)
    requires PatternMatches(pattern, rel, false)
    ensures PatternMatches(pattern, rel, true)
  {
    var (p, dirOnly) := StripSlash(pattern);
    if dirOnly && !Anchored(p) {
      var i :| 0 <= i < |Segments(rel)| && GlobRec(p, Segments(rel)[i]) && i < |Segments(rel)| - 1;
    }
  }

  /** The one kind of pattern that names single entries rather than subtrees. */
  predicate NamesEntriesOnly(pattern: string) {
    !StripSlash(pattern).1 && Anchored(StripSlash(pattern).0)
  }

  lemma {:induction false} SegmentsBelow(rel: string, x: string)
    ensures Segments(rel + "/" + x) == Segments(rel) + Segments(x)
  {
    var s := rel + "/" + x;
    if rel == "" {
      assert s[1..] == x && Segments(rel) == [""];
    } else {
      assert s[1..] == rel[1..] + "/" + x;
      SegmentsBelow(rel[1..], x);
      var head, rest := Segments(rel[1..]), Segments(x);
      if rel[0] == '/' {
        assert [""] + (head + rest) == [""] + head + rest;
      } else {
        assert (head + rest)[0] == head[0] && (head + rest)[1..] == head[1..] + rest;
        assert [[rel[0]] + head[0]] + (head[1..] + rest) == [[rel[0]] + head[0]] + head[1..] + rest;
      }
    }
  }

  /** Ignored subtrees are closed: a pattern that matches a directory matches all below it. */
  lemma SubtreeClosed(pattern: string, rel: string, x: string, isDir: bool)
    requires !NamesEntriesOnly(pattern) && PatternMatches(pattern, rel, true)
    ensures PatternMatches(pattern, rel + "/" + x, isDir)
  {
    var (p, dirOnly) := StripSlash(pattern);
    var below := rel + "/" + x;
    if Anchored(p) {
      if GlobRec(p, rel) {
        assert below[|rel|] == '/' && below[..|rel|] == rel;
      } else {
        var i :| 0 <= i < |rel| && rel[i] == '/' && GlobRec(p, rel[..i]);
        assert below[i] == '/' && below[..i] == rel[..i];
      }
    } else {
      SegmentsBelow(rel, x);
      var i :| 0 <= i < |Segments(rel)| && GlobRec(p, Segments(rel)[i]);
      assert Segments(below)[i] == Segments(rel)[i] && i < |Segments(below)| - 1;
    }
  }

  /** An anchored pattern without a trailing slash and without `**` never matches below a match. */
  lemma EntryPatternStopsThere(pattern: string, rel: string, x: string, isDir: bool)
    requires NamesEntriesOnly(pattern) && !HasDoubleStar(pattern) && PatternMatches(pattern, rel, true)
    ensures !PatternMatches(pattern, rel + "/" + x, isDir)
  {
    if PatternMatches(pattern, rel + "/" + x, isDir) {
      SlashesKept(pattern, rel);
      SlashesKept(pattern, rel + "/" + x);
      SlashesAppend(rel + "/", x);
      SlashesAppend(rel, "/");
    }
  }

  predicate DoubleStarred(p: string) {
    |p| > 1 && p[0] == '*' && p[1] == '*'
  }

  /** The pattern after its first token. */
  function Rest(p: string): string
    requires p != ""
  {
    if DoubleStarred(p) then AfterDoubleStar(p) else p[1..]
  }

  /** What the first token may take. */
  predicate Takes(p: string, piece: string)
    requires p != ""
  {
    if DoubleStarred(p) then true
    else if p[0] == '*' then SlashFree(piece)
    else if p[0] == '?' then |piece| == 1 && SlashFree(piece)
    else piece == [p[0]]
  }

  lemma GlobStep(p: string, t: string) returns (i: nat)
    requires p != "" && GlobRec(p, t)
    ensures i <= |t| && Takes(p, t[..i]) && GlobRec(Rest(p), t[i..])
  {
    if DoubleStarred(p) {
      i :| 0 <= i <= |t| && GlobRec(AfterDoubleStar(p), t[i..]);
    } else if p[0] == '*' {
      i :| 0 <= i <= |t| && SlashFree(t[..i]) && GlobRec(p[1..], t[i..]);
    } else {
      i := 1;
    }
  }

  lemma GlobBack(p: string, t: string, i: nat)
    requires p != "" && i <= |t| && Takes(p, t[..i]) && GlobRec(Rest(p), t[i..])
    ensures GlobRec(p, t)
  {
    assert |t[..i]| == 1 ==> t[0] == t[..i][0];
  }

  lemma {:induction false} TrailingStarsMatchMore(p: string, t: string, more: string)
    requires |p| > 1 && p[|p| - 2..] == "**" && GlobRec(p, t)
    ensures GlobRec(p, t + more)
    decreases |p|
  {
    hide GlobRec, SlashFree;
    var i := GlobStep(p, t);
    var rest, s := Rest(p), t + more;
    if DoubleStarred(p) && rest == "" {
      EmptyMatches(s);
      GlobBack(p, s, |s|);
    } else if DoubleStarred(p) && rest == "*" {
      StarAfterAnyText(p, s);
    } else {
      assert rest[|rest| - 2..] == "**";
      TrailingStarsMatchMore(rest, t[i..], more);
      assert s[i..] == t[i..] + more && s[..i] == t[..i];
      GlobBack(p, s, i);
    }
  }

  lemma EmptyMatches(s: string)
    ensures GlobRec("", s[|s|..])
  {
  }

  lemma StarAfterAnyText(p: string, t: string)
    requires |p| > 1 && p[0] == '*' && p[1] == '*' && AfterDoubleStar(p) == "*"
    ensures GlobRec(p, t)
  {
    assert "*"[1..] == "" && t[|t|..] == "" && ""[0..] == "" && ""[..0] == "";
    assert GlobRec("", ""[0..]);
    assert GlobRec("*", t[|t|..]);
  }

  /** Among entry patterns, one ending in `**` is closed all the same. */
  lemma DoubleStarTailClosed(pattern: string, rel: string, x: string, isDir: bool)
    requires NamesEntriesOnly(pattern) && |pattern| > 1 && pattern[|pattern| - 2..] == "**"
    requires PatternMatches(pattern, rel, true)
    ensures PatternMatches(pattern, rel + "/" + x, isDir)
  {
    TrailingStarsMatchMore(pattern, rel, "/" + x);
    assert rel + ("/" + x) == rel + "/" + x;
  }

  /** A rule list of subtree patterns ignores whole subtrees, except below a directory that is
      itself called `.cavsignore`. */
  lemma IgnoredSubtree(patterns: seq<string>, rel: string, x: string, isDir: bool)
    requires forall p <- patterns :: !NamesEntriesOnly(p)
    requires rel != IGNORE_FILE && Ignored(patterns, rel, true)
    ensures Ignored(patterns, rel + "/" + x, isDir)
  {
    var p :| p in patterns && PatternMatches(p, rel, true);
    SubtreeClosed(p, rel, x, isDir);
  }

  lemma {:induction false} SlashFreeSegment(s: string)
    requires SlashFree(s)
    ensures Segments(s) == [s]
  {
    if s != "" {
      SlashFreeSegment(s[1..]);
      assert [s[0]] + s[1..] == s;
    }
  }

  /** A subtree pattern reaches the file of the same name inside a top-level directory exactly when it
      matches the directory. */
  lemma SameNameBelow(pattern: string, name: string)
    requires !NamesEntriesOnly(pattern) && SlashFree(name)
    ensures PatternMatches(pattern, name + "/" + name, false) <==> PatternMatches(pattern, name, true)
  {
    var (p, dirOnly) := StripSlash(pattern);
    var below := name + "/" + name;
    if PatternMatches(pattern, name, true) {
      SubtreeClosed(pattern, name, name, false);
    } else if p != "" && Anchored(p) {
      assert forall i | 0 <= i < |name| :: below[i] == name[i];
      assert forall i | |name| < i < |below| :: below[i] == name[i - |name| - 1];
      assert forall i | 0 <= i < |below| && below[i] == '/' :: below[..i] == name;
    } else {
      SegmentsBelow(name, name);
      SlashFreeSegment(name);
      assert Segments(name)[0] == name;
      assert Segments(below) == [name, name];
    }
  }

  /** Among subtree patterns, everything below a directory called `.cavsignore` is ignored exactly when
      one of them matches that directory; otherwise the file `.cavsignore/.cavsignore` is not. */
  lemma IgnoreFileSubtree(patterns: seq<string>)
    requires forall p <- patterns :: !NamesEntriesOnly(p)
    ensures (forall x, isDir :: Ignored(patterns, IGNORE_FILE + "/" + x, isDir))
       <==> exists p <- patterns :: PatternMatches(p, IGNORE_FILE, true)
    ensures Ignored(patterns, IGNORE_FILE + "/" + IGNORE_FILE, false)
       <==> exists p <- patterns :: PatternMatches(p, IGNORE_FILE, true)
  {
    var below := IGNORE_FILE + "/" + IGNORE_FILE;
    assert |below| != |IGNORE_FILE|;
    forall p | p in patterns ensures PatternMatches(p, below, false) <==> PatternMatches(p, IGNORE_FILE, true) {
      SameNameBelow(p, IGNORE_FILE);
    }
    forall p, x, isDir | p in patterns && PatternMatches(p, IGNORE_FILE, true)
      ensures PatternMatches(p, IGNORE_FILE + "/" + x, isDir)
    {
      SubtreeClosed(p, IGNORE_FILE, x, isDir);
    }
    if forall x, isDir :: Ignored(patterns, IGNORE_FILE + "/" + x, isDir) {
      assert Ignored(patterns, below, false);
    }
    if p :| p in patterns && PatternMatches(p, IGNORE_FILE, true) {
      forall x, isDir ensures Ignored(patterns, IGNORE_FILE + "/" + x, isDir) {
        assert PatternMatches(p, IGNORE_FILE + "/" + x, isDir);
      }
    }
  }

  /** With no patterns at all, the root `.cavsignore` is ignored and nothing below it is. */
  lemma {:induction false} IgnoreFileIsNotASubtree(x: string, isDir: bool)
    ensures Ignored([], IGNORE_FILE, true) && !Ignored([], IGNORE_FILE + "/" + x, isDir)
  {
    assert |IGNORE_FILE + "/" + x| > |IGNORE_FILE|;
  }

  // ---------- Whole segments ----------

  /** The text before `i` is a run of whole segments. */
  predicate AtBoundary(t: string, i: nat)
    requires i <= |t|
  {
    i == 0 || t[i - 1] == '/'
  }

  /** A pattern that starts with `**` and a slash. */
  predicate StartsAcross(p: string) {
    |p| > 2 && p[0] == '*' && p[1] == '*' && p[2] == '/'
  }

  /** `rest` matches what is left after some whole segments. */
  predicate AfterSegments(rest: string, t: string) {
    exists i :: 0 <= i <= |t| && AtBoundary(t, i) && GlobRec(rest, t[i..])
  }

  /** After any number of `?` comes a star: one more ordinary character at the front does no harm. */
  predicate Slack(p: string) {
    p != "" && (p[0] == '*' || (p[0] == '?' && Slack(p[1..])))
  }

  lemma {:induction false} SlackTakesOneMore(p: string, c: char, t: string)
    requires Slack(p) && c != '/' && GlobRec(p, t)
    ensures GlobRec(p, [c] + t)
    decreases |p|
  {
    var s := [c] + t;
    if p[0] == '*' && |p| > 1 && p[1] == '*' {
      var i :| 0 <= i <= |t| && GlobRec(AfterDoubleStar(p), t[i..]);
      assert s[i + 1..] == t[i..];
    } else if p[0] == '*' {
      var i :| 0 <= i <= |t| && SlashFree(t[..i]) && GlobRec(p[1..], t[i..]);
      assert s[i + 1..] == t[i..] && s[..i + 1] == [c] + t[..i];
    } else {
      SlackTakesOneMore(p[1..], t[0], t[1..]);
      assert s[1..] == t == [t[0]] + t[1..];
    }
  }

  /** A slack rest that matches anywhere matches from the start of that segment. */
  lemma {:induction false} SlackBacksUp(rest: string, t: string, i: nat)
    requires Slack(rest) && i <= |t| && GlobRec(rest, t[i..])
    ensures AfterSegments(rest, t)
    decreases i
  {
    if !AtBoundary(t, i) {
      SlackTakesOneMore(rest, t[i - 1], t[i..]);
      assert [t[i - 1]] + t[i..] == t[i - 1..];
      SlackBacksUp(rest, t, i - 1);
    }
  }

  /** A shortest text of the pattern, with `c` wherever any character will do. */
  function Shortest(p: string, c: char): string
    decreases |p|
  {
    if p == "" then ""
    else if p[0] == '*' && |p| > 1 && p[1] == '*' then Shortest(AfterDoubleStar(p), c)
    else if p[0] == '*' then Shortest(p[1..], c)
    else if p[0] == '?' then [c] + Shortest(p[1..], c)
    else [p[0]] + Shortest(p[1..], c)
  }

  lemma {:induction false} ShortestMatches(p: string, c: char)
    requires c != '/'
    ensures GlobRec(p, Shortest(p, c))
    decreases |p|
  {
    var s := Shortest(p, c);
    assert s[0..] == s && s[..0] == "";
    if p == "" {
    } else if p[0] == '*' && |p| > 1 && p[1] == '*' {
      ShortestMatches(AfterDoubleStar(p), c);
    } else {
      ShortestMatches(p[1..], c);
      assert p[0] != '*' ==> s[1..] == Shortest(p[1..], c);
    }
  }

  lemma {:induction false} NothingShorter(p: string, c: char, t: string)
    requires GlobRec(p, t)
    ensures |t| >= |Shortest(p, c)|
    decreases |p|
  {
    if p == "" {
    } else if p[0] == '*' && |p| > 1 && p[1] == '*' {
      var i :| 0 <= i <= |t| && GlobRec(AfterDoubleStar(p), t[i..]);
      NothingShorter(AfterDoubleStar(p), c, t[i..]);
    } else if p[0] == '*' {
      var i :| 0 <= i <= |t| && SlashFree(t[..i]) && GlobRec(p[1..], t[i..]);
      NothingShorter(p[1..], c, t[i..]);
    } else {
      NothingShorter(p[1..], c, t[1..]);
    }
  }

  /** A character that is no slash and not what a tight pattern asks for after its `?`s. */
  function Stranger(p: string): (c: char)
    ensures c != '/'
  {
    if p == "" then 'x'
    else if p[0] == '?' then Stranger(p[1..])
    else if p[0] == 'x' then 'y' else 'x'
  }

  lemma {:induction false} TightRefusesOneMore(p: string)
    requires !Slack(p)
    ensures !GlobRec(p, [Stranger(p)] + Shortest(p, Stranger(p)))
  {
    var c := Stranger(p);
    var s := [c] + Shortest(p, c);
    if p != "" && p[0] == '?' {
      TightRefusesOneMore(p[1..]);
      assert s[1..] == [c] + Shortest(p[1..], c);
    }
  }

  /** `**` and a slash skip only whole segments, whatever the text, exactly when the rest of the
      pattern is a star after any number of `?`. */
  lemma {:induction false} AcrossSkipsSegments(p: string)
    requires StartsAcross(p)
    ensures (forall t :: GlobRec(p, t) <==> AfterSegments(p[3..], t)) <==> Slack(p[3..])
    ensures forall t :: AfterSegments(p[3..], t) ==> GlobRec(p, t)
  {
    var rest := p[3..];
    assert rest == AfterDoubleStar(p);
    if Slack(rest) {
      forall t | GlobRec(p, t) ensures AfterSegments(rest, t) {
        var i :| 0 <= i <= |t| && GlobRec(rest, t[i..]);
        SlackBacksUp(rest, t, i);
      }
    } else {
      var c := Stranger(rest);
      var m := Shortest(rest, c);
      var t := [c] + m;
      ShortestMatches(rest, c);
      TightRefusesOneMore(rest);
      assert t[0..] == t && t[1..] == m && GlobRec(p, t);
      forall i | 0 <= i <= |t| && AtBoundary(t, i) ensures !GlobRec(rest, t[i..]) {
        if GlobRec(rest, t[i..]) {
          NothingShorter(rest, c, t[i..]);
        }
      }
      assert !AfterSegments(rest, t);
    }
  }

  /** The matcher as it would be if `**` and a slash skipped only whole segments. */
  predicate SegmentGlob(p: string, t: string)
    decreases |p|
  {
    if p == "" then t == ""
    else if p[0] == '*' && |p| > 1 && p[1] == '*' then
      exists i :: 0 <= i <= |t| && (StartsAcross(p) ==> AtBoundary(t, i)) && SegmentGlob(AfterDoubleStar(p), t[i..])
    else if p[0] == '*' then
      exists i :: 0 <= i <= |t| && SlashFree(t[..i]) && SegmentGlob(p[1..], t[i..])
    else if p[0] == '?' then
      t != "" && t[0] != '/' && SegmentGlob(p[1..], t[1..])
    else
      t != "" && t[0] == p[0] && SegmentGlob(p[1..], t[1..])
  }

  /** Wherever `**` and a slash are read, what follows is slack. */
  predicate SlackThroughout(p: string)
    decreases |p|
  {
    if p == "" then true
    else if p[0] == '*' && |p| > 1 && p[1] == '*' then
      (StartsAcross(p) ==> Slack(AfterDoubleStar(p))) && SlackThroughout(AfterDoubleStar(p))
    else SlackThroughout(p[1..])
  }

  /** The code matches all that whole segments would, and no more when every rest is slack. */
  lemma {:induction false} SegmentGlobIsGlob(p: string, t: string)
    ensures SegmentGlob(p, t) ==> GlobRec(p, t)
    ensures SlackThroughout(p) ==> (SegmentGlob(p, t) <==> GlobRec(p, t))
    decreases |p|
  {
    if p == "" {
    } else if p[0] == '*' && |p| > 1 && p[1] == '*' {
      var rest := AfterDoubleStar(p);
      forall i | 0 <= i <= |t|
        ensures SegmentGlob(rest, t[i..]) ==> GlobRec(rest, t[i..])
        ensures SlackThroughout(rest) ==> (SegmentGlob(rest, t[i..]) <==> GlobRec(rest, t[i..]))
      {
        SegmentGlobIsGlob(rest, t[i..]);
      }
      if SlackThroughout(p) && GlobRec(p, t) && StartsAcross(p) {
        AcrossSkipsSegments(p);
        assert rest == p[3..] && AfterSegments(rest, t);
        var i :| 0 <= i <= |t| && AtBoundary(t, i) && GlobRec(rest, t[i..]);
        assert SegmentGlob(rest, t[i..]);
      }
    } else if p[0] == '*' {
      forall i | 0 <= i <= |t|
        ensures SegmentGlob(p[1..], t[i..]) ==> GlobRec(p[1..], t[i..])
        ensures SlackThroughout(p[1..]) ==> (SegmentGlob(p[1..], t[i..]) <==> GlobRec(p[1..], t[i..]))
      {
        SegmentGlobIsGlob(p[1..], t[i..]);
      }
    } else if t != "" {
      SegmentGlobIsGlob(p[1..], t[1..]);
    }
  }

  // A double star followed by a slash swallows any text, not only whole segments.
  lemma DoubleStarIgnoresBoundaries()
    ensures GlobRec("a/**/b", "a/xb")
  {
    CutIsMatch("a/**/b", "a/xb", ["a", "/", "x", "b"]);
  }
}
