/**
  Path globs (crates/workspace/src/glob.rs): compiled to regular expressions, and what they mean
  directly.
*/
module Glob {
  import opened Results
  import opened Whitespace
  import opened Regexes

  const LEADING_DIRS := Opt(DIRS)

  // ---- the compiler ----------------------------------------------------------------------------------

  /** What `glob_to_regex` emits first, and how many characters it stands for. */
  function NextPiece(p: string): (r: (Regex, nat))
    requires p != ""
    ensures 0 < r.1 <= |p| && Emitted(r.0)
  {
    if p[0] == '*' then
      if |p| >= 2 && p[1] == '*' then
        if |p| >= 3 && p[2] == '/' then (LEADING_DIRS, 3) else (Star(Dot), 2)
      else (Star(NotSlash), 1)
    else if p[0] == '?' then (NotSlash, 1)
    else (Char(p[0]), 1)
  }

  /** What `glob_to_regex` emits for a pattern, left to right. */
  function Compile(p: string): seq<Regex> {
    if p == "" then [] else [NextPiece(p).0] + Compile(p[NextPiece(p).1..])
  }

  /** Its text. */
  function CompiledText(p: string): string {
    if p == "" then "" else Text(NextPiece(p).0) + CompiledText(p[NextPiece(p).1..])
  }

  lemma {:induction false} TextOfCompiled(p: string)
    ensures AllEmitted(Compile(p)) && TextOf(Compile(p)) == CompiledText(p)
  {
    if p != "" {
      var rest := p[NextPiece(p).1..];
      TextOfCompiled(rest);
      assert Compile(p)[0] == NextPiece(p).0 && Compile(p)[1..] == Compile(rest);
    }
  }

  lemma {:induction false} CompiledFrom(p: string, i: nat, body: string, text: string, width: nat)
    requires i < |p| && body + CompiledText(p[i..]) == CompiledText(p)
    requires width == NextPiece(p[i..]).1 && text == Text(NextPiece(p[i..]).0)
    ensures (body + text) + CompiledText(p[i + width..]) == CompiledText(p)
  {
    assert p[i..][width..] == p[i + width..];
    assert body + (text + CompiledText(p[i + width..])) == (body + text) + CompiledText(p[i + width..]);
  }

  /** One turn of the loop of `glob_to_regex`: the text for the next characters, and how many they are. */
  method NextText(p: string) returns (text: string, width: nat)
    requires p != ""
    ensures width == NextPiece(p).1 && text == Text(NextPiece(p).0)
  {
    if p[0] == '*' {
      if |p| >= 2 && p[1] == '*' {
        if |p| >= 3 && p[2] == '/' {
          return "(?:.*/)?", 3;
        }
        return ".*", 2;
      }
      return "[^/]*", 1;
    }
    if p[0] == '?' {
      return "[^/]", 1;
    }
    EscapedOne(p[0]);
    return Escaped([p[0]]), 1;
  }

  /** The loop of `glob_to_regex`: one pass over the characters, looking ahead by two. */
  method EmitPieces(pattern: string) returns (body: string)
    ensures ReadPieces(body) == Some(Compile(pattern))
  {
    body := "";
    var i := 0;
    assert pattern[0..] == pattern && body + CompiledText(pattern) == CompiledText(pattern);
    while i < |pattern|
      invariant 0 <= i <= |pattern|
      invariant body + CompiledText(pattern[i..]) == CompiledText(pattern)
    {
      var text, width := NextText(pattern[i..]);
      CompiledFrom(pattern, i, body, text, width);
      body, i := body + text, i + width;
    }
    assert pattern[i..] == "" && body + "" == body;
    TextOfCompiled(pattern);
    TextReadsBack(Compile(pattern));
  }

  /** `glob_to_regex`: read as a regular expression, the text matches exactly what the glob matches. */
  method GlobToRegex(pattern: string) returns (out: string)
    ensures ReadRegex(out) == Some(Compile(pattern))
    ensures forall s :: AnchoredMatch(ReadRegex(out).value, s) <==> GlobMatch(pattern, s)
  {
    var body := EmitPieces(pattern);
    out := Anchored(body);
    AnchoredReads(body, out);
    CompiledMeaning(pattern);
  }

  // ---- the direct meaning -----------------------------------------------------------------------------

  /**
    A glob matched character by character: `*` and `?` stay within a segment, `**` goes anywhere on
    the line, and a leading `**` with its slash stands for zero or more directories.
  */
  predicate GlobMatch(p: string, s: string)
    decreases |p| + |s|
  {
    if p == "" then s == ""
    else if p[0] == '*' then
      if |p| >= 2 && p[1] == '*' then
        if |p| >= 3 && p[2] == '/'
        then GlobMatch(p[3..], s) || BehindSlash(p[3..], s)
        else GlobMatch(p[2..], s) || (s != "" && s[0] != '\n' && GlobMatch(p, s[1..]))
      else GlobMatch(p[1..], s) || (s != "" && s[0] != '/' && GlobMatch(p, s[1..]))
    else if p[0] == '?' then s != "" && s[0] != '/' && GlobMatch(p[1..], s[1..])
    else s != "" && s[0] == p[0] && GlobMatch(p[1..], s[1..])
  }

  /** `p` matches what follows some slash on the line. */
  predicate BehindSlash(p: string, s: string)
    decreases |p| + |s|
  {
    s != "" && ((s[0] == '/' && GlobMatch(p, s[1..])) || (s[0] != '\n' && BehindSlash(p, s[1..])))
  }

  // ---- the two agree ----------------------------------------------------------------------------------

  predicate IsClass(r: Regex) {
    r.Char? || r.Dot? || r.NotSlash?
  }

  predicate InClass(r: Regex, c: char)
    requires IsClass(r)
  {
    match r
    case Char(d) => c == d
    case Dot => c != '\n'
    case NotSlash => c != '/'
  }

  lemma ClassThen(r: Regex, rest: seq<Regex>, s: string)
    requires IsClass(r)
    ensures AnchoredMatch([r] + rest, s) <==> s != "" && InClass(r, s[0]) && AnchoredMatch(rest, s[1..])
  {
    assert ([r] + rest)[1..] == rest;
    if s != "" && InClass(r, s[0]) && AnchoredMatch(rest, s[1..]) {
      assert InLanguage(r, s[..1]);
    }
    if AnchoredMatch([r] + rest, s) {
      var k :| 0 <= k <= |s| && InLanguage(r, s[..k]) && AnchoredMatch(rest, s[k..]);
      assert k == 1;
    }
  }

  lemma StarSplits(r: Regex, s: string)
    requires IsClass(r)
    ensures s != "" ==> (InLanguage(Star(r), s) <==> InClass(r, s[0]) && InLanguage(Star(r), s[1..]))
  {
    if s != "" && InClass(r, s[0]) && InLanguage(Star(r), s[1..]) {
      assert InLanguage(r, s[..1]);
    }
    if s != "" && InLanguage(Star(r), s) {
      var k :| 0 < k <= |s| && InLanguage(r, s[..k]) && InLanguage(Star(r), s[k..]);
      assert k == 1;
    }
  }

  lemma StarThen(r: Regex, rest: seq<Regex>, s: string)
    requires IsClass(r)
    ensures AnchoredMatch([Star(r)] + rest, s) <==>
            AnchoredMatch(rest, s) || (s != "" && InClass(r, s[0]) && AnchoredMatch([Star(r)] + rest, s[1..]))
  {
    var rs := [Star(r)] + rest;
    assert rs[1..] == rest;
    if AnchoredMatch(rest, s) {
      assert s[..0] == "" && s[0..] == s;
    } else if s != "" && InClass(r, s[0]) && AnchoredMatch(rs, s[1..]) {
      var k :| 0 <= k <= |s| - 1 && InLanguage(Star(r), s[1..][..k]) && AnchoredMatch(rest, s[1..][k..]);
      assert s[..k + 1][1..] == s[1..][..k] && s[k + 1..] == s[1..][k..];
      StarSplits(r, s[..k + 1]);
    }
    if AnchoredMatch(rs, s) {
      var k :| 0 <= k <= |s| && InLanguage(Star(r), s[..k]) && AnchoredMatch(rest, s[k..]);
      if k == 0 {
        assert s[0..] == s;
      } else {
        StarSplits(r, s[..k]);
        assert s[..k][1..] == s[1..][..k - 1] && s[k..] == s[1..][k - 1..];
      }
    }
  }

  lemma DirsSplit(rest: seq<Regex>, s: string, k: nat)
    requires k <= |s| && InLanguage(DIRS, s[..k]) && AnchoredMatch(rest, s[k..])
    ensures AnchoredMatch([Star(Dot)] + ([Char('/')] + rest), s)
  {
    var split := [Star(Dot)] + ([Char('/')] + rest);
    assert split[1..] == [Char('/')] + rest;
    var j :| 0 <= j <= |s[..k]| && InLanguage(Star(Dot), s[..k][..j]) && InLanguage(Char('/'), s[..k][j..]);
    assert s[..k][..j] == s[..j];
    ClassThen(Char('/'), rest, s[j..]);
    assert s[j..][1..] == s[k..];
  }

  lemma DirsJoin(rest: seq<Regex>, s: string)
    requires AnchoredMatch([Star(Dot)] + ([Char('/')] + rest), s)
    ensures AnchoredMatch([LEADING_DIRS] + rest, s)
  {
    var split := [Star(Dot)] + ([Char('/')] + rest);
    assert split[1..] == [Char('/')] + rest && ([LEADING_DIRS] + rest)[1..] == rest;
    var j :| 0 <= j <= |s| && InLanguage(Star(Dot), s[..j]) && AnchoredMatch([Char('/')] + rest, s[j..]);
    ClassThen(Char('/'), rest, s[j..]);
    var k := j + 1;
    assert s[..k][..j] == s[..j] && s[..k][j..] == ['/'] && s[j..][1..] == s[k..];
    assert InLanguage(DIRS, s[..k]);
  }

  lemma DirsThen(rest: seq<Regex>, s: string)
    ensures AnchoredMatch([LEADING_DIRS] + rest, s) <==>
            AnchoredMatch(rest, s) || AnchoredMatch([Star(Dot)] + ([Char('/')] + rest), s)
  {
    assert ([LEADING_DIRS] + rest)[1..] == rest && s[..0] == "" && s[0..] == s;
    if AnchoredMatch([LEADING_DIRS] + rest, s) {
      var k :| 0 <= k <= |s| && InLanguage(LEADING_DIRS, s[..k]) && AnchoredMatch(rest, s[k..]);
      if k > 0 {
        DirsSplit(rest, s, k);
      }
    }
    if AnchoredMatch([Star(Dot)] + ([Char('/')] + rest), s) {
      DirsJoin(rest, s);
    }
  }

  lemma {:induction false} SlashThen(p: string, s: string)
    requires forall t | |t| < |s| :: AnchoredMatch(Compile(p), t) <==> GlobMatch(p, t)
    ensures AnchoredMatch([Star(Dot)] + ([Char('/')] + Compile(p)), s) <==> BehindSlash(p, s)
    decreases |s|
  {
    var rest := [Char('/')] + Compile(p);
    StarThen(Dot, rest, s);
    ClassThen(Char('/'), Compile(p), s);
    if s != "" {
      SlashThen(p, s[1..]);
    }
  }

  /** Compilation preserves meaning, for every pattern and every path. */
  lemma {:induction false} CompilePreservesMeaning(p: string, s: string)
    ensures AnchoredMatch(Compile(p), s) <==> GlobMatch(p, s)
    decreases |p| + |s|
  {
    if p == "" {
    } else if p[0] == '*' && |p| >= 3 && p[1] == '*' && p[2] == '/' {
      DirsThen(Compile(p[3..]), s);
      CompilePreservesMeaning(p[3..], s);
      forall t | |t| < |s|
        ensures AnchoredMatch(Compile(p[3..]), t) <==> GlobMatch(p[3..], t)
      {
        CompilePreservesMeaning(p[3..], t);
      }
      SlashThen(p[3..], s);
    } else if p[0] == '*' && |p| >= 2 && p[1] == '*' {
      StarThen(Dot, Compile(p[2..]), s);
      CompilePreservesMeaning(p[2..], s);
      if s != "" {
        CompilePreservesMeaning(p, s[1..]);
      }
    } else if p[0] == '*' {
      StarThen(NotSlash, Compile(p[1..]), s);
      CompilePreservesMeaning(p[1..], s);
      if s != "" {
        CompilePreservesMeaning(p, s[1..]);
      }
    } else {
      ClassThen(if p[0] == '?' then NotSlash else Char(p[0]), Compile(p[1..]), s);
      if s != "" {
        CompilePreservesMeaning(p[1..], s[1..]);
      }
    }
  }

  lemma CompiledMeaning(p: string)
    ensures forall s :: AnchoredMatch(Compile(p), s) <==> GlobMatch(p, s)
  {
    forall s
      ensures AnchoredMatch(Compile(p), s) <==> GlobMatch(p, s)
    {
      CompilePreservesMeaning(p, s);
    }
  }

  // ---- consequences -----------------------------------------------------------------------------------

  function Slashes(s: string): nat {
    if s == "" then 0 else (if s[0] == '/' then 1 else 0) + Slashes(s[1..])
  }

  predicate HasDoubleStar(p: string) {
    exists i | 0 <= i < |p| - 1 :: p[i] == '*' && p[i + 1] == '*'
  }

  /** Without `**`, a match has exactly the pattern's segments: wildcards never cross a slash. */
  lemma {:induction false} SingleStarKeepsSegments(p: string, s: string)
    requires GlobMatch(p, s) && !HasDoubleStar(p)
    ensures Slashes(s) == Slashes(p)
    decreases |p| + |s|
  {
    if p != "" {
      assert !(|p| >= 2 && p[0] == '*' && p[1] == '*');
      assert !HasDoubleStar(p[1..]) by {
        assert forall i | 0 <= i < |p[1..]| :: p[1..][i] == p[i + 1];
      }
      if p[0] == '*' && GlobMatch(p[1..], s) {
        SingleStarKeepsSegments(p[1..], s);
      } else if p[0] == '*' {
        SingleStarKeepsSegments(p, s[1..]);
      } else {
        SingleStarKeepsSegments(p[1..], s[1..]);
      }
    }
  }

  /** The parts between slashes. */
  function Segments(s: string): (r: seq<string>)
    ensures r != []
  {
    if s == "" then [""]
    else
      var rest := Segments(s[1..]);
      if s[0] == '/' then [""] + rest else [[s[0]] + rest[0]] + rest[1..]
  }

  /** As many segments, and each matches its counterpart. */
  predicate SegmentsMatch(ps: seq<string>, ss: seq<string>) {
    |ps| == |ss| && forall i | 0 <= i < |ps| :: GlobMatch(ps[i], ss[i])
  }

  lemma {:induction false} SegmentsMatchCons(p: string, ps: seq<string>, s: string, ss: seq<string>)
    ensures SegmentsMatch([p] + ps, [s] + ss) <==> GlobMatch(p, s) && SegmentsMatch(ps, ss)
  {
    var P, S := [p] + ps, [s] + ss;
    assert P[0] == p && S[0] == s && P[1..] == ps && S[1..] == ss;
    if SegmentsMatch(P, S) {
      MatchBehindFirst(P, S);
    }
  }

  lemma {:induction false} MatchBehindFirst(ps: seq<string>, ss: seq<string>)
    requires ps != [] && SegmentsMatch(ps, ss)
    ensures GlobMatch(ps[0], ss[0]) && SegmentsMatch(ps[1..], ss[1..])
  {
    forall i | 0 <= i < |ps| - 1
      ensures GlobMatch(ps[1..][i], ss[1..][i])
    {
      assert ps[1..][i] == ps[i + 1] && ss[1..][i] == ss[i + 1];
    }
  }

  /** How the first character splits off. */
  lemma SegmentsCons(s: string)
    requires s != ""
    ensures var rest := Segments(s[1..]);
            && rest == [rest[0]] + rest[1..]
            && Segments(s) == if s[0] == '/' then [""] + rest else [[s[0]] + rest[0]] + rest[1..]
  {
  }

  lemma {:induction false} FirstSegment(s: string)
    ensures Segments(s)[0] != "" <==> s != "" && s[0] != '/'
    ensures |s| > 0 && s[0] != '/' ==> Segments(s)[0][0] == s[0]
    ensures Segments(s) == [Segments(s)[0]] + Segments(s)[1..]
  {
  }

  lemma NoDoubleStarBehind(p: string)
    requires p != "" && !HasDoubleStar(p)
    ensures !HasDoubleStar(p[1..]) && !(|p| >= 2 && p[0] == '*' && p[1] == '*')
  {
    assert forall i | 0 <= i < |p[1..]| :: p[1..][i] == p[i + 1];
  }

  /** One star in front of a segment. */
  lemma StarInSegment(p: string, s: string)
    requires p != "" ==> p[0] != '*'
    ensures GlobMatch("*" + p, s) <==> GlobMatch(p, s) || (s != "" && s[0] != '/' && GlobMatch("*" + p, s[1..]))
  {
    assert ("*" + p)[1..] == p;
  }

  lemma {:induction false} StarBySegment(p: string, s: string)
    requires p != "" && p[0] == '*' && !HasDoubleStar(p)
    ensures GlobMatch(p, s) <==> SegmentsMatch(Segments(p), Segments(s))
    decreases |p| + |s|, 0
  {
    NoDoubleStarBehind(p);
    SegmentsCons(p);
    FirstSegment(p[1..]);
    FirstSegment(s);
    var P, S := Segments(p[1..]), Segments(s);
    SingleStarMatchesBySegment(p[1..], s);
    SegmentsMatchCons(P[0], P[1..], S[0], S[1..]);
    SegmentsMatchCons("*" + P[0], P[1..], S[0], S[1..]);
    StarInSegment(P[0], S[0]);
    if s != "" && s[0] != '/' {
      SegmentsCons(s);
      var R := Segments(s[1..]);
      SingleStarMatchesBySegment(p, s[1..]);
      SegmentsMatchCons("*" + P[0], P[1..], R[0], R[1..]);
      assert S[0][1..] == R[0];
    }
  }

  lemma {:induction false} CharBySegment(p: string, s: string)
    requires p != "" && p[0] != '*' && !HasDoubleStar(p)
    ensures GlobMatch(p, s) <==> SegmentsMatch(Segments(p), Segments(s))
    decreases |p| + |s|, 0
  {
    NoDoubleStarBehind(p);
    SegmentsCons(p);
    FirstSegment(s);
    var P, S := Segments(p[1..]), Segments(s);
    if s != "" {
      SegmentsCons(s);
      var R := Segments(s[1..]);
      SingleStarMatchesBySegment(p[1..], s[1..]);
      SegmentsMatchCons(P[0], P[1..], R[0], R[1..]);
      if p[0] == '/' {
        SegmentsMatchCons("", P, S[0], S[1..]);
        SegmentsMatchCons("", P, "", R);
      } else {
        SegmentsMatchCons([p[0]] + P[0], P[1..], S[0], S[1..]);
        CharInSegment(p[0], P[0], S[0]);
        assert s[0] != '/' ==> S[0][1..] == R[0];
      }
    } else {
      SegmentsMatchCons(Segments(p)[0], Segments(p)[1..], "", []);
      assert [""] + [] == S;
      if p[0] != '/' {
        CharInSegment(p[0], P[0], "");
      }
    }
  }

  lemma CharInSegment(c: char, p: string, s: string)
    requires c != '*'
    ensures GlobMatch([c] + p, s) <==> s != "" && (if c == '?' then s[0] != '/' else s[0] == c) && GlobMatch(p, s[1..])
  {
    assert ([c] + p)[1..] == p;
  }

  /** Without `**` a glob matches segment by segment, and in no other way. */
  lemma {:induction false} SingleStarMatchesBySegment(p: string, s: string)
    requires !HasDoubleStar(p)
    ensures GlobMatch(p, s) <==> SegmentsMatch(Segments(p), Segments(s))
    decreases |p| + |s|, 1
  {
    FirstSegment(s);
    if p == "" {
      SegmentsMatchCons("", [], Segments(s)[0], Segments(s)[1..]);
      assert [""] + [] == Segments(p);
    } else if p[0] == '*' {
      StarBySegment(p, s);
    } else {
      CharBySegment(p, s);
    }
  }

  // ---- filters ------------------------------------------------------------------------------------------

  predicate HasWildcard(p: string) {
    '*' in p || '?' in p
  }

  function Literal(p: string): (rs: seq<Regex>)
    ensures |rs| == |p|
  {
    seq(|p|, i requires 0 <= i < |p| => Char(p[i]))
  }

  /** `compile_path_pattern`: a plain path stands for itself and everything below it. */
  function CompilePathPattern(p: string): seq<seq<Regex>> {
    if HasWildcard(p) then [Compile(p)]
    else [Literal(p), Literal(p) + [Char('/'), Star(Dot)]]
  }

  lemma {:induction false} LiteralText(p: string)
    ensures AllEmitted(Literal(p)) && TextOf(Literal(p)) == Escaped(p)
  {
    if p != "" {
      assert Literal(p)[1..] == Literal(p[1..]);
      LiteralText(p[1..]);
    }
  }

  lemma BelowText(below: seq<Regex>)
    requires below == [Char('/'), Star(Dot)]
    ensures AllEmitted(below) && TextOf(below) == "/.*"
  {
    var rest := below[1..];
    assert rest[0] == Star(Dot) && rest[1..] == [];
    assert TextOf(rest) == ".*" + "";
    assert Text(below[0]) == "/";
  }

  /** The two expressions for a plain path, as they are written. */
  lemma PlainPathText(p: string)
    ensures ReadRegex(Anchored(Escaped(p))) == Some(Literal(p))
    ensures ReadRegex(Anchored(Escaped(p) + "/.*")) == Some(Literal(p) + [Char('/'), Star(Dot)])
  {
    var below := [Char('/'), Star(Dot)];
    LiteralText(p);
    AnchoredReadsBack(Literal(p), Escaped(p));
    BelowText(below);
    TextOfAppend(Literal(p), below);
    AnchoredReadsBack(Literal(p) + below, Escaped(p) + "/.*");
  }

  /** What a normalized pattern promises to select. */
  predicate Selects(p: string, path: string) {
    if HasWildcard(p) then GlobMatch(p, path)
    else path == p || (p + "/" <= path && '\n' !in path[|p| + 1..])
  }

  lemma {:induction false} LiteralThen(p: string, rest: seq<Regex>, s: string)
    ensures AnchoredMatch(Literal(p) + rest, s) <==> p <= s && AnchoredMatch(rest, s[|p|..])
  {
    if p == "" {
      assert Literal(p) + rest == rest && s[0..] == s;
    } else {
      assert Literal(p) + rest == [Char(p[0])] + (Literal(p[1..]) + rest);
      ClassThen(Char(p[0]), Literal(p[1..]) + rest, s);
      if s != "" {
        LiteralThen(p[1..], rest, s[1..]);
        if s[0] == p[0] {
          assert p <= s <==> p[1..] <= s[1..] by {
            assert p == [p[0]] + p[1..] && s == [s[0]] + s[1..];
          }
          if p <= s {
            assert s[|p|..] == s[1..][|p| - 1..];
          }
        }
      }
    }
  }

  lemma {:induction false} AnyTail(s: string)
    ensures AnchoredMatch([Star(Dot)], s) <==> '\n' !in s
    decreases |s|
  {
    assert [Star(Dot)] + [] == [Star(Dot)];
    StarThen(Dot, [], s);
    if s != "" {
      AnyTail(s[1..]);
      assert s == [s[0]] + s[1..];
    }
  }

  /** A compiled pattern matches exactly the paths the pattern selects. */
  lemma PatternMeaning(p: string, path: string)
    ensures (exists i | 0 <= i < |CompilePathPattern(p)| :: AnchoredMatch(CompilePathPattern(p)[i], path))
            <==> Selects(p, path)
    ensures Selects(p, path) <==>
            if '*' in p || '?' in p then GlobMatch(p, path)
            else path == p || (p + "/" <= path && '\n' !in path[|p| + 1..])
  {
    var rs := CompilePathPattern(p);
    if HasWildcard(p) {
      CompilePreservesMeaning(p, path);
      assert rs[0] == Compile(p);
    } else {
      assert Literal(p) + [] == Literal(p);
      LiteralThen(p, [], path);
      LiteralThen(p, [Char('/'), Star(Dot)], path);
      assert rs[0] == Literal(p) && rs[1] == Literal(p) + [Char('/'), Star(Dot)];
      if p <= path {
        var tail := path[|p|..];
        assert [Char('/'), Star(Dot)] == [Char('/')] + [Star(Dot)];
        ClassThen(Char('/'), [Star(Dot)], tail);
        assert path == p + tail;
        if tail != "" {
          AnyTail(tail[1..]);
          assert tail[1..] == path[|p| + 1..];
          assert p + "/" <= path <==> tail[0] == '/';
        }
      }
    }
  }

  /** Backslashes read as slashes. */
  function ForwardSlashes(s: string): (r: string)
    ensures |r| == |s|
  {
    seq(|s|, i requires 0 <= i < |s| => if s[i] == '\\' then '/' else s[i])
  }

  function DropLeading(s: string, lead: string): (r: string)
    requires lead != ""
    ensures !(lead <= r)
    decreases |s|
  {
    if lead <= s then DropLeading(s[|lead|..], lead) else s
  }

  /** `normalize_path_pattern`: a blank pattern is an error. */
  function NormalizePattern(p: string): Option<string> {
    var trimmed := Trim(p);
    if trimmed == "" then None
    else Some(DropLeading(DropLeading(ForwardSlashes(trimmed), "./"), "/"))
  }

  /** `FilePathFilter::compile`. */
  function CompileFilter(patterns: seq<string>): Option<seq<seq<Regex>>> {
    if patterns == [] then Some([])
    else
      var first := NormalizePattern(patterns[0]);
      var rest := CompileFilter(patterns[1..]);
      if first.None? || rest.None? then None else Some(CompilePathPattern(first.value) + rest.value)
  }

  ghost predicate SomeMatches(rs: seq<seq<Regex>>, path: string) {
    exists i | 0 <= i < |rs| :: AnchoredMatch(rs[i], path)
  }

  /** `FilePathFilter::matches`: a filter without patterns matches everything. */
  ghost predicate FilterMatches(rs: seq<seq<Regex>>, path: string) {
    rs == [] || SomeMatches(rs, ForwardSlashes(path))
  }

  predicate SomeSelects(patterns: seq<string>, path: string) {
    patterns != [] &&
    (|| (NormalizePattern(patterns[0]).Some? && Selects(NormalizePattern(patterns[0]).value, path))
     || SomeSelects(patterns[1..], path))
  }

  lemma {:induction false} CompiledSelect(patterns: seq<string>, path: string)
    requires CompileFilter(patterns).Some?
    ensures SomeMatches(CompileFilter(patterns).value, path) <==> SomeSelects(patterns, path)
    ensures CompileFilter(patterns).value == [] <==> patterns == []
  {
    if patterns != [] {
      var first := NormalizePattern(patterns[0]).value;
      var a, b := CompilePathPattern(first), CompileFilter(patterns[1..]).value;
      CompiledSelect(patterns[1..], path);
      PatternMeaning(first, path);
      assert SomeMatches(a + b, path) <==> SomeMatches(a, path) || SomeMatches(b, path) by {
        assert forall i | 0 <= i < |a| :: (a + b)[i] == a[i];
        assert forall i | 0 <= i < |b| :: (a + b)[|a| + i] == b[i];
      }
    }
  }

  /** A compiled filter accepts a path exactly when it is empty or some pattern selects the path. */
  lemma FilterMeaning(patterns: seq<string>, path: string)
    requires CompileFilter(patterns).Some?
    ensures FilterMatches(CompileFilter(patterns).value, path) <==>
            patterns == [] || SomeSelects(patterns, ForwardSlashes(path))
  {
    CompiledSelect(patterns, ForwardSlashes(path));
  }

  lemma {:induction false} CompileRejectsBlank(patterns: seq<string>)
    ensures CompileFilter(patterns).None? <==> exists i | 0 <= i < |patterns| :: Trim(patterns[i]) == ""
  {
    if patterns != [] {
      CompileRejectsBlank(patterns[1..]);
      assert forall i | 0 <= i < |patterns| - 1 :: patterns[1..][i] == patterns[i + 1];
      assert Trim(patterns[0]) == "" ==> exists i | 0 <= i < |patterns| :: Trim(patterns[i]) == "";
    }
  }

  // ---- normalization ------------------------------------------------------------------------------------------

  lemma ForwardAppend(a: string, b: string)
    ensures ForwardSlashes(a + b) == ForwardSlashes(a) + ForwardSlashes(b)
  {
  }

  /** Separators of either kind in a path make no difference. */
  lemma EitherSeparator(rs: seq<seq<Regex>>, a: string, b: string)
    ensures FilterMatches(rs, a + "\\" + b) <==> FilterMatches(rs, a + "/" + b)
  {
    assert ForwardSlashes(a + "\\" + b) == ForwardSlashes(a + "/" + b);
  }

  lemma DropsOne(lead: string, s: string)
    requires lead != ""
    ensures DropLeading(lead + s, lead) == DropLeading(s, lead)
  {
    assert (lead + s)[|lead|..] == s;
  }

  lemma TrimmedBehind(lead: string, p: string)
    requires lead != "" && p != "" && Trimmed(lead) && Trimmed(p)
    ensures Trim(lead + p) == lead + p && lead + p != "" && Trim(p) == p
  {
    TrimIsTrimmed(lead + p);
    TrimIsTrimmed(p);
  }

  /** A pattern behind `./` means what it means without, also with backslashes. */
  lemma DotSlashIsDropped(p: string)
    requires p != "" && Trimmed(p)
    ensures NormalizePattern("./" + p) == NormalizePattern(p) && NormalizePattern(".\\" + p) == NormalizePattern(p)
  {
    TrimmedBehind("./", p);
    TrimmedBehind(".\\", p);
    ForwardAppend("./", p);
    ForwardAppend(".\\", p);
    assert ForwardSlashes("./") == "./" && ForwardSlashes(".\\") == "./";
    DropsOne("./", ForwardSlashes(p));
  }

  lemma {:induction false} DropLeadingLength(s: string, lead: string)
    requires lead != ""
    ensures |DropLeading(s, lead)| <= |s|
    decreases |s|
  {
    if lead <= s {
      DropLeadingLength(s[|lead|..], lead);
    }
  }

  lemma NoLead(s: string, lead: string)
    requires lead != "" && !(lead <= s)
    ensures DropLeading(s, lead) == s
  {
  }

  /** Behind a single slash a pattern means what it means without exactly when it does not begin with `./`. */
  lemma SlashIsDropped(p: string, s: string)
    requires p != "" && Trimmed(p) && s == ForwardSlashes(p)
    ensures NormalizePattern("/" + p) == NormalizePattern(p) <==> !("./" <= s)
  {
    TrimmedBehind("/", p);
    ForwardAppend("/", p);
    assert ForwardSlashes("/") == "/";
    var t := "/" + s;
    assert t[0] == '/' && !("./" <= t);
    NoLead(t, "./");
    DropsOne("/", s);
    if "./" <= s {
      assert s[0] == '.' && !("/" <= s);
      NoLead(s, "/");
      DropLeadingLength(s[2..], "./");
      DropLeadingLength(DropLeading(s, "./"), "/");
    } else {
      NoLead(s, "./");
    }
  }

  /** So such patterns select the same paths. */
  lemma DotSlashSelectsTheSame(p: string, rest: seq<string>, path: string)
    requires p != "" && Trimmed(p)
    ensures SomeSelects(["./" + p] + rest, path) <==> SomeSelects([p] + rest, path)
  {
    DotSlashIsDropped(p);
    assert (["./" + p] + rest)[1..] == rest && ([p] + rest)[1..] == rest;
  }
}
