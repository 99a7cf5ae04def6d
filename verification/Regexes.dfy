/**
  The regular expressions the glob compiler emits (crates/workspace/src/glob.rs): their language, and
  their text in the syntax of the `regex` crate.
*/
module Regexes {
  import opened Results

  /** The constructs the compiler emits. `Dot` excludes newline, `NotSlash` is `[^/]`. */
  datatype Regex =
    | Char(c: char)
    | Dot
    | NotSlash
    | Star(r: Regex)
    | Opt(r: Regex)
    | Cat(left: Regex, right: Regex)

  /** The language of a regular expression. */
  ghost predicate InLanguage(r: Regex, s: string)
    decreases r, |s|
  {
    match r
    case Char(c) => s == [c]
    case Dot => |s| == 1 && s[0] != '\n'
    case NotSlash => |s| == 1 && s[0] != '/'
    case Star(q) => s == "" || exists k | 0 < k <= |s| :: InLanguage(q, s[..k]) && InLanguage(r, s[k..])
    case Opt(q) => s == "" || InLanguage(q, s)
    case Cat(a, b) => exists k | 0 <= k <= |s| :: InLanguage(a, s[..k]) && InLanguage(b, s[k..])
  }

  /** The language of expressions one after the other, anchored at both ends. */
  ghost predicate AnchoredMatch(rs: seq<Regex>, s: string) {
    if rs == [] then s == ""
    else exists k | 0 <= k <= |s| :: InLanguage(rs[0], s[..k]) && AnchoredMatch(rs[1..], s[k..])
  }

  // ---- text ---------------------------------------------------------------------------------------

  /** The characters `regex::escape` puts a backslash in front of. */
  predicate IsMeta(c: char) {
    c in {'\\', '.', '+', '*', '?', '(', ')', '|', '[', ']', '{', '}', '^', '$', '#', '&', '-', '~'}
  }

  /** `regex::escape`. */
  function Escaped(s: string): string {
    if s == "" then "" else EscapedChar(s[0]) + Escaped(s[1..])
  }

  function EscapedChar(c: char): string {
    if IsMeta(c) then ['\\', c] else [c]
  }

  lemma EscapedOne(c: char)
    ensures Escaped([c]) == EscapedChar(c)
  {
    var s := [c];
    assert s[0] == c && s[1..] == "";
    assert EscapedChar(c) + "" == EscapedChar(c);
  }

  const DIRS := Cat(Star(Dot), Char('/'))

  /** One character, a class, an escape or the group, and how many characters it takes. */
  function ReadAtom(t: string): (r: Option<(Regex, nat)>)
    ensures r.Some? ==> 0 < r.value.1 <= |t|
  {
    if t == "" then None
    else if "(?:.*/)" <= t then Some((DIRS, 7))
    else if "[^/]" <= t then Some((NotSlash, 4))
    else if t[0] == '.' then Some((Dot, 1))
    else if t[0] == '\\' then if |t| >= 2 && IsMeta(t[1]) then Some((Char(t[1]), 2)) else None
    else if IsMeta(t[0]) then None
    else Some((Char(t[0]), 1))
  }

  predicate IsQuantifier(c: char) {
    c in {'*', '?', '+', '{'}
  }

  /** An atom and the quantifier behind it, if there is one. */
  function ReadPiece(t: string): (r: Option<(Regex, nat)>)
    ensures r.Some? ==> 0 < r.value.1 <= |t|
  {
    var atom := ReadAtom(t);
    if atom.None? then None
    else
      var (r, n) := atom.value;
      if n == |t| || !IsQuantifier(t[n]) then atom
      else if t[n] == '*' then Some((Star(r), n + 1))
      else if t[n] == '?' then Some((Opt(r), n + 1))
      else None
  }

  function ReadPieces(t: string): Option<seq<Regex>>
    decreases |t|
  {
    if t == "" then Some([])
    else
      var piece := ReadPiece(t);
      if piece.None? then None
      else
        var rest := ReadPieces(t[piece.value.1..]);
        if rest.None? then None else Some([piece.value.0] + rest.value)
  }

  /** An expression anchored at both ends; a text outside this part of the syntax is not understood. */
  function ReadRegex(t: string): Option<seq<Regex>> {
    if |t| >= 2 && t[0] == '^' && t[|t| - 1] == '$' then ReadPieces(t[1..|t| - 1]) else None
  }

  /** What the glob compiler puts together. */
  predicate Emitted(r: Regex) {
    r == Opt(DIRS) || r == Star(Dot) || r == Star(NotSlash) || r == NotSlash || r.Char?
  }

  function Text(r: Regex): (t: string)
    requires Emitted(r)
    ensures t != "" && !IsQuantifier(t[0])
  {
    if r == Opt(DIRS) then "(?:.*/)?"
    else if r == Star(Dot) then ".*"
    else if r == Star(NotSlash) then "[^/]*"
    else if r == NotSlash then "[^/]"
    else EscapedChar(r.c)
  }

  predicate AllEmitted(rs: seq<Regex>) {
    forall i | 0 <= i < |rs| :: Emitted(rs[i])
  }

  function TextOf(rs: seq<Regex>): string
    requires AllEmitted(rs)
  {
    if rs == [] then "" else Text(rs[0]) + TextOf(rs[1..])
  }

  lemma AtomReads(c: char, rest: string)
    ensures ReadAtom(EscapedChar(c) + rest) == Some((Char(c), |EscapedChar(c)|))
  {
    var t := EscapedChar(c) + rest;
    assert t[0] == if IsMeta(c) then '\\' else c;
    assert t[0] != '(' && t[0] != '[';
    assert IsMeta(c) ==> t[1] == c;
  }

  lemma PieceReads(r: Regex, rest: string)
    requires Emitted(r) && (rest != "" ==> !IsQuantifier(rest[0]))
    ensures ReadPiece(Text(r) + rest) == Some((r, |Text(r)|))
  {
    var t := Text(r) + rest;
    if r.Char? {
      AtomReads(r.c, rest);
    } else if r == Opt(DIRS) {
      assert "(?:.*/)" <= t && t[7] == '?';
    } else if r == Star(Dot) {
      assert t[0] == '.' && t[1] == '*';
    } else {
      assert "[^/]" <= t;
      assert r == Star(NotSlash) ==> t[4] == '*';
      assert r == NotSlash && rest != "" ==> t[4] == rest[0];
    }
  }

  /** Every emitted text is read back as the expression it was written for. */
  lemma {:induction false} TextReadsBack(rs: seq<Regex>)
    requires AllEmitted(rs)
    ensures ReadPieces(TextOf(rs)) == Some(rs)
  {
    if rs != [] {
      var head, tail := Text(rs[0]), TextOf(rs[1..]);
      PieceReads(rs[0], tail);
      assert (head + tail)[|head|..] == tail;
      TextReadsBack(rs[1..]);
      assert rs == [rs[0]] + rs[1..];
    }
  }

  function Anchored(text: string): string {
    "^" + text + "$"
  }

  lemma AnchoredReads(text: string, t: string)
    requires t == Anchored(text)
    ensures ReadRegex(t) == ReadPieces(text)
  {
    assert t[1..|t| - 1] == text;
  }

  lemma AnchoredReadsBack(rs: seq<Regex>, text: string)
    requires AllEmitted(rs) && text == TextOf(rs)
    ensures ReadRegex(Anchored(text)) == Some(rs)
  {
    AnchoredReads(text, Anchored(text));
    TextReadsBack(rs);
  }

  lemma {:induction false} TextOfAppend(a: seq<Regex>, b: seq<Regex>)
    requires AllEmitted(a) && AllEmitted(b)
    ensures AllEmitted(a + b) && TextOf(a + b) == TextOf(a) + TextOf(b)
  {
    if a == [] {
      assert a + b == b;
    } else {
      assert (a + b)[1..] == a[1..] + b;
      TextOfAppend(a[1..], b);
    }
  }
}
