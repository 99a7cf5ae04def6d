/**
  The text layer of the query language (crates/query/src/lib.rs): splitting a line into tokens,
  tokens into fields and positional arguments, and field texts into values.
*/
module QueryText {
  import opened Results
  import opened Whitespace

  function Concat(parts: seq<string>): string {
    if parts == [] then "" else parts[0] + Concat(parts[1..])
  }

  lemma {:induction false} ConcatAppend(a: seq<string>, b: seq<string>)
    ensures Concat(a + b) == Concat(a) + Concat(b)
  {
    if a == [] {
      assert a + b == b;
    } else {
      assert (a + b)[1..] == a[1..] + b;
      ConcatAppend(a[1..], b);
    }
  }

  // ---- tokens ------------------------------------------------------------------------------------------

  /** Inside quotes, and inside how many brackets. */
  datatype Mode = Mode(quoted: bool, depth: nat)

  const OUTSIDE := Mode(false, 0)

  /** How one character, not behind a backslash in quotes, changes the mode. */
  function Enter(c: char, mode: Mode): Mode {
    if c == '"' then mode.(quoted := !mode.quoted)
    else if mode.quoted then mode
    else if c == '[' then mode.(depth := mode.depth + 1)
    else if c == ']' then mode.(depth := if mode.depth == 0 then 0 else mode.depth - 1)
    else mode
  }

  /** Whether a character separates tokens. */
  predicate Separates(c: char, mode: Mode) {
    IsWhitespace(c) && mode == OUTSIDE
  }

  /** The input without the white space outside quotes and brackets, or nothing if a quote stays open. */
  function Essence(s: string, mode: Mode): Option<string>
    decreases |s|
  {
    if s == "" then if mode.quoted then None else Some("")
    else if s[0] == '\\' && mode.quoted then
      if |s| == 1 then None
      else Prepend(s[..2], Essence(s[2..], mode))
    else if Separates(s[0], mode) then Essence(s[1..], mode)
    else Prepend(s[..1], Essence(s[1..], Enter(s[0], mode)))
  }

  function Prepend(front: string, rest: Option<string>): Option<string> {
    if rest.None? then None else Some(front + rest.value)
  }

  function Flush(current: string): seq<string> {
    if current == "" then [] else [current]
  }

  /** The tokens of `s`, read in `mode` with `current` collected so far. */
  function Tokens(s: string, mode: Mode, current: string): Option<seq<string>>
    decreases |s|
  {
    if s == "" then if mode.quoted then None else Some(Flush(current))
    else if s[0] == '\\' && mode.quoted then
      if |s| == 1 then Tokens("", mode, current) else Tokens(s[2..], mode, current + s[..2])
    else if Separates(s[0], mode) then
      var rest := Tokens(s[1..], mode, "");
      if rest.None? then None else Some(Flush(current) + rest.value)
    else Tokens(s[1..], Enter(s[0], mode), current + s[..1])
  }

  function Joined(tokens: seq<string>, rest: Option<seq<string>>): Option<seq<string>> {
    if rest.None? then None else Some(tokens + rest.value)
  }

  lemma JoinedTwice(a: seq<string>, b: seq<string>, rest: Option<seq<string>>)
    ensures Joined(a, Joined(b, rest)) == Joined(a + b, rest)
  {
    assert rest.Some? ==> a + (b + rest.value) == a + b + rest.value;
  }

  /** A backslash in quotes takes the next character with it; at the end of the input it is dropped. */
  lemma EscapeStep(input: string, i: nat, mode: Mode, current: string)
    requires i < |input| && input[i] == '\\' && mode.quoted
    ensures Tokens(input[i..], mode, current)
         == if i + 1 < |input| then Tokens(input[i + 2..], mode, current + [input[i], input[i + 1]])
            else Tokens(input[i + 1..], mode, current)
  {
    var rest := input[i..];
    if i + 1 < |input| {
      assert rest[2..] == input[i + 2..] && rest[..2] == [input[i], input[i + 1]];
    }
  }

  lemma CharStep(input: string, i: nat, mode: Mode, current: string)
    requires i < |input| && !(input[i] == '\\' && mode.quoted)
    ensures Tokens(input[i..], mode, current)
         == if Separates(input[i], mode) then Joined(Flush(current), Tokens(input[i + 1..], mode, ""))
            else Tokens(input[i + 1..], Enter(input[i], mode), current + [input[i]])
  {
    var rest := input[i..];
    assert rest[1..] == input[i + 1..] && rest[..1] == [input[i]];
  }

  /** `tokenize`. */
  method Tokenize(input: string) returns (r: Option<seq<string>>)
    ensures r == Tokens(input, OUTSIDE, "")
    ensures r.Some? <==> Essence(input, OUTSIDE).Some?
    ensures r.Some? ==> "" !in r.value && Concat(r.value) == Essence(input, OUTSIDE).value
  {
    Lossless(input, OUTSIDE, "");
    ghost var all := Tokens(input, OUTSIDE, "");
    var tokens: seq<string>, current, mode, i := [], "", OUTSIDE, 0;
    assert input[0..] == input && (all.Some? ==> [] + all.value == all.value);
    while i < |input|
      invariant 0 <= i <= |input|
      invariant Joined(tokens, Tokens(input[i..], mode, current)) == all
    {
      var ch := input[i];
      i := i + 1;
      if ch == '\\' && mode.quoted {
        EscapeStep(input, i - 1, mode, current);
        if i < |input| {
          current := current + [ch, input[i]];
          i := i + 1;
        }
      } else {
        CharStep(input, i - 1, mode, current);
        if Separates(ch, mode) {
          JoinedTwice(tokens, Flush(current), Tokens(input[i..], mode, ""));
          tokens := tokens + Flush(current);
          current := "";
        } else {
          mode := Enter(ch, mode);
          current := current + [ch];
        }
      }
    }
    assert input[i..] == "";
    if mode.quoted {
      return None;
    }
    return Some(tokens + Flush(current));
  }

  /** Tokens are never empty and together are exactly the essence of the input. */
  lemma {:induction false} Lossless(s: string, mode: Mode, current: string)
    ensures Tokens(s, mode, current).Some? <==> Essence(s, mode).Some?
    ensures Tokens(s, mode, current).Some? ==>
              && "" !in Tokens(s, mode, current).value
              && Concat(Tokens(s, mode, current).value) == current + Essence(s, mode).value
    decreases |s|
  {
    FlushConcat(current);
    if s == "" {
    } else if s[0] == '\\' && mode.quoted {
      if |s| > 1 {
        Lossless(s[2..], mode, current + s[..2]);
      }
    } else if Separates(s[0], mode) {
      Lossless(s[1..], mode, "");
      if Essence(s[1..], mode).Some? {
        ConcatAppend(Flush(current), Tokens(s[1..], mode, "").value);
      }
    } else {
      Lossless(s[1..], Enter(s[0], mode), current + s[..1]);
    }
  }

  lemma FlushConcat(current: string)
    ensures Concat(Flush(current)) == current && "" !in Flush(current)
  {
    assert [current][1..] == [];
  }

  // ---- values ------------------------------------------------------------------------------------------

  /** The first character without its backslash, and how many characters it took. */
  function NextChar(s: string): (r: (char, nat))
    requires s != ""
    ensures 0 < r.1 <= |s|
  {
    if s[0] == '\\' && |s| >= 2 then (s[1], 2) else (s[0], 1)
  }

  function Unescape(s: string): string
    decreases |s|
  {
    if s == "" then "" else [NextChar(s).0] + Unescape(s[NextChar(s).1..])
  }

  lemma UnescapeFrom(s: string, i: nat, done: string)
    requires i < |s| && done + Unescape(s[i..]) == Unescape(s)
    ensures var (c, width) := NextChar(s[i..]);
            (done + [c]) + Unescape(s[i + width..]) == Unescape(s)
  {
    var (c, width) := NextChar(s[i..]);
    assert s[i..][width..] == s[i + width..];
    assert done + ([c] + Unescape(s[i + width..])) == (done + [c]) + Unescape(s[i + width..]);
  }

  /** `unescape_quoted`. */
  method UnescapeQuoted(value: string) returns (result: string)
    ensures result == Unescape(value)
  {
    result := "";
    var i := 0;
    while i < |value|
      invariant 0 <= i <= |value|
      invariant result + Unescape(value[i..]) == Unescape(value)
    {
      UnescapeFrom(value, i, result);
      var ch, width := value[i], 1;
      if ch == '\\' && i + 1 < |value| {
        ch, width := value[i + 1], 2;
      }
      assert (ch, width) == NextChar(value[i..]);
      result, i := result + [ch], i + width;
    }
    assert value[i..] == "" && result + "" == result;
  }

  /** `scalar_value`. */
  function ScalarValue(value: string): string {
    var t := Trim(value);
    if |t| >= 2 && t[0] == '"' && t[|t| - 1] == '"' then Unescape(t[1..|t| - 1]) else Unescape(t)
  }

  function Escape(s: string): string {
    if s == "" then ""
    else EscapeOne(s[0]) + Escape(s[1..])
  }

  /** A string written as the language wants it: quoted, with quotes and backslashes escaped. */
  function Quote(s: string): string {
    "\"" + Escape(s) + "\""
  }

  lemma {:induction false} UnescapeEscape(s: string)
    ensures Unescape(Escape(s)) == s
  {
    if s != "" {
      UnescapeEscape(s[1..]);
      var e := Escape(s);
      assert e[|EscapeOne(s[0])|..] == Escape(s[1..]);
    }
  }

  /** Every string survives quoting. */
  lemma ScalarOfQuote(s: string)
    ensures ScalarValue(Quote(s)) == s
  {
    var q := Quote(s);
    assert Trimmed(q);
    assert q[1..|q| - 1] == Escape(s);
    UnescapeEscape(s);
  }

  // ---- quoted strings are single tokens -------------------------------------------------------------------

  /** A bare word: nothing in it that the tokenizer treats specially. */
  predicate Bare(s: string) {
    forall c | c in s :: !IsWhitespace(c) && c != '"' && c != '[' && c != ']'
  }

  lemma {:induction false} TokensOfBare(word: string, rest: string, depth: nat, current: string)
    requires Bare(word)
    ensures Tokens(word + rest, Mode(false, depth), current) == Tokens(rest, Mode(false, depth), current + word)
    decreases |word|
  {
    if word == "" {
      assert word + rest == rest && current + word == current;
    } else {
      var s := word + rest;
      assert s[1..] == word[1..] + rest && s[..1] == [word[0]];
      assert word[0] in word;
      assert Bare(word[1..]);
      TokensOfBare(word[1..], rest, depth, current + [word[0]]);
      assert current + [word[0]] + word[1..] == current + word;
    }
  }

  function EscapeOne(c: char): string {
    if c == '"' || c == '\\' then ['\\', c] else [c]
  }

  lemma TokensOfEscapeOne(c: char, rest: string, depth: nat, current: string)
    ensures Tokens(EscapeOne(c) + rest, Mode(true, depth), current)
         == Tokens(rest, Mode(true, depth), current + EscapeOne(c))
  {
    var s := EscapeOne(c) + rest;
    assert s[|EscapeOne(c)|..] == rest && s[..|EscapeOne(c)|] == EscapeOne(c);
  }

  lemma {:induction false} TokensOfEscaped(text: string, rest: string, depth: nat, current: string)
    ensures Tokens(Escape(text) + rest, Mode(true, depth), current)
         == Tokens(rest, Mode(true, depth), current + Escape(text))
    decreases |text|
  {
    if text == "" {
      assert Escape(text) + rest == rest && current + Escape(text) == current;
    } else {
      var head, tail := EscapeOne(text[0]), Escape(text[1..]);
      assert Escape(text) + rest == head + (tail + rest);
      TokensOfEscapeOne(text[0], tail + rest, depth, current);
      TokensOfEscaped(text[1..], rest, depth, current + head);
      assert current + head + tail == current + Escape(text);
    }
  }

  lemma TokensOfQuote(text: string, rest: string, depth: nat, current: string)
    ensures Tokens(Quote(text) + rest, Mode(false, depth), current)
         == Tokens(rest, Mode(false, depth), current + Quote(text))
  {
    var s := Quote(text) + rest;
    var tail := "\"" + rest;
    assert s[1..] == Escape(text) + tail && s[..1] == "\"";
    TokensOfEscaped(text, tail, depth, current + "\"");
    assert tail[1..] == rest && tail[..1] == "\"";
    assert current + "\"" + Escape(text) + "\"" == current + Quote(text);
  }

  // ---- fields and positional arguments ---------------------------------------------------------------------

  /** `str::split_once`. */
  function SplitOnce(s: string, c: char): (r: Option<(string, string)>)
    ensures r.None? <==> c !in s
    ensures r.Some? ==> c !in r.value.0 && s == r.value.0 + [c] + r.value.1
  {
    if s == "" then None
    else if s[0] == c then Some(("", s[1..]))
    else
      var rest := SplitOnce(s[1..], c);
      if rest.None? then None else Some(([s[0]] + rest.value.0, rest.value.1))
  }

  function DropCommas(s: string): string {
    if s != "" && s[|s| - 1] == ',' then DropCommas(s[..|s| - 1]) else s
  }

  /** Field keys with their texts, and the positional values. */
  datatype Collected = Collected(fields: seq<(string, string)>, positional: seq<string>)

  function CollectOne(token: string, c: Collected): Collected {
    var field := SplitOnce(token, ':');
    if field.Some? then c.(fields := c.fields + [field.value])
    else c.(positional := c.positional + [ScalarValue(DropCommas(token))])
  }

  function Collect(tokens: seq<string>, c: Collected): Collected {
    if tokens == [] then c else Collect(tokens[1..], CollectOne(tokens[0], c))
  }

  /** `collect_tokens`. */
  method CollectTokens(tokens: seq<string>, c: Collected) returns (r: Collected)
    ensures r == Collect(tokens, c)
  {
    r := c;
    for i := 0 to |tokens|
      invariant Collect(tokens[i..], r) == Collect(tokens, c)
    {
      assert tokens[i..][1..] == tokens[i + 1..];
      r := CollectOne(tokens[i], r);
    }
  }

  const NOTHING := Collected([], [])

  lemma SplitOnceAt(a: string, c: char, b: string)
    requires c !in a
    ensures SplitOnce(a + [c] + b, c) == Some((a, b))
  {
    var s := a + [c] + b;
    assert c == s[|a|];
    var (x, y) := SplitOnce(s, c).value;
    assert s == x + [c] + y && s[|x|] == c;
    assert |x| == |a|;
    assert x == s[..|x|] == a && y == s[|a| + 1..] == b;
  }

  /** A field `key:"..."` is one token, and its value is the quoted string, whatever it contains. */
  lemma QuotedFieldSurvives(key: string, text: string)
    requires Bare(key) && ':' !in key
    ensures var token := key + ":" + Quote(text);
            && Tokens(token, OUTSIDE, "") == Some([token])
            && Collect([token], NOTHING) == Collected([(key, Quote(text))], [])
            && ScalarValue(Quote(text)) == text
  {
    var token := key + ":" + Quote(text);
    var head := key + ":";
    assert token == head + (Quote(text) + "");
    TokensOfBare(head, Quote(text) + "", 0, "");
    TokensOfQuote(text, "", 0, "" + head);
    assert "" + head + Quote(text) == token;
    SplitOnceAt(key, ':', Quote(text));
    assert [token][1..] == [];
    ScalarOfQuote(text);
  }

  lemma {:induction false} ColonInEscape(s: string)
    ensures ':' in Escape(s) <==> ':' in s
  {
    if s != "" {
      ColonInEscape(s[1..]);
      assert s == [s[0]] + s[1..];
    }
  }

  /** As a positional argument a quoted string survives exactly when it has no colon. */
  lemma QuotedPositionalSurvives(text: string)
    ensures Tokens(Quote(text), OUTSIDE, "") == Some([Quote(text)])
    ensures Collect([Quote(text)], NOTHING) == Collected([], [text]) <==> ':' !in text
  {
    var q := Quote(text);
    assert q == q + "" && "" + q == q;
    TokensOfQuote(text, "", 0, "");
    assert [q][1..] == [];
    ColonInEscape(text);
    ScalarOfQuote(text);
    assert ':' in q <==> ':' in text;
    assert DropCommas(q) == q;
  }

  /** A colon splits the quoted string itself: half of it becomes a field key. */
  lemma ColonSplitsQuotedPositional()
    ensures Collect([Quote("a:b")], NOTHING) == Collected([("\"a", "b\"")], [])
  {
    SplitOnceAt("\"a", ':', "b\"");
    assert Escape("a:b") == "a:b" by {
      EscapePlain("a:b");
    }
    assert Quote("a:b") == "\"a" + [':'] + "b\"" && [Quote("a:b")][1..] == [];
  }

  // ---- lists -----------------------------------------------------------------------------------------------

  /** An entry of a list, unless it is blank. */
  function Entry(current: string): seq<string> {
    Flush(Trim(current))
  }

  function SplitStructured(s: string, current: string, quoted: bool): seq<string>
    decreases |s|
  {
    if s == "" then Entry(current)
    else if s[0] == '\\' && quoted then
      if |s| == 1 then Entry(current) else SplitStructured(s[2..], current + [s[1]], quoted)
    else if s[0] == '"' then SplitStructured(s[1..], current, !quoted)
    else if s[0] == ',' && !quoted then Entry(current) + SplitStructured(s[1..], "", quoted)
    else SplitStructured(s[1..], current + [s[0]], quoted)
  }

  /** `split_structured_csv`, with a flag for the character behind a backslash. */
  method SplitStructuredCsv(value: string) returns (entries: seq<string>)
    ensures entries == SplitStructured(value, "", false)
  {
    entries := [];
    var current, quoted, escaped := "", false, false;
    assert value[0..] == value;
    assert forall ts: seq<string> :: [] + ts == ts;
    for i := 0 to |value|
      invariant escaped ==> quoted && i > 0 && value[i - 1] == '\\'
      invariant entries + SplitStructured(value[if escaped then i - 1 else i..], current, quoted)
             == SplitStructured(value, "", false)
    {
      var ch := value[i];
      if escaped {
        assert value[i - 1..][2..] == value[i + 1..];
        current := current + [ch];
        escaped := false;
        continue;
      }
      assert value[i..][1..] == value[i + 1..];
      if ch == '\\' && quoted {
        escaped := true;
      } else if ch == '"' {
        quoted := !quoted;
      } else if ch == ',' && !quoted {
        ghost var rest := SplitStructured(value[i + 1..], "", quoted);
        assert entries + (Entry(current) + rest) == (entries + Entry(current)) + rest;
        entries := entries + Entry(current);
        current := "";
      } else {
        current := current + [ch];
      }
    }
    entries := entries + Entry(current);
  }

  /** `split_csv`. */
  function SplitCsv(s: string, current: string): seq<string>
    decreases |s|
  {
    if s == "" then Entry(current)
    else if s[0] == ',' then Entry(current) + SplitCsv(s[1..], "")
    else SplitCsv(s[1..], current + [s[0]])
  }

  /** `list_values` of a field that takes several values. */
  function ListValues(value: string): seq<string> {
    var scalar := ScalarValue(value);
    if |scalar| >= 2 && scalar[0] == '[' && scalar[|scalar| - 1] == ']'
    then SplitStructured(scalar[1..|scalar| - 1], "", false)
    else SplitCsv(scalar, "")
  }

  predicate Plain(item: string) {
    item != "" && Trimmed(item) && '"' !in item && '\\' !in item
  }

  /** Items in quotes, with commas between them. */
  function Join(items: seq<string>): string {
    if items == [] then ""
    else "\"" + items[0] + "\"" + (if |items| == 1 then "" else "," + Join(items[1..]))
  }

  function ListText(items: seq<string>): string {
    "[" + Join(items) + "]"
  }

  lemma {:induction false} SplitQuotedRun(run: string, rest: string, current: string)
    requires '"' !in run && '\\' !in run
    ensures SplitStructured(run + rest, current, true) == SplitStructured(rest, current + run, true)
    decreases |run|
  {
    if run == "" {
      assert run + rest == rest && current + run == current;
    } else {
      var s := run + rest;
      assert s[1..] == run[1..] + rest && s[0] == run[0] && run[0] in run;
      SplitQuotedRun(run[1..], rest, current + [run[0]]);
      assert current + [run[0]] + run[1..] == current + run;
    }
  }

  lemma SplitQuotedItem(item: string, rest: string)
    requires '"' !in item && '\\' !in item
    ensures SplitStructured("\"" + item + "\"" + rest, "", false) == SplitStructured(rest, item, false)
  {
    var s := "\"" + item + "\"" + rest;
    var tail := "\"" + rest;
    assert s[1..] == item + tail;
    SplitQuotedRun(item, tail, "");
    assert "" + item == item && tail[1..] == rest;
  }

  lemma {:induction false} SplitJoin(items: seq<string>)
    requires forall i | 0 <= i < |items| :: Plain(items[i])
    ensures SplitStructured(Join(items), "", false) == items
  {
    if items != [] {
      assert Plain(items[0]);
      var tail := if |items| == 1 then "" else "," + Join(items[1..]);
      SplitQuotedItem(items[0], tail);
      assert Entry(items[0]) == [items[0]];
      if |items| > 1 {
        assert tail[1..] == Join(items[1..]);
        SplitJoin(items[1..]);
      }
    }
  }

  lemma {:induction false} UnescapePlain(s: string)
    requires '\\' !in s
    ensures Unescape(s) == s
  {
    if s != "" {
      assert s[0] in s;
      UnescapePlain(s[1..]);
    }
  }

  lemma {:induction false} NoBackslashInJoin(items: seq<string>)
    requires forall i | 0 <= i < |items| :: Plain(items[i])
    ensures '\\' !in Join(items)
  {
    if items != [] {
      assert Plain(items[0]);
      NoBackslashInJoin(items[1..]);
    }
  }

  /** Quoted list items come back as they were written, commas, brackets and spaces included. */
  lemma ListSurvives(items: seq<string>)
    requires forall i | 0 <= i < |items| :: Plain(items[i])
    ensures ListValues(ListText(items)) == items
  {
    var text := ListText(items);
    assert Trimmed(text);
    NoBackslashInJoin(items);
    UnescapePlain(text);
    assert text[1..|text| - 1] == Join(items);
    SplitJoin(items);
  }

  lemma {:induction false} EscapePlain(s: string)
    requires '"' !in s && '\\' !in s
    ensures Escape(s) == s
  {
    if s != "" {
      assert s[0] in s;
      EscapePlain(s[1..]);
    }
  }

  lemma {:induction false} TokensOfJoin(items: seq<string>, rest: string, current: string)
    requires forall i | 0 <= i < |items| :: Plain(items[i])
    ensures Tokens(Join(items) + rest, Mode(false, 1), current) == Tokens(rest, Mode(false, 1), current + Join(items))
    decreases |items|
  {
    if items == [] {
      assert Join(items) + rest == rest && current + Join(items) == current;
    } else {
      assert Plain(items[0]);
      EscapePlain(items[0]);
      var q := Quote(items[0]);
      if |items| == 1 {
        assert q == Join(items);
        TokensOfQuote(items[0], rest, 1, current);
      } else {
        var more := Join(items[1..]);
        assert Join(items) + rest == q + ("," + (more + rest));
        TokensOfQuoteComma(items[0], more + rest, current);
        TokensOfJoin(items[1..], rest, current + q + ",");
        assert current + q + "," + more == current + Join(items);
      }
    }
  }

  lemma TokensOfQuoteComma(text: string, rest: string, current: string)
    ensures Tokens(Quote(text) + ("," + rest), Mode(false, 1), current)
         == Tokens(rest, Mode(false, 1), current + Quote(text) + ",")
  {
    TokensOfQuote(text, "," + rest, 1, current);
    TokensOfBare(",", rest, 1, current + Quote(text));
  }

  lemma TokensOfOpening(rest: string, current: string)
    ensures Tokens("[" + rest, OUTSIDE, current) == Tokens(rest, Mode(false, 1), current + "[")
  {
    var s := "[" + rest;
    assert s[1..] == rest && s[..1] == "[";
  }

  lemma TokensOfClosing(rest: string, current: string)
    ensures Tokens("]" + rest, Mode(false, 1), current) == Tokens(rest, OUTSIDE, current + "]")
  {
    var s := "]" + rest;
    assert s[1..] == rest && s[..1] == "]";
  }

  lemma TokensOfList(items: seq<string>, rest: string, current: string)
    requires forall i | 0 <= i < |items| :: Plain(items[i])
    ensures Tokens(ListText(items) + rest, OUTSIDE, current) == Tokens(rest, OUTSIDE, current + ListText(items))
  {
    var join, closing := Join(items), "]" + rest;
    assert ListText(items) + rest == "[" + (join + closing);
    TokensOfOpening(join + closing, current);
    TokensOfJoin(items, closing, current + "[");
    TokensOfClosing(rest, current + "[" + join);
    assert current + "[" + join + "]" == current + ListText(items);
  }

  /** A list field is one token. */
  lemma ListIsOneToken(key: string, items: seq<string>)
    requires Bare(key) && ':' !in key
    requires forall i | 0 <= i < |items| :: Plain(items[i])
    ensures var token := key + ":" + ListText(items);
            && Tokens(token, OUTSIDE, "") == Some([token])
            && Collect([token], NOTHING) == Collected([(key, ListText(items))], [])
  {
    var token := key + ":" + ListText(items);
    var head := key + ":";
    TokensOfBare(head, ListText(items), 0, "");
    assert "" + head == head && head + ListText(items) == token;
    assert ListText(items) + "" == ListText(items);
    TokensOfList(items, "", key + ":");
    SplitOnceAt(key, ':', ListText(items));
    assert [token][1..] == [];
  }

  // ---- whole lines -----------------------------------------------------------------------------------------

  /** What a client writes on a line. */
  datatype Item =
    | QuotedField(key: string, text: string)
    | BareField(key: string, value: string)
    | ListField(key: string, items: seq<string>)
    | Argument(text: string)

  predicate Writable(item: Item) {
    match item
    case QuotedField(key, _) => Bare(key) && ':' !in key
    case BareField(key, value) => Bare(key) && ':' !in key && Bare(value) && '\\' !in value
    case ListField(key, items) => Bare(key) && ':' !in key && forall i | 0 <= i < |items| :: Plain(items[i])
    case Argument(text) => ':' !in text
  }

  predicate AllWritable(items: seq<Item>) {
    forall i | 0 <= i < |items| :: Writable(items[i])
  }

  /** The text behind the colon of a field. */
  function ValueText(item: Item): string
    requires !item.Argument?
  {
    match item
    case QuotedField(_, text) => Quote(text)
    case BareField(_, value) => value
    case ListField(_, items) => ListText(items)
  }

  function Written(item: Item): (r: string)
    ensures r != ""
  {
    if item.Argument? then Quote(item.text) else item.key + ":" + ValueText(item)
  }

  function WrittenAll(items: seq<Item>): seq<string> {
    if items == [] then [] else [Written(items[0])] + WrittenAll(items[1..])
  }

  /** White space behind each item; only behind the last there may be none. */
  predicate Spacing(gaps: seq<string>) {
    forall i | 0 <= i < |gaps| :: Blank(gaps[i]) && (i < |gaps| - 1 ==> gaps[i] != "")
  }

  /** The items on one line, each followed by its own white space. */
  function Line(items: seq<Item>, gaps: seq<string>): string
    requires |gaps| == |items|
  {
    if items == [] then "" else Written(items[0]) + (gaps[0] + Line(items[1..], gaps[1..]))
  }

  /** The items as the parser should see them. */
  function Understood(items: seq<Item>, c: Collected): Collected {
    if items == [] then c
    else
      var item := items[0];
      Understood(items[1..],
                 if item.Argument? then c.(positional := c.positional + [item.text])
                 else c.(fields := c.fields + [(item.key, ValueText(item))]))
  }

  lemma TokensOfItem(item: Item, rest: string)
    requires Writable(item)
    ensures Tokens(Written(item) + rest, OUTSIDE, "") == Tokens(rest, OUTSIDE, Written(item))
  {
    if item.Argument? {
      TokensOfQuote(item.text, rest, 0, "");
      assert "" + Quote(item.text) == Quote(item.text);
    } else {
      var head, value := item.key + ":", ValueText(item);
      assert Written(item) + rest == head + (value + rest) && head + value == Written(item) && "" + head == head;
      TokensOfBare(head, value + rest, 0, "");
      match item
      case QuotedField(_, text) => TokensOfQuote(text, rest, 0, head);
      case BareField(_, bare) => TokensOfBare(bare, rest, 0, head);
      case ListField(_, items) => TokensOfList(items, rest, head);
    }
  }

  lemma {:induction false} TokensOfGap(gap: string, rest: string)
    requires Blank(gap)
    ensures Tokens(gap + rest, OUTSIDE, "") == Tokens(rest, OUTSIDE, "")
  {
    if gap == "" {
      assert gap + rest == rest;
    } else {
      var s := gap + rest;
      assert gap[0] in gap && s[1..] == gap[1..] + rest;
      TokensOfGap(gap[1..], rest);
      var after := Tokens(rest, OUTSIDE, "");
      assert after.Some? ==> [] + after.value == after.value;
    }
  }

  lemma TokensBeforeGap(word: string, gap: string, rest: string)
    requires word != "" && Blank(gap) && (gap == "" ==> rest == "")
    ensures Tokens(gap + rest, OUTSIDE, word) == Joined([word], Tokens(rest, OUTSIDE, ""))
  {
    if gap != "" {
      var s := gap + rest;
      assert gap[0] in gap && s[1..] == gap[1..] + rest;
      TokensOfGap(gap[1..], rest);
    } else {
      assert gap + rest == "" && [word] + [] == [word];
    }
  }

  lemma {:induction false} TokensOfLine(items: seq<Item>, gaps: seq<string>)
    requires AllWritable(items) && Spacing(gaps) && |gaps| == |items|
    ensures Tokens(Line(items, gaps), OUTSIDE, "") == Some(WrittenAll(items))
  {
    if items != [] {
      var tail := Line(items[1..], gaps[1..]);
      assert Writable(items[0]) && Blank(gaps[0]);
      TokensOfItem(items[0], gaps[0] + tail);
      TokensBeforeGap(Written(items[0]), gaps[0], tail);
      TokensOfLine(items[1..], gaps[1..]);
    }
  }

  lemma CollectItem(item: Item, c: Collected)
    requires Writable(item)
    ensures CollectOne(Written(item), c) == Understood([item], c)
  {
    assert [item][1..] == [];
    if item.Argument? {
      var q := Quote(item.text);
      ColonInEscape(item.text);
      assert ':' !in q && DropCommas(q) == q;
      ScalarOfQuote(item.text);
    } else {
      SplitOnceAt(item.key, ':', ValueText(item));
    }
  }

  /** A line with a single field. */
  lemma OneFieldSurvives(item: Item, word: string)
    requires Writable(item) && !item.Argument? && word == Written(item)
    ensures Tokens(word, OUTSIDE, "") == Some([word])
    ensures Collect([word], NOTHING) == Collected([(item.key, ValueText(item))], [])
  {
    assert word + "" == word && [word][1..] == [] && [item][1..] == [];
    TokensOfItem(item, "");
    CollectItem(item, NOTHING);
  }

  lemma {:induction false} CollectItems(items: seq<Item>, c: Collected)
    requires AllWritable(items)
    ensures Collect(WrittenAll(items), c) == Understood(items, c)
  {
    if items != [] {
      assert Writable(items[0]);
      CollectItem(items[0], c);
      var tokens := WrittenAll(items);
      assert tokens[1..] == WrittenAll(items[1..]) && [items[0]][1..] == [];
      CollectItems(items[1..], CollectOne(tokens[0], c));
    }
  }

  /** What a field's text means, as a scalar or as a list. */
  lemma ValueSurvives(item: Item)
    requires Writable(item) && !item.Argument?
    ensures item.QuotedField? ==> ScalarValue(ValueText(item)) == item.text
    ensures item.BareField? ==> ScalarValue(ValueText(item)) == item.value
    ensures item.ListField? ==> ListValues(ValueText(item)) == item.items
  {
    match item
    case QuotedField(_, text) => ScalarOfQuote(text);
    case BareField(_, value) => BareValueSurvives(value);
    case ListField(_, items) => ListSurvives(items);
  }

  lemma BareValueSurvives(value: string)
    requires Bare(value) && '\\' !in value
    ensures ScalarValue(value) == value
  {
    assert value != "" ==> value[0] in value && value[|value| - 1] in value;
    UnescapePlain(value);
  }

  /**
    A line of any number of fields and arguments, with any white space between them, is read as
    exactly those fields and arguments in order, and every value means what was written.
  */
  lemma LineSurvives(items: seq<Item>, gaps: seq<string>)
    requires AllWritable(items) && Spacing(gaps) && |gaps| == |items|
    ensures Tokens(Line(items, gaps), OUTSIDE, "") == Some(WrittenAll(items))
    ensures Collect(WrittenAll(items), NOTHING) == Understood(items, NOTHING)
    ensures forall i | 0 <= i < |items| ::
              && (items[i].QuotedField? ==> ScalarValue(ValueText(items[i])) == items[i].text)
              && (items[i].BareField? ==> ScalarValue(ValueText(items[i])) == items[i].value)
              && (items[i].ListField? ==> ListValues(ValueText(items[i])) == items[i].items)
  {
    TokensOfLine(items, gaps);
    CollectItems(items, NOTHING);
    forall i | 0 <= i < |items| && !items[i].Argument?
      ensures items[i].QuotedField? ==> ScalarValue(ValueText(items[i])) == items[i].text
      ensures items[i].BareField? ==> ScalarValue(ValueText(items[i])) == items[i].value
      ensures items[i].ListField? ==> ListValues(ValueText(items[i])) == items[i].items
    {
      ValueSurvives(items[i]);
    }
  }

  // ---- bare values, lists and arguments ---------------------------------------------------------------------

  predicate PlainWord(item: string) {
    Plain(item) && ',' !in item
  }

  /** Items with commas between them, without brackets. */
  function CommaText(items: seq<string>): string {
    if items == [] then "" else items[0] + if |items| == 1 then "" else "," + CommaText(items[1..])
  }

  lemma {:induction false} SplitCsvRun(run: string, rest: string, current: string)
    requires ',' !in run
    ensures SplitCsv(run + rest, current) == SplitCsv(rest, current + run)
    decreases |run|
  {
    if run == "" {
      assert run + rest == rest && current + run == current;
    } else {
      var s := run + rest;
      assert s[1..] == run[1..] + rest && s[0] == run[0] && run[0] in run;
      SplitCsvRun(run[1..], rest, current + [run[0]]);
      assert current + [run[0]] + run[1..] == current + run;
    }
  }

  lemma EntryOfPlain(item: string)
    requires Plain(item)
    ensures Entry(item) == [item]
  {
    TrimIsTrimmed(item);
  }

  lemma {:induction false} SplitCommaText(items: seq<string>)
    requires forall i | 0 <= i < |items| :: PlainWord(items[i])
    ensures SplitCsv(CommaText(items), "") == items
  {
    if items != [] {
      assert PlainWord(items[0]);
      var tail := if |items| == 1 then "" else "," + CommaText(items[1..]);
      SplitCsvRun(items[0], tail, "");
      assert "" + items[0] == items[0];
      EntryOfPlain(items[0]);
      if |items| > 1 {
        assert tail[1..] == CommaText(items[1..]);
        SplitCommaText(items[1..]);
      }
    }
  }

  lemma {:induction false} CommaTextEnds(items: seq<string>, t: string)
    requires items != [] && t == CommaText(items) && items[0] != ""
    requires forall i | 0 <= i < |items| :: PlainWord(items[i])
    ensures t != "" && t[0] == items[0][0] && !IsWhitespace(t[0]) && !IsWhitespace(t[|t| - 1]) && '\\' !in t && '"' !in t
  {
    assert PlainWord(items[0]);
    if |items| > 1 {
      assert PlainWord(items[1]);
      CommaTextEnds(items[1..], CommaText(items[1..]));
    }
  }

  /** An unbracketed list `a,b` is read as its items in order, as long as it does not look like a bracketed one. */
  lemma {:induction false} CommaListSurvives(items: seq<string>, t: string)
    requires items != [] && t == CommaText(items) && items[0] != "" && items[0][0] != '['
    requires forall i | 0 <= i < |items| :: PlainWord(items[i])
    ensures ListValues(t) == items
  {
    CommaTextEnds(items, t);
    TrimIsTrimmed(t);
    UnescapePlain(t);
    SplitCommaText(items);
  }

  /** Without quotes a value loses only its escaping. */
  lemma ScalarOfEscaped(s: string)
    requires Trimmed(s)
    ensures ScalarValue(Escape(s)) == s
  {
    EscapeEnds(s);
    TrimIsTrimmed(Escape(s));
    UnescapeEscape(s);
  }

  lemma {:induction false} EscapeEnds(s: string)
    ensures s != "" ==> Escape(s) != "" && Escape(s)[0] == EscapeOne(s[0])[0] && Escape(s)[|Escape(s)| - 1] == s[|s| - 1]
    ensures s == "" ==> Escape(s) == ""
  {
    if s != "" {
      EscapeEnds(s[1..]);
    }
  }

  function Commas(n: nat): string {
    if n == 0 then "" else Commas(n - 1) + ","
  }

  lemma {:induction false} DropsCommas(word: string, n: nat)
    requires word != "" && word[|word| - 1] != ','
    ensures DropCommas(word + Commas(n)) == word
  {
    if n == 0 {
      assert word + Commas(n) == word;
    } else {
      var s := word + Commas(n);
      assert s[..|s| - 1] == word + Commas(n - 1);
      DropsCommas(word, n - 1);
    }
  }

  /** A bare argument is read without the commas behind it. */
  lemma BareArgumentSurvives(word: string, n: nat, token: string)
    requires word != "" && Bare(word) && ':' !in word && '\\' !in word && word[|word| - 1] != ','
    requires token == word + Commas(n)
    ensures Tokens(token, OUTSIDE, "") == Some([token])
    ensures Collect([token], NOTHING) == Collected([], [word])
  {
    CommasAreBare(n);
    assert token == token + "" && "" + token == token && [token][1..] == [];
    TokensOfBare(token, "", 0, "");
    DropsCommas(word, n);
    BareValueSurvives(word);
  }

  lemma {:induction false} CommasAreBare(n: nat)
    ensures Bare(Commas(n)) && ':' !in Commas(n)
  {
    if n > 0 {
      CommasAreBare(n - 1);
    }
  }

  // ---- brackets -------------------------------------------------------------------------------------------------

  /** Text with balanced brackets and no quotes. */
  datatype Bracketed = Nothing | Run(text: string, rest: Bracketed) | Group(inner: Bracketed, rest: Bracketed)

  function Spelled(b: Bracketed): string {
    match b
    case Nothing => ""
    case Run(text, rest) => text + Spelled(rest)
    case Group(inner, rest) => "[" + (Spelled(inner) + ("]" + Spelled(rest)))
  }

  predicate NoMarks(b: Bracketed) {
    match b
    case Nothing => true
    case Run(text, rest) => '"' !in text && '[' !in text && ']' !in text && NoMarks(rest)
    case Group(inner, rest) => NoMarks(inner) && NoMarks(rest)
  }

  lemma {:induction false} TokensOfRun(run: string, rest: string, depth: nat, current: string)
    requires '"' !in run && '[' !in run && ']' !in run && depth > 0
    ensures Tokens(run + rest, Mode(false, depth), current) == Tokens(rest, Mode(false, depth), current + run)
    decreases |run|
  {
    if run == "" {
      assert run + rest == rest && current + run == current;
    } else {
      var s := run + rest;
      assert s[1..] == run[1..] + rest && s[..1] == [run[0]] && run[0] in run;
      TokensOfRun(run[1..], rest, depth, current + [run[0]]);
      assert current + [run[0]] + run[1..] == current + run;
    }
  }

  lemma TokensOfBracket(c: char, rest: string, depth: nat, current: string)
    requires c == '[' || (c == ']' && depth > 0)
    ensures Tokens([c] + rest, Mode(false, depth), current)
         == Tokens(rest, Mode(false, if c == '[' then depth + 1 else depth - 1), current + [c])
  {
    var s := [c] + rest;
    assert s[1..] == rest && s[..1] == [c];
  }

  /** Inside brackets white space does not separate, at any depth. */
  lemma {:induction false} TokensOfBracketed(b: Bracketed, rest: string, depth: nat, current: string)
    requires NoMarks(b) && depth > 0
    ensures Tokens(Spelled(b) + rest, Mode(false, depth), current) == Tokens(rest, Mode(false, depth), current + Spelled(b))
    decreases b, 0
  {
    match b
    case Nothing => assert "" + rest == rest && current + "" == current;
    case Run(text, more) =>
      assert Spelled(b) + rest == text + (Spelled(more) + rest);
      TokensOfRun(text, Spelled(more) + rest, depth, current);
      TokensOfBracketed(more, rest, depth, current + text);
      assert current + text + Spelled(more) == current + Spelled(b);
    case Group(inner, more) =>
      TokensOfGroup(inner, Spelled(more) + rest, depth, current);
      var group := "[" + Spelled(inner) + "]";
      assert Spelled(b) + rest == group + (Spelled(more) + rest);
      TokensOfBracketed(more, rest, depth, current + group);
      assert current + group + Spelled(more) == current + Spelled(b);
  }

  lemma {:induction false} TokensOfGroup(inner: Bracketed, rest: string, depth: nat, current: string)
    requires NoMarks(inner) && depth > 0
    ensures var group := "[" + Spelled(inner) + "]";
            Tokens(group + rest, Mode(false, depth), current) == Tokens(rest, Mode(false, depth), current + group)
    decreases inner, 1
  {
    var group, tail := "[" + Spelled(inner) + "]", "]" + rest;
    assert group + rest == "[" + (Spelled(inner) + tail);
    TokensOfBracket('[', Spelled(inner) + tail, depth, current);
    TokensOfBracketed(inner, tail, depth + 1, current + "[");
    TokensOfBracket(']', rest, depth + 1, current + "[" + Spelled(inner));
    assert current + "[" + Spelled(inner) + "]" == current + group;
  }

  /** A bracketed text is one token, whatever white space and nested brackets it has. */
  lemma BracketedIsOneToken(b: Bracketed, token: string)
    requires NoMarks(b) && token == "[" + (Spelled(b) + "]")
    ensures Tokens(token, OUTSIDE, "") == Some([token])
  {
    TokensOfBracket('[', Spelled(b) + "]", 0, "");
    TokensOfBracketed(b, "]", 1, "" + "[");
    assert "]" == "]" + "";
    TokensOfBracket(']', "", 1, "" + "[" + Spelled(b));
    assert "" + "[" + Spelled(b) + "]" == token;
  }

  /** A closing bracket without an opening one does not swallow the white space behind it. */
  lemma StrayBracket(word: string, token: string)
    requires word != "" && Bare(word) && token == "] " + word
    ensures Tokens(token, OUTSIDE, "") == Some(["]", word])
  {
    assert token[1..] == " " + word && token[..1] == "]" && token[1..][1..] == word;
    assert word == word + "" && "" + word == word;
    TokensOfBare(word, "", 0, "");
    assert "" + "]" == "]" && ["]"] + [word] == ["]", word];
  }
}
