/**
  The edit distance behind the `did you mean` hints (crates/query/src/lib.rs): a single row updated
  in place computes the least number of single-character edits, and that number is a metric.
*/
module EditDistance {
  import opened Numbers

  function Front(s: string): string
    requires s != ""
  {
    s[..|s| - 1]
  }

  function Last(s: string): char
    requires s != ""
  {
    s[|s| - 1]
  }

  // ---- the specification: chains of single edits -------------------------------------------------

  function Inserted(s: string, at: nat, c: char): string
    requires at <= |s|
  {
    s[..at] + [c] + s[at..]
  }

  function Replaced(s: string, at: nat, c: char): string
    requires at < |s|
  {
    s[at := c]
  }

  /** `b` is `a` with one character inserted, deleted or replaced. */
  ghost predicate OneEdit(a: string, b: string) {
    || (exists k: nat, c | k <= |a| :: b == Inserted(a, k, c))
    || (exists k: nat, c | k <= |b| :: a == Inserted(b, k, c))
    || (exists k: nat, c | k < |a| :: b == Replaced(a, k, c))
  }

  /** `a` becomes `b` by exactly `n` single edits. */
  ghost predicate Edits(a: string, b: string, n: nat)
    decreases n
  {
    if n == 0 then a == b else exists m :: Edits(a, m, n - 1) && OneEdit(m, b)
  }

  // ---- the recurrence ------------------------------------------------------------------------------

  /** The distance of the first `i` characters of `a` and the first `j` of `b`. */
  function Prefixes(a: string, b: string, i: nat, j: nat): (d: nat)
    requires i <= |a| && j <= |b|
    decreases i + j
  {
    if i == 0 then j
    else if j == 0 then i
    else
      Min(Min(Prefixes(a, b, i - 1, j - 1) + (if a[i - 1] != b[j - 1] then 1 else 0),
              Prefixes(a, b, i - 1, j) + 1),
          Prefixes(a, b, i, j - 1) + 1)
  }

  function Distance(a: string, b: string): (d: nat) {
    Prefixes(a, b, |a|, |b|)
  }

  lemma {:induction false} CellStep(a: string, b: string, i: nat, j: nat, diagonal: nat, above: nat, before: nat)
    requires i < |a| && j < |b| && diagonal == Prefixes(a, b, i, j)
    requires above == Prefixes(a, b, i, j + 1) && before == Prefixes(a, b, i + 1, j)
    ensures Prefixes(a, b, i + 1, j + 1)
         == Min(Min(diagonal + if a[i] != b[j] then 1 else 0, above + 1), before + 1)
  {
  }

  /** The row for the first `i` characters. */
  ghost function RowFor(a: string, b: string, i: nat): (row: seq<nat>)
    requires i <= |a|
    ensures |row| == |b| + 1
  {
    seq(|b| + 1, j requires 0 <= j <= |b| => Prefixes(a, b, i, j))
  }

  lemma {:induction false} NextCell(a: string, b: string, i: nat, j: nat, was: seq<nat>, next: seq<nat>)
    requires i < |a| && j < |b| && was == RowFor(a, b, i) && next == RowFor(a, b, i + 1)
    ensures next[j + 1] == Min(Min(was[j] + if a[i] != b[j] then 1 else 0, was[j + 1] + 1), next[j] + 1)
  {
    CellStep(a, b, i, j, was[j], was[j + 1], next[j]);
  }

  /** One pass of the outer loop of `levenshtein` over its only row. */
  method AdvanceRow(row: array<nat>, a: string, b: string, i: nat)
    requires i < |a| && row[..] == RowFor(a, b, i)
    modifies row
    ensures row[..] == RowFor(a, b, i + 1)
  {
    ghost var was, next := row[..], RowFor(a, b, i + 1);
    assert row.Length == |b| + 1;
    var previous := row[0];
    row[0] := i + 1;
    for j := 0 to |b|
      invariant previous == was[j]
      invariant forall k | 0 <= k <= j :: row[k] == next[k]
      invariant forall k | j < k <= |b| :: row[k] == was[k]
    {
      NextCell(a, b, i, j, was, next);
      var substitution := previous + if a[i] != b[j] then 1 else 0;
      previous := row[j + 1];
      row[j + 1] := Min(Min(substitution, previous + 1), row[j] + 1);
    }
  }

  /** `levenshtein`: some chain of `d` edits leads from `a` to `b`, and no shorter one does. */
  method Levenshtein(a: string, b: string) returns (d: nat)
    ensures d == Distance(a, b)
    ensures Edits(a, b, d) && forall n: nat | Edits(a, b, n) :: d <= n
  {
    var row := new nat[|b| + 1](j => j);
    for i := 0 to |a|
      invariant row[..] == RowFor(a, b, i)
    {
      AdvanceRow(row, a, b, i);
    }
    DistanceIsMinimum(a, b);
    return row[|b|];
  }

  /** Characters beyond the prefixes do not matter. */
  lemma {:induction false} PrefixesLocal(a: string, b: string, c: string, d: string, i: nat, j: nat)
    requires i <= |a| && i <= |c| && j <= |b| && j <= |d|
    requires forall k | 0 <= k < i :: a[k] == c[k]
    requires forall k | 0 <= k < j :: b[k] == d[k]
    ensures Prefixes(a, b, i, j) == Prefixes(c, d, i, j)
    decreases i + j
  {
    if i > 0 && j > 0 {
      PrefixesLocal(a, b, c, d, i - 1, j - 1);
      PrefixesLocal(a, b, c, d, i - 1, j);
      PrefixesLocal(a, b, c, d, i, j - 1);
    }
  }

  // ---- alignments ------------------------------------------------------------------------------------

  /** A column-by-column alignment of two strings, the last column on top. */
  datatype Script =
    | Empty
    | Keep(rest: Script, c: char)
    | Replace(rest: Script, c: char, d: char)
    | Insert(rest: Script, d: char)
    | Delete(rest: Script, c: char)

  function From(s: Script): string {
    match s
    case Empty => ""
    case Keep(rest, c) => From(rest) + [c]
    case Replace(rest, c, d) => From(rest) + [c]
    case Insert(rest, d) => From(rest)
    case Delete(rest, c) => From(rest) + [c]
  }

  function To(s: Script): string {
    match s
    case Empty => ""
    case Keep(rest, c) => To(rest) + [c]
    case Replace(rest, c, d) => To(rest) + [d]
    case Insert(rest, d) => To(rest) + [d]
    case Delete(rest, c) => To(rest)
  }

  function Cost(s: Script): nat {
    match s
    case Empty => 0
    case Keep(rest, _) => Cost(rest)
    case Replace(rest, _, _) => Cost(rest) + 1
    case Insert(rest, _) => Cost(rest) + 1
    case Delete(rest, _) => Cost(rest) + 1
  }

  lemma FrontOfSnoc(s: string, c: char)
    ensures Front(s + [c]) == s && Last(s + [c]) == c
  {
  }

  /** The distance of `a` and `b` grows by at most the cost of one more column. */
  lemma OneMoreColumn(a: string, b: string, c: char, d: char)
    ensures Distance(a + [c], b + [d]) <= Distance(a, b) + if c == d then 0 else 1
    ensures Distance(a, b + [d]) <= Distance(a, b) + 1
    ensures Distance(a + [c], b) <= Distance(a, b) + 1
  {
    PrefixesLocal(a, b, a + [c], b + [d], |a|, |b|);
    PrefixesLocal(a, b, a, b + [d], |a|, |b|);
    PrefixesLocal(a, b, a + [c], b, |a|, |b|);
  }

  /** No alignment is cheaper than the recurrence. */
  lemma {:induction false} DistanceIsLeast(s: Script)
    ensures Distance(From(s), To(s)) <= Cost(s)
  {
    if s != Empty {
      DistanceIsLeast(s.rest);
      var c := if s.Insert? then ' ' else s.c;
      var d := if s.Replace? || s.Insert? then s.d else c;
      OneMoreColumn(From(s.rest), To(s.rest), c, d);
    }
  }

  /** Some alignment costs exactly what the recurrence says. */
  lemma {:induction false} BestScript(a: string, b: string, i: nat, j: nat) returns (s: Script)
    requires i <= |a| && j <= |b|
    ensures From(s) == a[..i] && To(s) == b[..j] && Cost(s) == Prefixes(a, b, i, j)
    decreases i + j
  {
    assert i > 0 ==> a[..i] == a[..i - 1] + [a[i - 1]];
    assert j > 0 ==> b[..j] == b[..j - 1] + [b[j - 1]];
    if i == 0 && j == 0 {
      s := Empty;
    } else if i == 0 || (j > 0 && Prefixes(a, b, i, j) == Prefixes(a, b, i, j - 1) + 1) {
      var rest := BestScript(a, b, i, j - 1);
      s := Insert(rest, b[j - 1]);
    } else if j == 0 || Prefixes(a, b, i, j) == Prefixes(a, b, i - 1, j) + 1 {
      var rest := BestScript(a, b, i - 1, j);
      s := Delete(rest, a[i - 1]);
    } else {
      var rest := BestScript(a, b, i - 1, j - 1);
      s := if a[i - 1] == b[j - 1] then Keep(rest, a[i - 1]) else Replace(rest, a[i - 1], b[j - 1]);
    }
  }

  lemma Best(a: string, b: string) returns (s: Script)
    ensures From(s) == a && To(s) == b && Cost(s) == Distance(a, b)
  {
    s := BestScript(a, b, |a|, |b|);
  }

  function Flip(s: Script): Script {
    match s
    case Empty => Empty
    case Keep(rest, c) => Keep(Flip(rest), c)
    case Replace(rest, c, d) => Replace(Flip(rest), d, c)
    case Insert(rest, d) => Delete(Flip(rest), d)
    case Delete(rest, c) => Insert(Flip(rest), c)
  }

  lemma {:induction false} FlipSwaps(s: Script)
    ensures From(Flip(s)) == To(s) && To(Flip(s)) == From(s) && Cost(Flip(s)) == Cost(s)
  {
    if s != Empty {
      FlipSwaps(s.rest);
    }
  }

  lemma SnocInjective(s: string, c: char, t: string, d: char)
    requires s + [c] == t + [d]
    ensures s == t && c == d
  {
    FrontOfSnoc(s, c);
    FrontOfSnoc(t, d);
  }

  /** Two alignments through a common middle string merge into one that costs no more. */
  lemma {:induction false} Compose(s: Script, t: Script) returns (r: Script)
    requires To(s) == From(t)
    ensures From(r) == From(s) && To(r) == To(t) && Cost(r) <= Cost(s) + Cost(t)
    decreases s, t
  {
    if s.Delete? {
      var rest := Compose(s.rest, t);
      return Delete(rest, s.c);
    }
    if t.Insert? {
      var rest := Compose(s, t.rest);
      return Insert(rest, t.d);
    }
    if s.Empty? || t.Empty? {
      return Empty;
    }
    var x := if s.Keep? then s.c else s.d;
    SnocInjective(To(s.rest), x, From(t.rest), t.c);
    var rest := Compose(s.rest, t.rest);
    match t
    case Keep(_, _) =>
      r := if s.Keep? then Keep(rest, s.c) else if s.Replace? then Replace(rest, s.c, s.d) else Insert(rest, s.d);
    case Replace(_, _, d) =>
      r := if s.Insert? then Insert(rest, d) else Replace(rest, s.c, d);
    case Delete(_, _) =>
      r := if s.Insert? then rest else Delete(rest, s.c);
  }

  // ---- the metric --------------------------------------------------------------------------------------

  lemma {:induction false} FreeScriptKeeps(s: Script)
    requires Cost(s) == 0
    ensures From(s) == To(s)
  {
    if s != Empty {
      FreeScriptKeeps(s.rest);
    }
  }

  lemma {:induction false} KeepAll(a: string) returns (s: Script)
    ensures From(s) == a && To(s) == a && Cost(s) == 0
  {
    if a == "" {
      s := Empty;
    } else {
      var rest := KeepAll(Front(a));
      s := Keep(rest, Last(a));
    }
  }

  lemma ZeroIffEqual(a: string, b: string)
    ensures Distance(a, b) == 0 <==> a == b
  {
    var best := Best(a, b);
    if Distance(a, b) == 0 {
      FreeScriptKeeps(best);
    }
    if a == b {
      var same := KeepAll(a);
      DistanceIsLeast(same);
    }
  }

  lemma AtMostFlipped(a: string, b: string)
    ensures Distance(b, a) <= Distance(a, b)
  {
    var best := Best(a, b);
    FlipSwaps(best);
    DistanceIsLeast(Flip(best));
  }

  lemma Symmetric(a: string, b: string)
    ensures Distance(a, b) == Distance(b, a)
  {
    AtMostFlipped(a, b);
    AtMostFlipped(b, a);
  }

  lemma Triangle(a: string, b: string, c: string)
    ensures Distance(a, c) <= Distance(a, b) + Distance(b, c)
  {
    var s := Best(a, b);
    var t := Best(b, c);
    var r := Compose(s, t);
    DistanceIsLeast(r);
  }

  // ---- the recurrence is the least number of edits -----------------------------------------------------

  lemma {:induction false} KeepSuffix(s: Script, suffix: string) returns (r: Script)
    ensures From(r) == From(s) + suffix && To(r) == To(s) + suffix && Cost(r) == Cost(s)
    decreases |suffix|
  {
    if suffix == "" {
      r := s;
    } else {
      var rest := KeepSuffix(s, Front(suffix));
      r := Keep(rest, Last(suffix));
      assert suffix == Front(suffix) + [Last(suffix)];
    }
  }

  lemma InsertionCostsOne(a: string, k: nat, c: char)
    requires k <= |a|
    ensures Distance(a, Inserted(a, k, c)) <= 1
  {
    var prefix := KeepAll(a[..k]);
    var s := KeepSuffix(Insert(prefix, c), a[k..]);
    assert a == a[..k] + a[k..];
    DistanceIsLeast(s);
  }

  lemma OneEditCostsOne(a: string, b: string)
    requires OneEdit(a, b)
    ensures Distance(a, b) <= 1
  {
    if k: nat, c :| k <= |a| && b == Inserted(a, k, c) {
      InsertionCostsOne(a, k, c);
    } else if k: nat, c :| k <= |b| && a == Inserted(b, k, c) {
      InsertionCostsOne(b, k, c);
      Symmetric(a, b);
    } else {
      var k: nat, c :| k < |a| && b == Replaced(a, k, c);
      var prefix := KeepAll(a[..k]);
      var s := KeepSuffix(Replace(prefix, a[k], c), a[k + 1..]);
      assert a == a[..k] + [a[k]] + a[k + 1..];
      assert b == a[..k] + [c] + a[k + 1..];
      DistanceIsLeast(s);
    }
  }

  lemma {:induction false} EditsCostAtLeastDistance(a: string, b: string, n: nat)
    requires Edits(a, b, n)
    ensures Distance(a, b) <= n
    decreases n
  {
    if n == 0 {
      ZeroIffEqual(a, b);
    } else {
      var m :| Edits(a, m, n - 1) && OneEdit(m, b);
      EditsCostAtLeastDistance(a, m, n - 1);
      OneEditCostsOne(m, b);
      Triangle(a, m, b);
    }
  }

  lemma OneEditSnoc(a: string, b: string, x: char)
    requires OneEdit(a, b)
    ensures OneEdit(a + [x], b + [x])
  {
    if k: nat, c :| k <= |a| && b == Inserted(a, k, c) {
      InsertedSnoc(a, k, c, x);
    } else if k: nat, c :| k <= |b| && a == Inserted(b, k, c) {
      InsertedSnoc(b, k, c, x);
    } else {
      var k: nat, c :| k < |a| && b == Replaced(a, k, c);
      assert b + [x] == Replaced(a + [x], k, c);
    }
  }

  lemma InsertedSnoc(a: string, k: nat, c: char, x: char)
    requires k <= |a|
    ensures Inserted(a, k, c) + [x] == Inserted(a + [x], k, c)
  {
    assert (a + [x])[k..] == a[k..] + [x];
  }

  lemma {:induction false} EditsThen(a: string, m: string, b: string, n: nat)
    requires n > 0 && Edits(a, m, n - 1) && OneEdit(m, b)
    ensures Edits(a, b, n)
  {
  }

  lemma {:induction false} EditsSnoc(a: string, b: string, n: nat, x: char)
    requires Edits(a, b, n)
    ensures Edits(a + [x], b + [x], n)
    decreases n
  {
    if n != 0 {
      var m :| Edits(a, m, n - 1) && OneEdit(m, b);
      EditsSnoc(a, m, n - 1, x);
      OneEditSnoc(m, b, x);
      EditsThen(a + [x], m + [x], b + [x], n);
    }
  }

  /** Replacing, inserting or dropping the last character is one edit. */
  lemma LastColumnIsOneEdit(a: string, c: char, d: char)
    ensures OneEdit(a + [c], a + [d]) && OneEdit(a, a + [d]) && OneEdit(a + [c], a)
  {
    assert a + [d] == Replaced(a + [c], |a|, d);
    assert a + [d] == Inserted(a, |a|, d);
    assert a + [c] == Inserted(a, |a|, c);
  }

  lemma {:induction false} ReplaceColumn(a: string, b: string, n: nat, c: char, d: char)
    requires Edits(a, b, n)
    ensures Edits(a + [c], b + [d], n + 1)
  {
    EditsSnoc(a, b, n, c);
    LastColumnIsOneEdit(b, c, d);
    EditsThen(a + [c], b + [c], b + [d], n + 1);
  }

  lemma {:induction false} InsertColumn(a: string, b: string, n: nat, d: char)
    requires Edits(a, b, n)
    ensures Edits(a, b + [d], n + 1)
  {
    LastColumnIsOneEdit(b, d, d);
    EditsThen(a, b, b + [d], n + 1);
  }

  lemma {:induction false} DeleteColumn(a: string, b: string, n: nat, c: char)
    requires Edits(a, b, n)
    ensures Edits(a + [c], b, n + 1)
  {
    EditsSnoc(a, b, n, c);
    LastColumnIsOneEdit(b, c, c);
    EditsThen(a + [c], b + [c], b, n + 1);
  }

  /** What an alignment says, for given strings and cost. */
  predicate Aligns(s: Script, a: string, b: string, n: nat) {
    From(s) == a && To(s) == b && Cost(s) == n
  }

  /** An alignment, read column by column, is a chain of as many edits as it costs. */
  lemma {:induction false} ScriptIsEdits(s: Script, a: string, b: string, n: nat)
    requires Aligns(s, a, b, n)
    ensures Edits(a, b, n)
    decreases s
  {
    if s != Empty {
      var x, y, m := From(s.rest), To(s.rest), Cost(s.rest);
      ScriptIsEdits(s.rest, x, y, m);
      if s.Keep? {
        EditsSnoc(x, y, m, s.c);
      } else if s.Replace? {
        ReplaceColumn(x, y, m, s.c, s.d);
      } else if s.Insert? {
        InsertColumn(x, y, m, s.d);
      } else {
        DeleteColumn(x, y, m, s.c);
      }
    }
  }

  /** The distance is reached by some chain of edits and undercut by none. */
  lemma DistanceIsMinimum(a: string, b: string)
    ensures Edits(a, b, Distance(a, b))
    ensures forall n: nat | Edits(a, b, n) :: Distance(a, b) <= n
  {
    var best := Best(a, b);
    ScriptIsEdits(best, a, b, Distance(a, b));
    forall n: nat | Edits(a, b, n)
      ensures Distance(a, b) <= n
    {
      EditsCostAtLeastDistance(a, b, n);
    }
  }
}
