/**
  Generation-bound paging (crates/daemon/src/pagination.rs), and the cursor as the text a client
  gets and sends back (crates/query/src/lib.rs).
*/
module Paging {
  import opened Numbers
  import opened Results
  import opened QueryText
  import opened QueryRequest
  import Decimal

  datatype Paged<T> = Paged(items: seq<T>, total: nat, next: Option<Cursor>)

  /** `validate_page_cursor` and `page_rows`; `None` is a generation mismatch. */
  function PageRows<T>(rows: seq<T>, page: Page, generation: Option<nat>): Option<Paged<T>> {
    if page.cursor.Some? && page.cursor.value.generation != generation then None
    else
      var start := Min(if page.cursor.Some? then page.cursor.value.offset else 0, |rows|);
      var end := Min(start + page.limit, |rows|);
      Some(Paged(rows[start..end], |rows|, if end < |rows| then Some(Cursor(end, generation)) else None))
  }

  /** A cursor of another generation is always rejected, and nothing else is. */
  lemma OnlyForeignCursorsAreRejected<T>(rows: seq<T>, page: Page, generation: Option<nat>)
    ensures PageRows(rows, page, generation).None? <==>
            exists c :: page.cursor == Some(c) && c.generation != generation
  {
    if page.cursor.Some? {
      assert page.cursor == Some(page.cursor.value);
    }
  }

  /** A page is a stretch of the rows from the cursor on, at most as long as asked for, and tells how many rows there are. */
  lemma PageIsStretch<T>(rows: seq<T>, page: Page, generation: Option<nat>, from: nat, p: Paged<T>)
    requires PageRows(rows, page, generation) == Some(p)
    requires from == if page.cursor.Some? then page.cursor.value.offset else 0
    ensures p.total == |rows| && |p.items| <= page.limit
    ensures from >= |rows| ==> p.items == [] && p.next == None
    ensures from <= |rows| ==> p.items <= rows[from..] && (|p.items| == page.limit || p.items == rows[from..])
    ensures p.next.Some? <==> from + |p.items| < |rows|
    ensures p.next.Some? ==> p.next.value == Cursor(from + |p.items|, generation)
  {
  }

  // ---- cursor text -----------------------------------------------------------------------------------------

  /** The `next_cursor` line of a response, without its heading. */
  function CursorText(c: Cursor): string {
    if c.generation.Some? then Decimal.Print(c.generation.value) + ":" + Decimal.Print(c.offset)
    else Decimal.Print(c.offset)
  }

  /** A printed cursor reads back as itself exactly when it carries a generation, within 64 bits. */
  lemma CursorTextSurvives(c: Cursor)
    requires c.offset < USIZE_BOUND && (c.generation.Some? ==> c.generation.value < USIZE_BOUND)
    ensures ParseCursor(CursorText(c)) == if c.generation.Some? then Some(c) else None
  {
    var offset := Decimal.Print(c.offset);
    Decimal.ParsePrint(c.offset, USIZE_BOUND);
    if c.generation.Some? {
      var generation := Decimal.Print(c.generation.value);
      Decimal.ParsePrint(c.generation.value, USIZE_BOUND);
      assert ':' !in generation;
      SplitOnceAt(generation, ':', offset);
    } else {
      assert ':' !in offset;
    }
  }

  // ---- the cursor as a field ------------------------------------------------------------------------------

  /** The first value under a key. */
  function FieldText(fields: seq<(string, string)>, key: string): Option<string> {
    if fields == [] then None else if fields[0].0 == key then Some(fields[0].1) else FieldText(fields[1..], key)
  }

  /** The cursor a line carries under a key, read as any other field. */
  function RereadAs(key: string, text: string): Option<Cursor> {
    var tokens := Tokens(key + ":" + text, OUTSIDE, "");
    if tokens.None? then None
    else
      var value := FieldText(Collect(tokens.value, NOTHING).fields, key);
      if value.None? then None else ParseCursor(ScalarValue(value.value))
  }

  lemma RereadIsParsed(key: string, text: string)
    requires Bare(key) && ':' !in key && Bare(text) && '\\' !in text
    ensures RereadAs(key, text) == ParseCursor(text)
  {
    OneFieldSurvives(BareField(key, text), key + ":" + text);
    BareValueSurvives(text);
  }

  lemma CursorTextIsBare(c: Cursor)
    ensures Bare(CursorText(c)) && '\\' !in CursorText(c)
  {
    Decimal.PrintsDigits(c.offset);
    DigitsAreBare(Decimal.Print(c.offset));
    if c.generation.Some? {
      Decimal.PrintsDigits(c.generation.value);
      DigitsAreBare(Decimal.Print(c.generation.value));
    }
  }

  lemma DigitsAreBare(text: string)
    requires Decimal.AllDigits(text)
    ensures Bare(text) && '\\' !in text
  {
  }

  // ---- following the pages ------------------------------------------------------------------------------------

  /** What a client does with a cursor between two requests. */
  datatype Client = KeepsValue | RereadsText

  function Resent(client: Client, c: Cursor): Option<Cursor> {
    match client
    case KeepsValue => Some(c)
    case RereadsText => RereadAs("cursor", CursorText(c))
  }

  predicate Survives(client: Client, generation: Option<nat>) {
    client.KeepsValue? || generation.Some?
  }

  predicate InRange(rows: nat, generation: Option<nat>) {
    rows < USIZE_BOUND && (generation.Some? ==> generation.value < USIZE_BOUND)
  }

  lemma ResentSurvives(client: Client, c: Cursor)
    requires InRange(c.offset, c.generation)
    ensures Resent(client, c) == if Survives(client, c.generation) then Some(c) else None
  {
    CursorTextSurvives(c);
    CursorTextIsBare(c);
    RereadIsParsed("cursor", CursorText(c));
  }

  function Resender(client: Client): Cursor -> Option<Cursor> {
    (c: Cursor) => Resent(client, c)
  }

  /** Cursors of a generation within range come back as they were, or not at all. */
  ghost predicate Faithful(resend: Cursor -> Option<Cursor>, rows: nat, generation: Option<nat>, survives: bool) {
    forall k: nat | k <= rows :: resend(Cursor(k, generation)) == if survives then Some(Cursor(k, generation)) else None
  }

  lemma ClientsAreFaithful(client: Client, rows: nat, generation: Option<nat>)
    requires InRange(rows, generation)
    ensures Faithful(Resender(client), rows, generation, Survives(client, generation))
  {
    forall k: nat | k <= rows
      ensures Resender(client)(Cursor(k, generation))
           == if Survives(client, generation) then Some(Cursor(k, generation)) else None
    {
      ResentSurvives(client, Cursor(k, generation));
    }
  }

  datatype Following<T> = Finished(rows: seq<T>) | Rejected | Unfinished

  /** Up to `n` requests, page after page, until there is no next cursor; `resend` is what becomes of a cursor in between. */
  function Follow<T>(rows: seq<T>, limit: nat, generation: Option<nat>, resend: Cursor -> Option<Cursor>,
                     cursor: Option<Cursor>, n: nat): Following<T>
    decreases n
  {
    if n == 0 then Unfinished
    else
      var paged := PageRows(rows, Page(cursor, limit), generation);
      if paged.None? then Rejected
      else if paged.value.next.None? then Finished(paged.value.items)
      else
        var resent := resend(paged.value.next.value);
        if resent.None? then Rejected
        else
          var rest := Follow(rows, limit, generation, resend, resent, n - 1);
          if rest.Finished? then Finished(paged.value.items + rest.rows) else rest
  }

  /** How many rows `n` pages hold. */
  function Capacity(limit: nat, n: nat): nat {
    if n == 0 then 0 else limit + Capacity(limit, n - 1)
  }

  lemma {:induction false} NoCapacity(limit: nat, n: nat)
    requires limit == 0
    ensures Capacity(limit, n) == 0
  {
    if n > 0 {
      NoCapacity(limit, n - 1);
    }
  }

  /** What `n` requests yield when `rows` are left, for a cursor that survives or does not. */
  function Outcome<T>(rows: seq<T>, limit: nat, survives: bool, n: nat): Following<T> {
    if n == 0 then Unfinished
    else if |rows| <= limit then Finished(rows)
    else if !survives then Rejected
    else if |rows| <= Capacity(limit, n) then Finished(rows)
    else Unfinished
  }

  lemma {:induction false} OutcomeStep<T>(rows: seq<T>, next: seq<T>, limit: nat, n: nat, rest: Following<T>)
    requires n > 0 && limit < |rows| && next == rows[limit..] && rest == Outcome(next, limit, true, n - 1)
    ensures Outcome(rows, limit, true, n) == if rest.Finished? then Finished(rows[..limit] + rest.rows) else rest
  {
    assert rows[..limit] + rows[limit..] == rows;
    assert Capacity(limit, n) == limit + Capacity(limit, n - 1);
    if n > 1 {
      assert Capacity(limit, n - 1) == limit + Capacity(limit, n - 2);
    }
  }

  lemma PageFrom<T>(rows: seq<T>, limit: nat, generation: Option<nat>, cursor: Option<Cursor>, k: nat, left: seq<T>)
    requires k <= |rows| && left == rows[k..]
    requires cursor == Some(Cursor(k, generation)) || (cursor == None && k == 0)
    ensures PageRows(rows, Page(cursor, limit), generation) ==
            Some(if |left| <= limit then Paged(left, |rows|, None)
                 else Paged(left[..limit], |rows|, Some(Cursor(k + limit, generation))))
  {
    if |left| <= limit {
      assert rows[k..|rows|] == left;
    } else {
      assert rows[k..k + limit] == left[..limit];
    }
  }

  /** One request, with what it leaves to the next. */
  lemma {:induction false} FollowOnce<T>(rows: seq<T>, limit: nat, generation: Option<nat>, resend: Cursor -> Option<Cursor>,
                                         survives: bool, cursor: Option<Cursor>, k: nat, left: seq<T>, n: nat)
    requires Faithful(resend, |rows|, generation, survives) && k <= |rows| && left == rows[k..] && n > 0
    requires cursor == Some(Cursor(k, generation)) || (cursor == None && k == 0)
    ensures Follow(rows, limit, generation, resend, cursor, n) ==
            if |left| <= limit then Finished(left)
            else if !survives then Rejected
            else
              var rest := Follow(rows, limit, generation, resend, Some(Cursor(k + limit, generation)), n - 1);
              if rest.Finished? then Finished(left[..limit] + rest.rows) else rest
  {
    PageFrom(rows, limit, generation, cursor, k, left);
  }

  lemma {:induction false} FollowFrom<T>(rows: seq<T>, limit: nat, generation: Option<nat>, resend: Cursor -> Option<Cursor>,
                                         survives: bool, cursor: Option<Cursor>, k: nat, left: seq<T>, n: nat)
    requires Faithful(resend, |rows|, generation, survives) && k <= |rows| && left == rows[k..]
    requires cursor == Some(Cursor(k, generation)) || (cursor == None && k == 0)
    ensures Follow(rows, limit, generation, resend, cursor, n) == Outcome(left, limit, survives, n)
    decreases n
  {
    if n > 0 {
      FollowOnce(rows, limit, generation, resend, survives, cursor, k, left, n);
      if |left| > limit && survives {
        var next := left[limit..];
        assert next == rows[k + limit..];
        FollowFrom(rows, limit, generation, resend, survives, Some(Cursor(k + limit, generation)), k + limit, next, n - 1);
        OutcomeStep(left, next, limit, n, Outcome(next, limit, true, n - 1));
      }
    }
  }

  /** Exactly what any number of requests yields. */
  lemma {:induction false} FollowIsOutcome<T>(rows: seq<T>, limit: nat, generation: Option<nat>, client: Client, n: nat)
    requires InRange(|rows|, generation)
    ensures Follow(rows, limit, generation, Resender(client), None, n)
         == Outcome(rows, limit, Survives(client, generation), n)
  {
    assert rows[0..] == rows;
    ClientsAreFaithful(client, |rows|, generation);
    FollowFrom(rows, limit, generation, Resender(client), Survives(client, generation), None, 0, rows, n);
  }

  ghost predicate Ends<T(!new)>(rows: seq<T>, limit: nat, generation: Option<nat>, client: Client) {
    exists n :: Follow(rows, limit, generation, Resender(client), None, n) == Finished(rows)
  }

  lemma {:induction false} FollowingCanEnd<T(!new)>(rows: seq<T>, limit: nat, generation: Option<nat>, client: Client)
    requires InRange(|rows|, generation)
    requires |rows| <= limit || (Survives(client, generation) && limit >= 1)
    ensures Ends(rows, limit, generation, client)
  {
    var n := if |rows| <= limit then 1 else |rows|;
    if limit >= 1 {
      EnoughPages(limit, |rows|);
    }
    FollowIsOutcome(rows, limit, generation, client, n);
    assert Follow(rows, limit, generation, Resender(client), None, n) == Finished(rows);
  }

  lemma {:induction false} FollowingCannotEnd<T(!new)>(rows: seq<T>, limit: nat, generation: Option<nat>, client: Client, n: nat)
    requires InRange(|rows|, generation)
    requires |rows| > limit && (!Survives(client, generation) || limit == 0)
    ensures Follow(rows, limit, generation, Resender(client), None, n)
         == if n == 0 || Survives(client, generation) then Unfinished else Rejected
  {
    FollowIsOutcome(rows, limit, generation, client, n);
    if limit == 0 {
      NoCapacity(limit, n);
    }
  }

  /**
    Following the pages yields exactly the rows, in order, if and only if the cursor survives and the
    limit is at least one, or a single page holds all the rows.
  */
  lemma {:induction false} FollowingEnds<T(!new)>(rows: seq<T>, limit: nat, generation: Option<nat>, client: Client)
    requires InRange(|rows|, generation)
    ensures Ends(rows, limit, generation, client) <==>
            |rows| <= limit || (Survives(client, generation) && limit >= 1)
  {
    if |rows| <= limit || (Survives(client, generation) && limit >= 1) {
      FollowingCanEnd(rows, limit, generation, client);
    } else if Ends(rows, limit, generation, client) {
      var n :| Follow(rows, limit, generation, Resender(client), None, n) == Finished(rows);
      FollowingCannotEnd(rows, limit, generation, client, n);
    }
  }

  lemma {:induction false} EnoughPages(limit: nat, n: nat)
    requires limit >= 1
    ensures n <= Capacity(limit, n)
  {
    if n > 0 {
      EnoughPages(limit, n - 1);
    }
  }

  /** A client that requests page after page and collects the rows; `None` is a rejected cursor. */
  method FollowPages<T>(rows: seq<T>, limit: nat, generation: Option<nat>, client: Client)
    returns (collected: Option<seq<T>>, requests: nat)
    requires InRange(|rows|, generation)
    requires limit >= 1 || rows == [] || !Survives(client, generation)
    ensures collected == if Survives(client, generation) || |rows| <= limit then Some(rows) else None
    ensures collected.Some? ==>
              && requests >= 1 && |rows| <= requests * limit
              && (rows != [] ==> (requests - 1) * limit < |rows|)
  {
    var seen, page := [], Page(None, limit);
    requests := 0;
    while true
      invariant |seen| < |rows| || (rows == [] && requests == 0)
      invariant |seen| == requests * limit && seen <= rows
      invariant requests == 0 || Survives(client, generation)
      invariant page == Page(if requests == 0 then None else Some(Cursor(|seen|, generation)), limit)
      decreases |rows| - |seen|, if requests == 0 then 1 else 0
    {
      var paged := PageRows(rows, page, generation);
      assert (requests + 1) * limit == requests * limit + limit;
      ghost var before := |seen|;
      requests := requests + 1;
      seen := seen + paged.value.items;
      assert (requests - 1) * limit == before;
      assert seen == rows[..|seen|];
      if paged.value.next.None? {
        assert seen == rows;
        return Some(seen), requests;
      }
      var cursor := Resent(client, paged.value.next.value);
      ResentSurvives(client, paged.value.next.value);
      if cursor.None? {
        return None, requests;
      }
      page := Page(cursor, limit);
    }
  }

  /** With a limit of zero the first page points at itself. */
  lemma LimitZeroNeverProgresses<T>(rows: seq<T>, generation: Option<nat>)
    requires rows != []
    ensures PageRows(rows, Page(None, 0), generation) == Some(Paged([], |rows|, Some(Cursor(0, generation))))
    ensures PageRows(rows, Page(Some(Cursor(0, generation)), 0), generation)
         == PageRows(rows, Page(None, 0), generation)
  {
    assert rows[0..0] == [];
  }
}
