/**
  The world one conditional file call runs in: the directory, the inodes, what other processes are
  going to do, and the record of what this call has done so far.

  `schedule` decides what the outside does: before each file-system call one `Tick` is consumed,
  which may append inodes, link and unlink any names, and make the call fail. A contract proved for
  every schedule holds in every interleaving; an exhausted schedule is a world in which nobody
  interferes and nothing fails.
*/
module World {
  import opened Results
  import opened DirectoryTrace

  /** New inodes, new targets (or removal) of names, and whether the coming call fails. */
  datatype Tick = Tick(nodes: seq<Node>, links: map<Name, Option<Ino>>, fault: bool)

  datatype World = World(
    entries: Entries,
    nodes: seq<Node>,
    sequence: nat,
    schedule: seq<Tick>,
    mine: set<Name>,       // names this call has created exclusively
    created: set<Ino>,     // inodes this call has created
    polite: bool,          // no other process has touched a name in `mine` so far
    lost: set<Ino>,        // inodes this call has unlinked a name of
    changes: seq<Change>,  // this call's own transitions of the target name
    history: History)

  /** The world as a call on `target` finds it. */
  function Start(entries: Entries, nodes: seq<Node>, sequence: nat, schedule: seq<Tick>): (w: World) {
    World(entries, nodes, sequence, schedule, {}, {}, true, {}, [], Begin)
  }

  /** The record is the truth about the history that led here from `first`. */
  ghost predicate Recorded(w: World, first: Entries, target: Name) {
    && Leads(first, w.history, w.entries)
    && w.lost == Lost(w.history)
    && w.changes == Changes(w.history, target)
  }

  ghost predicate Consistent(w: World, target: Name) {
    && (forall n | n in w.entries :: w.entries[n] < |w.nodes|)
    && (forall i | i in w.created :: i < |w.nodes|)
    && (forall n | n in w.mine :: |n| > |target|)
  }

  /** What every step grows and never forgets. */
  ghost predicate Later(s: World, t: World) {
    && s.mine <= t.mine && s.created <= t.created
    && (forall i | i in t.created && i !in s.created :: |s.nodes| <= i)
    && (t.polite ==> s.polite)
    && |s.nodes| <= |t.nodes|
    && s.sequence <= t.sequence
    && (s.schedule == [] ==> t.schedule == [] && t.polite == s.polite)
    && |t.schedule| <= |s.schedule| && (Reliable(s.schedule) ==> Reliable(t.schedule))
  }

  /** Inodes keep what they hold. */
  ghost predicate NodesKept(s: World, t: World) {
    |s.nodes| <= |t.nodes| && forall i | 0 <= i < |s.nodes| :: t.nodes[i] == s.nodes[i]
  }

  /** Names this call created exclusively keep their inode while others are polite. */
  ghost predicate MineKept(s: World, t: World, except: set<Name>) {
    t.polite ==> forall n | n in s.mine && n !in except :: At(t.entries, n) == At(s.entries, n)
  }

  /** This call's own names and record are the same. */
  predicate SameRecord(s: World, t: World) {
    t.mine == s.mine && t.created == s.created && t.lost == s.lost && t.changes == s.changes
  }

  /** Only others acted between `s` and `t`. */
  ghost predicate Observed(s: World, t: World) {
    && Later(s, t) && NodesKept(s, t) && MineKept(s, t, {}) && SameRecord(s, t)
    && t.sequence == s.sequence
    && (s.schedule == [] ==> t.entries == s.entries && t.nodes == s.nodes)
  }

  function Interfere(entries: Entries, links: map<Name, Option<Ino>>, limit: nat): (r: Entries) {
    (map n | n in entries && n !in links :: entries[n])
    + (map n | n in links && links[n].Some? && links[n].value < limit :: links[n].value)
  }

  /** The world after others have used their turn. */
  function Awaited(w: World): (t: World) {
    if w.schedule == [] then w
    else
      var tick := w.schedule[0];
      var nodes := w.nodes + tick.nodes;
      var entries := Interfere(w.entries, tick.links, |nodes|);
      w.(entries := entries, nodes := nodes, schedule := w.schedule[1..],
         polite := w.polite && tick.links.Keys !! w.mine,
         history := Then(w.history, Event(Env, w.entries, entries)))
  }

  predicate Faulty(w: World) {
    w.schedule != [] && w.schedule[0].fault
  }

  /** None of the calls to come fails. */
  predicate Reliable(schedule: seq<Tick>) {
    forall tick | tick in schedule :: !tick.fault
  }

  /**
    The others are free: whatever directory agrees with this one on the call's own names can come out
    of one turn of theirs without being impolite, with any new inodes in it.
  */
  lemma AnythingCanHappen(w: World, nodes: seq<Node>, entries: Entries, fault: bool) returns (tick: Tick)
    requires forall n | n in entries :: entries[n] < |w.nodes| + |nodes|
    ensures var next := w.(schedule := [tick] + w.schedule);
            && Awaited(next).entries == entries && Awaited(next).nodes == w.nodes + nodes
            && Awaited(next).schedule == w.schedule && Faulty(next) == fault
            && ((forall n | n in w.mine :: At(entries, n) == At(w.entries, n)) ==> Awaited(next).polite == w.polite)
  {
    var links := map n | n in w.entries.Keys + entries.Keys && At(entries, n) != At(w.entries, n) :: At(entries, n);
    tick := Tick(nodes, links, fault);
    var next := w.(schedule := [tick] + w.schedule);
    assert next.schedule[0] == tick && next.schedule[1..] == w.schedule;
    assert Awaited(next).entries == entries;
  }

  /** Touching a name of the call's own is impolite. */
  lemma TouchingIsImpolite(w: World, n: Name)
    requires w.schedule != [] && n in w.mine && n in w.schedule[0].links
    ensures !Awaited(w).polite
  {
  }

  /** The world after one of this call's own operations, with the record kept. */
  function Performed(w: World, op: Op, entries: Entries, target: Name): (t: World) {
    var e := Event(op, w.entries, entries);
    w.(entries := entries, history := Then(w.history, e),
       lost := w.lost + Unlinked(e), changes := w.changes + ChangesBy(e, target))
  }

  /** The call's own last transition of the target that involves `ino` took it away from there. */
  predicate Displaced(changes: seq<Change>, ino: Ino) {
    changes != [] &&
    var last := changes[|changes| - 1];
    last.after != Some(ino) && (last.before == Some(ino) || Displaced(changes[..|changes| - 1], ino))
  }

  /** Some name this call created exclusively holds `ino`. */
  ghost predicate Held(mine: set<Name>, entries: Entries, ino: Ino) {
    exists n | n in mine :: At(entries, n) == Some(ino)
  }

  ghost predicate AllHeld(changes: seq<Change>, lost: set<Ino>, mine: set<Name>, entries: Entries) {
    forall ino | Displaced(changes, ino) :: ino in lost || Held(mine, entries, ino)
  }

  /** While others are polite, whatever is displaced and not unlinked is behind a name of this call's own. */
  ghost predicate Parked(w: World) {
    w.polite ==> AllHeld(w.changes, w.lost, w.mine, w.entries)
  }

  /** An operation that parks what it takes from the target, and nothing outside this call's own names. */
  predicate Careful(op: Op, mine: set<Name>, target: Name) {
    match op
    case Env => false
    case Create(n, _) => n != target
    case Exchange(a, b) => a in mine && b == target
    case Move(a, b) => a != b && (a == target || a in mine) && (b == target || b in mine)
    case Unlink(n) => n in mine
  }

  lemma AwaitedParked(w: World)
    requires Parked(w)
    ensures Parked(Awaited(w))
  {
    var t := Awaited(w);
    if t.polite {
      forall ino | Displaced(t.changes, ino)
        ensures ino in t.lost || Held(t.mine, t.entries, ino)
      {
        if ino !in w.lost {
          var n :| n in w.mine && At(w.entries, n) == Some(ino);
          assert At(t.entries, n) == Some(ino);
        }
      }
    }
  }

  /** Where an operation leaves an inode that stays displaced. */
  lemma StaysHeld(e: Event, mine: set<Name>, target: Name, changes: seq<Change>, ino: Ino)
    requires Effect(e) && Careful(e.op, mine, target) && target !in mine
    requires Displaced(changes + ChangesBy(e, target), ino)
    requires Displaced(changes, ino) ==> Held(mine, e.before, ino)
    ensures ino in Unlinked(e) || Held(mine, e.after, ino)
  {
    var own := ChangesBy(e, target);
    if own == [] {
      assert changes + own == changes;
    } else {
      assert (changes + own)[..|changes|] == changes;
    }
    if Displaced(changes, ino) {
      var n :| n in mine && At(e.before, n) == Some(ino);
      if e.op.Move? && n == e.op.from {
        assert At(e.after, e.op.to) == Some(ino);
      } else if !(e.op.Unlink? && n == e.op.name) {
        assert e.op.Exchange? ==> n != e.op.left;
        assert At(e.after, n) == Some(ino);
      }
    } else {
      var parked := if e.op.Exchange? then e.op.left else e.op.to;
      assert At(e.after, parked) == Some(ino);
    }
  }

  lemma PerformedParked(w: World, op: Op, entries: Entries, target: Name)
    requires Parked(w) && Effect(Event(op, w.entries, entries)) && Careful(op, w.mine, target)
    requires target !in w.mine
    ensures Parked(Performed(w, op, entries, target))
  {
    var e, t := Event(op, w.entries, entries), Performed(w, op, entries, target);
    if t.polite {
      forall ino | Displaced(t.changes, ino)
        ensures ino in t.lost || Held(t.mine, t.entries, ino)
      {
        if ino !in w.lost {
          StaysHeld(e, w.mine, target, w.changes, ino);
        }
      }
    }
  }

  lemma AwaitedObserved(w: World, first: Entries, target: Name)
    requires Consistent(w, target) && Recorded(w, first, target)
    ensures Consistent(Awaited(w), target) && Recorded(Awaited(w), first, target)
    ensures Observed(w, Awaited(w))
  {
  }

  lemma PerformedRecorded(w: World, op: Op, entries: Entries, first: Entries, target: Name)
    requires Recorded(w, first, target) && Effect(Event(op, w.entries, entries)) && !op.Env?
    ensures Recorded(Performed(w, op, entries, target), first, target)
  {
  }
}
