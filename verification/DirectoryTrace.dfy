/**
  One physical directory as a map from names to inodes, the atomic operations the conditional
  file calls perform on it, and histories of such operations interleaved with other processes.
*/
module DirectoryTrace {
  import opened Results

  type Name = string
  type Ino = nat
  type Bytes = seq<bv8>
  type Entries = map<Name, Ino>

  datatype Kind = Regular | Symlink | Directory | Special

  /** What an inode holds. `mode` is the permission bits only. */
  datatype Node = Node(kind: Kind, contents: Bytes, mode: nat)

  function At(entries: Entries, name: Name): (r: Option<Ino>) {
    if name in entries then Some(entries[name]) else None
  }

  /** `Env` is the net effect of other processes between two of this call's operations. */
  datatype Op =
    | Env
    | Create(name: Name, ino: Ino)
    | Exchange(left: Name, right: Name)
    | Move(from: Name, to: Name)
    | Unlink(name: Name)

  datatype Event = Event(op: Op, before: Entries, after: Entries)

  ghost predicate Effect(e: Event) {
    match e.op
    case Env => true
    case Create(n, i) => n !in e.before && e.after == e.before[n := i]
    case Exchange(a, b) =>
      && a in e.before && b in e.before
      && e.after == e.before[a := e.before[b]][b := e.before[a]]
    case Move(a, b) =>
      && a in e.before && b !in e.before
      && e.after == (e.before - {a})[b := e.before[a]]
    case Unlink(n) => n in e.before && e.after == e.before - {n}
  }

  /** Events in order, the latest on top. */
  datatype History = Begin | Then(past: History, event: Event)

  /** `h` leads from `first` to `last`, one atomic effect after the other. */
  ghost predicate Leads(first: Entries, h: History, last: Entries) {
    match h
    case Begin => first == last
    case Then(past, e) => Leads(first, past, e.before) && Effect(e) && e.after == last
  }

  /** The inodes one event unlinks a name of. */
  function Unlinked(e: Event): set<Ino> {
    if e.op.Unlink? && e.op.name in e.before then {e.before[e.op.name]} else {}
  }

  /** Every inode this call has unlinked a name of. */
  ghost function Lost(h: History): set<Ino> {
    match h
    case Begin => {}
    case Then(past, e) => Lost(past) + Unlinked(e)
  }

  /** One of this call's own atomic transitions of a name. */
  datatype Change = Change(before: Option<Ino>, after: Option<Ino>)

  predicate Touches(op: Op, name: Name) {
    match op
    case Env => false
    case Create(n, _) => n == name
    case Exchange(a, b) => a == name || b == name
    case Move(a, b) => a == name || b == name
    case Unlink(n) => n == name
  }

  function ChangesBy(e: Event, name: Name): seq<Change> {
    if Touches(e.op, name) then [Change(At(e.before, name), At(e.after, name))] else []
  }

  /** The transitions of `name` made by this call, in order; other processes' are not listed. */
  ghost function Changes(h: History, name: Name): seq<Change> {
    match h
    case Begin => []
    case Then(past, e) => Changes(past, name) + ChangesBy(e, name)
  }

  /** `ino` was linked at some moment of `h`, and other processes never took its last name since. */
  ghost predicate LinkedSince(h: History, ino: Ino) {
    match h
    case Begin => false
    case Then(past, e) =>
      && (ino in e.before.Values || LinkedSince(past, ino))
      && (e.op.Env? && ino in e.before.Values ==> ino in e.after.Values)
  }

  lemma StepKeeps(e: Event, ino: Ino)
    requires Effect(e) && !e.op.Env? && ino in e.before.Values && ino !in Unlinked(e)
    ensures ino in e.after.Values
  {
    var n :| n in e.before && e.before[n] == ino;
    match e.op
    case Env =>
    case Create(_, _) => assert e.after[n] == ino;
    case Exchange(a, b) =>
      if n == a {
        assert e.after[b] == ino;
      } else if n == b {
        assert e.after[a] == ino;
      } else {
        assert e.after[n] == ino;
      }
    case Move(a, b) =>
      if n == a {
        assert e.after[b] == ino;
      } else {
        assert e.after[n] == ino;
      }
    case Unlink(_) => assert e.after[n] == ino;
  }

  /**
    An inode that was linked at any moment of a call and that the call does not unlink is still
    linked when the call ends, whatever was renamed or exchanged in between, unless another process
    took it.
  */
  lemma {:induction false} NotLostStaysLinked(first: Entries, h: History, last: Entries, ino: Ino)
    requires Leads(first, h, last)
    requires LinkedSince(h, ino) && ino !in Lost(h)
    ensures ino in last.Values
  {
    var Then(past, e) := h;
    if ino !in e.before.Values {
      NotLostStaysLinked(first, past, e.before, ino);
    }
    if !e.op.Env? {
      StepKeeps(e, ino);
    }
  }
}
