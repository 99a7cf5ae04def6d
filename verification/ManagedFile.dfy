/**
  The conditional write and remove of one managed directory entry
  (crates/cli/src/fs_nofollow.rs), one file-system call per step, with other processes acting
  between any two steps.
*/
module ManagedFile {
  import opened Numbers
  import opened Results
  import opened DirectoryTrace
  import opened World
  import Decimal

  datatype Error = NoEntry | Exists | Fault | Refused
  type Reply<+T> = Outcome<T, Error>

  /** The bounded number of attempts of every retry loop. */
  const ATTEMPTS := 32

  function TempSuffix(pid: nat, sequence: nat): (n: Name)
    ensures |n| > 0
  {
    "." + Decimal.Print(pid) + "." + Decimal.Print(sequence) + ".tmp"
  }

  function TempName(base: Name, pid: nat, sequence: nat): (n: Name)
    ensures |n| > |base|
  {
    base + TempSuffix(pid, sequence)
  }

  predicate ModeAccepts(expected: Option<nat>, mode: nat) {
    expected.None? || expected.value == mode
  }

  /** A regular file with these contents and, when given, this mode. */
  predicate Matches(node: Node, contents: Bytes, mode: Option<nat>) {
    node.kind == Regular && node.contents == contents && ModeAccepts(mode, node.mode)
  }

  /** This call's own unlinking between `s` and `t` stayed within `allowed`. */
  ghost predicate LostWithin(s: World, t: World, allowed: set<Ino>) {
    t.polite ==> t.lost <= s.lost + allowed
  }

  ghost predicate OwnStep(s: World, t: World) {
    Later(s, t) && NodesKept(s, t)
  }

  /** What a rollback may do to the target: put `back` there, then undo that. */
  ghost predicate RolledBack(s: World, t: World, back: Option<Ino>) {
    || t.changes == s.changes
    || (exists x :: t.changes == s.changes + [Change(x, back)])
    || (exists x, y :: t.changes == s.changes + [Change(x, back)] + [Change(y, x)])
  }

  /**
    What a rollback may do to the target when others are done by then and nothing fails: nothing; put
    the backup back in place of `inserted`; or, where someone else's file has taken that place, put
    the backup back and then that file again, which is public in the end, with the backup retained.
  */
  ghost predicate GivesBack(s: World, t: World, target: Name, temp: Name, inserted: Ino, backup: Ino) {
    || t.changes == s.changes
    || t.changes == s.changes + [Change(Some(inserted), Some(backup))]
    || (exists x: Ino ::
          && x != inserted && t.changes == s.changes + [Change(Some(x), Some(backup))] + [Change(Some(backup), Some(x))]
          && At(t.entries, target) == Some(x) && At(t.entries, temp) == Some(backup))
  }

  /** Once the rollback has exchanged and others are done, dropping or giving back what it found settles it. */
  lemma GivenBackAfter(s: World, c: World, t: World, target: Name, temp: Name, inserted: Ino, backup: Ino)
    requires temp in c.entries && c.changes == s.changes + [Change(Some(c.entries[temp]), Some(backup))]
    requires t.changes == c.changes || (c.entries[temp] != inserted && temp != target
               && t.changes == c.changes + [Change(Some(backup), Some(c.entries[temp]))]
               && t.entries == c.entries[target := c.entries[temp]][temp := backup])
    requires t.changes == c.changes ==> c.entries[temp] == inserted
    ensures GivesBack(s, t, target, temp, inserted, backup)
  {
  }

  /**
    What a rollback displaced was the call's own file, or is public again at the end: a concurrent
    replacement of the target survives the rollback of an earlier one.
  */
  ghost predicate GivenBack(w: World, target: Name) {
    && (|w.changes| == 2 ==> w.changes[1].before == w.changes[0].after)
    && (|w.changes| == 3 ==> w.changes[1].before == At(w.entries, target))
  }

  lemma GivesBackOverall(c: World, t: World, target: Name, temp: Name, ino: Ino, backup: Ino)
    requires c.changes == [Change(Some(backup), Some(ino))] && GivesBack(c, t, target, temp, ino, backup)
    ensures GivenBack(t, target)
  {
  }

  /** The condition a conditional call tests: the entry it expects is the one that is there. */
  predicate Current(w: World, target: Name, expected: Option<Bytes>, mode: Option<nat>)
    requires forall n | n in w.entries :: w.entries[n] < |w.nodes|
  {
    match expected
    case None => target !in w.entries
    case Some(contents) => target in w.entries && Matches(w.nodes[w.entries[target]], contents, mode)
  }

  /** Every inode a call unlinked is its own, or is exactly what the caller expected to replace. */
  ghost predicate Harmless(w: World, expected: Option<Bytes>, mode: Option<nat>) {
    forall i | i in w.lost ::
      || i in w.created
      || (expected.Some? && i < |w.nodes| && Matches(w.nodes[i], expected.value, mode))
  }

  /**
    Whatever the call took from the target and did not give back, neither its own file nor the
    expected one, is behind a temporary name of the call's own: the backup is retained.
  */
  ghost predicate Retained(w: World, expected: Option<Bytes>, mode: Option<nat>) {
    forall ino: Ino | Displaced(w.changes, ino) && ino !in w.created ::
      || Held(w.mine, w.entries, ino)
      || (expected.Some? && ino < |w.nodes| && Matches(w.nodes[ino], expected.value, mode))
  }

  /** No assumption about others is left but their politeness. */
  lemma DisplacedStaysLinked(w: World, expected: Option<Bytes>, mode: Option<nat>)
    requires w.polite && Parked(w) && Harmless(w, expected, mode)
    ensures Retained(w, expected, mode)
  {
    forall ino: Ino | Displaced(w.changes, ino) && ino !in w.created
      ensures ino in w.lost || Held(w.mine, w.entries, ino)
    {
    }
  }

  /**
    Any file linked at some moment of the call, neither its own nor the expected one, is still linked
    at the end, under whatever name, unless another process took its last name.
  */
  ghost predicate Spared(w: World, expected: Option<Bytes>, mode: Option<nat>) {
    forall ino: Ino | LinkedSince(w.history, ino) && ino !in w.created ::
      || ino in w.entries.Values
      || (expected.Some? && ino < |w.nodes| && Matches(w.nodes[ino], expected.value, mode))
  }

  lemma UntakenStaysLinked(w: World, first: Entries, target: Name, expected: Option<Bytes>, mode: Option<nat>)
    requires Recorded(w, first, target) && Harmless(w, expected, mode)
    ensures Spared(w, expected, mode)
  {
    forall ino: Ino | LinkedSince(w.history, ino) && ino !in w.lost
      ensures ino in w.entries.Values
    {
      NotLostStaysLinked(first, w.history, w.entries, ino);
    }
  }

  /** The target holds a file of this call's own with the new contents. */
  ghost predicate InPlace(w: World, target: Name, contents: Bytes, exactMode: Option<nat>) {
    && target in w.entries && w.entries[target] in w.created && w.entries[target] < |w.nodes|
    && Matches(w.nodes[w.entries[target]], contents, exactMode)
  }

  /** Each transition of the target after the first puts back what the one before it took away. */
  predicate UndoesItself(changes: seq<Change>) {
    |changes| <= 3 && forall i | 0 < i < |changes| :: changes[i].after == changes[i - 1].before
  }

  /**
    This call's transitions of the target: none, or the new file first and then only undoing. A
    success is a single transition, straight from an entry that matches what the caller expected.
  */
  ghost predicate Linearized(w: World, ok: bool, expected: Option<Bytes>, expectedMode: Option<nat>,
                             contents: Bytes, exactMode: Option<nat>)
  {
    && UndoesItself(w.changes)
    && (w.changes != [] ==>
          && w.changes[0].after.Some?
          && var ino := w.changes[0].after.value;
          && ino in w.created && ino < |w.nodes|
          && Matches(w.nodes[ino], contents, exactMode))
    && (ok ==>
          && |w.changes| == 1
          && match expected
             case None => w.changes[0].before == None
             case Some(e) =>
               && w.changes[0].before.Some? && w.changes[0].before.value < |w.nodes|
               && Matches(w.nodes[w.changes[0].before.value], e, expectedMode))
  }

  /**
    The transitions of a removal: none, or the target goes and at most comes back. A success is a
    single transition, from an entry that matches what the caller expected.
  */
  ghost predicate RemovalLinearized(w: World, ok: bool, expected: Bytes, mode: Option<nat>) {
    && UndoesItself(w.changes)
    && (w.changes != [] ==> w.changes[0].after == None)
    && (ok ==>
          && |w.changes| == 1
          && w.changes[0].before.Some? && w.changes[0].before.value < |w.nodes|
          && Matches(w.nodes[w.changes[0].before.value], expected, mode))
  }

  /** A failed removal that had displaced another regular file does not leave the target vacant. */
  ghost predicate RemovalGivenBack(w: World, ok: bool, target: Name, expected: Bytes, mode: Option<nat>) {
    !ok && w.changes != [] && w.changes[0].before.Some? && w.changes[0].before.value < |w.nodes|
    && w.nodes[w.changes[0].before.value].kind == Regular
    && !Matches(w.nodes[w.changes[0].before.value], expected, mode) ==>
      target in w.entries
  }

  /** Compare-and-remove, up to what a failure leaves of a target that is not a regular file. */
  ghost predicate RemovedExactly(s: World, t: World, ok: bool, target: Name, expected: Bytes, mode: Option<nat>)
    requires forall n | n in s.entries :: s.entries[n] < |s.nodes|
  {
    && (ok <==> Current(s, target, Some(expected), mode))
    && (ok ==> t.entries == s.entries - {target})
    && (!ok ==>
          (t.entries == s.entries <==> (target in s.entries ==> s.nodes[s.entries[target]].kind == Regular)))
  }

  /** Compare-and-swap of one entry, as an atomic operation on the whole directory. */
  ghost predicate Swapped(s: World, t: World, ok: bool, target: Name, current: bool, node: Node) {
    && (ok <==> current)
    && (!ok ==> t.entries == s.entries)
    && (ok ==>
          && target in t.entries && t.entries == s.entries[target := t.entries[target]]
          && t.entries[target] in t.created && t.entries[target] < |t.nodes|
          && t.nodes[t.entries[target]] == node)
  }

  /** From a committed exchange `c` that took `displaced` away, settling `t` keeps the promises. */
  lemma SettledPromises(c: World, t: World, ok: bool, displaced: Ino, ino: Ino,
                        expected: Bytes, expectedMode: Option<nat>, contents: Bytes, exactMode: Option<nat>)
    requires OwnStep(c, t) && c.lost <= c.created
    requires c.changes == [Change(Some(displaced), Some(ino))] && ino in c.created && ino < |c.nodes|
    requires Matches(c.nodes[ino], contents, exactMode) && displaced < |c.nodes|
    requires RolledBack(c, t, Some(displaced))
    requires ok ==> t.changes == c.changes && Matches(t.nodes[displaced], expected, expectedMode)
    requires t.lost <= c.lost + t.created
             + if Matches(t.nodes[displaced], expected, expectedMode) then {displaced} else {}
    ensures Harmless(t, Some(expected), expectedMode)
    ensures Linearized(t, ok, Some(expected), expectedMode, contents, exactMode)
  {
  }

  /** Dropping the backup after an exchange leaves the replacement, or nothing once exchanged back. */
  lemma ExchangeCancels(entries: Entries, temp: Name, target: Name, ino: Ino)
    requires target in entries && temp !in entries
    ensures var exchanged := entries[temp := entries[target]][target := ino];
            && exchanged - {temp} == entries[target := ino]
            && exchanged[target := entries[target]] - {temp} == entries
  {
  }

  /** Settling an undisturbed exchange completes the compare-and-swap. */
  lemma SettledSwap(s: World, c: World, t: World, ok: bool, target: Name, temp: Name, ino: Ino, node: Node)
    requires target in s.entries && temp !in s.entries && temp != target
    requires c.entries == s.entries[temp := s.entries[target]][target := ino]
    requires t.entries == (if ok then c.entries else c.entries[target := s.entries[target]]) - {temp}
    requires ino in t.created && ino < |t.nodes| && t.nodes[ino] == node
    ensures Swapped(s, t, ok, target, ok, node)
  {
    ExchangeCancels(s.entries, temp, target, ino);
  }

  class Call {
    const target: Name
    const pid: nat
    /** Mode a file gets on creation, `0o666` under the umask. */
    const creationMode: nat
    /** The directory as this call found it. */
    ghost const first: Entries

    var w: World

    ghost predicate Valid()
      reads this
    {
      Consistent(w, target) && Recorded(w, first, target) && Parked(w)
    }

    constructor (target: Name, pid: nat, creationMode: nat, sequence: nat,
                 entries: Entries, nodes: seq<Node>, schedule: seq<Tick>)
      requires forall n | n in entries :: entries[n] < |nodes|
      ensures Valid() && w == Start(entries, nodes, sequence, schedule) && first == entries
      ensures this.target == target && this.pid == pid && this.creationMode == creationMode
    {
      this.target, this.pid, this.creationMode := target, pid, creationMode;
      w := Start(entries, nodes, sequence, schedule);
      first := entries;
    }

    // ---- file-system calls -------------------------------------------------------------------

    /** Lets others act, then tells whether the coming call fails. */
    method Await() returns (fault: bool)
      requires Valid()
      modifies this
      ensures Valid() && Observed(old(w), w)
      ensures |w.schedule| == Monus(|old(w.schedule)|, 1)
      ensures fault == Faulty(old(w)) && (Reliable(old(w.schedule)) ==> !fault)
    {
      AwaitedObserved(w, first, target);
      AwaitedParked(w);
      fault := Faulty(w);
      w := Awaited(w);
    }

    /** `fstatat` without following links. */
    method Stat(name: Name) returns (r: Reply<Option<Ino>>)
      requires Valid()
      modifies this
      ensures Valid() && Observed(old(w), w)
      ensures r.Ok? ==> r.value == At(w.entries, name)
      ensures |w.schedule| == Monus(|old(w.schedule)|, 1)
      ensures Reliable(old(w.schedule)) ==> r.Ok?
    {
      var fault := Await();
      return if fault then Err(Fault) else Ok(At(w.entries, name));
    }

    /** `openat` with `O_CREAT | O_EXCL`; `None` when the name exists. */
    method CreateExclusive(name: Name) returns (r: Reply<Option<Ino>>)
      requires Valid() && |name| > |target|
      modifies this
      ensures Valid() && OwnStep(old(w), w) && w.sequence == old(w.sequence)
      ensures |w.schedule| == Monus(|old(w.schedule)|, 1)
      ensures !(r.Ok? && r.value.Some?) ==> Observed(old(w), w)
      ensures r.Ok? && r.value.Some? ==>
                && |old(w.nodes)| <= r.value.value < |w.nodes|
                && w.nodes[r.value.value] == Node(Regular, [], creationMode)
                && w.created == old(w.created) + {r.value.value} && w.mine == old(w.mine) + {name}
                && At(w.entries, name) == r.value
                && w.lost == old(w.lost) && w.changes == old(w.changes)
                && MineKept(old(w), w, {name})
      ensures old(w.schedule) == [] ==>
                && r.Ok? && (r.value.Some? <==> name !in old(w.entries))
                && (r.value.Some? ==>
                      && r.value.value == |old(w.nodes)| && w.entries == old(w.entries)[name := r.value.value]
                      && w.nodes == old(w.nodes) + [Node(Regular, [], creationMode)])
    {
      var fault := Await();
      if fault {
        return Err(Fault);
      }
      if name in w.entries {
        return Ok(None);
      }
      var ino := |w.nodes|;
      var entries := w.entries[name := ino];
      PerformedRecorded(w, Create(name, ino), entries, first, target);
      PerformedParked(w, Create(name, ino), entries, target);
      w := Performed(w, Create(name, ino), entries, target)
             .(nodes := w.nodes + [Node(Regular, [], creationMode)],
               mine := w.mine + {name}, created := w.created + {ino});
      return Ok(Some(ino));
    }

    method Exchange(left: Name, right: Name) returns (r: Reply<()>)
      requires Valid() && left in w.mine && right == target
      modifies this
      ensures Valid() && OwnStep(old(w), w) && w.sequence == old(w.sequence)
      ensures w.mine == old(w.mine) && w.created == old(w.created) && w.lost == old(w.lost)
      ensures |w.schedule| == Monus(|old(w.schedule)|, 1)
      ensures MineKept(old(w), w, {left, right})
      ensures r.Err? ==> Observed(old(w), w)
      ensures r.Ok? ==>
                && left in w.entries && right in w.entries
                && (w.polite && left in w.mine ==> At(w.entries, right) == At(old(w.entries), left))
                && (right == target ==>
                      w.changes == old(w.changes) + [Change(At(w.entries, left), At(w.entries, target))])
      ensures old(w.schedule) == [] ==>
                var was := old(w.entries);
                && (r.Ok? <==> left in was && right in was)
                && (r.Ok? ==> w.entries == was[left := was[right]][right := was[left]] && w.nodes == old(w.nodes))
    {
      var fault := Await();
      if fault {
        return Err(Fault);
      }
      if left !in w.entries || right !in w.entries {
        return Err(NoEntry);
      }
      var entries := w.entries[left := w.entries[right]][right := w.entries[left]];
      PerformedRecorded(w, Op.Exchange(left, right), entries, first, target);
      PerformedParked(w, Op.Exchange(left, right), entries, target);
      w := Performed(w, Op.Exchange(left, right), entries, target);
      return Ok(());
    }

    /** Rename that refuses to replace. */
    method MoveNoReplace(from: Name, to: Name) returns (r: Reply<()>)
      requires Valid() && from != to && Careful(Move(from, to), w.mine, target)
      modifies this
      ensures Valid() && OwnStep(old(w), w) && w.sequence == old(w.sequence)
      ensures w.mine == old(w.mine) && w.created == old(w.created) && w.lost == old(w.lost)
      ensures |w.schedule| == Monus(|old(w.schedule)|, 1)
      ensures MineKept(old(w), w, {from, to})
      ensures r.Err? ==> Observed(old(w), w) && (Reliable(old(w.schedule)) ==> from !in w.entries || to in w.entries)
      ensures r.Ok? ==>
                && from !in w.entries && to in w.entries
                && (w.polite && from in w.mine ==> At(w.entries, to) == At(old(w.entries), from))
                && w.changes == old(w.changes)
                     + (if from == target then [Change(At(w.entries, to), None)]
                        else if to == target then [Change(None, At(w.entries, to))] else [])
      ensures old(w.schedule) == [] ==>
                var was := old(w.entries);
                && (r.Ok? <==> from in was && to !in was) && (from !in was ==> r == Err(NoEntry))
                && (r.Ok? ==> w.entries == (was - {from})[to := was[from]] && w.nodes == old(w.nodes))
    {
      var fault := Await();
      if fault {
        return Err(Fault);
      }
      if from !in w.entries {
        return Err(NoEntry);
      }
      if to in w.entries {
        return Err(Exists);
      }
      var entries := (w.entries - {from})[to := w.entries[from]];
      PerformedRecorded(w, Move(from, to), entries, first, target);
      PerformedParked(w, Move(from, to), entries, target);
      w := Performed(w, Move(from, to), entries, target);
      return Ok(());
    }

    method UnlinkName(name: Name) returns (r: Reply<()>)
      requires Valid() && name in w.mine
      modifies this
      ensures Valid() && OwnStep(old(w), w) && w.sequence == old(w.sequence)
      ensures w.mine == old(w.mine) && w.created == old(w.created) && w.changes == old(w.changes)
      ensures |w.schedule| == Monus(|old(w.schedule)|, 1)
      ensures MineKept(old(w), w, {name})
      ensures name in w.mine && name in old(w.entries) ==>
                LostWithin(old(w), w, {old(w.entries)[name]})
      ensures r.Err? ==> Observed(old(w), w)
      ensures r.Ok? ==> name !in w.entries
      ensures old(w.schedule) == [] ==>
                var was := old(w.entries);
                && (r.Ok? <==> name in was && old(w.nodes)[was[name]].kind != Directory)
                && (r.Ok? ==> w.entries == was - {name} && w.nodes == old(w.nodes))
    {
      var fault := Await();
      if fault {
        return Err(Fault);
      }
      if name !in w.entries || w.nodes[w.entries[name]].kind == Directory {
        return Err(NoEntry);
      }
      PerformedRecorded(w, Unlink(name), w.entries - {name}, first, target);
      PerformedParked(w, Unlink(name), w.entries - {name}, target);
      w := Performed(w, Unlink(name), w.entries - {name}, target);
      return Ok(());
    }

    /** `openat` with `O_NOFOLLOW`, then `fstat`: the inode, when it is a regular file. */
    method OpenRegular(name: Name) returns (r: Reply<Ino>)
      requires Valid()
      modifies this
      ensures Valid() && Observed(old(w), w)
      ensures r.Ok? ==>
                && r.value < |w.nodes| && w.nodes[r.value].kind == Regular
                && At(w.entries, name) == Some(r.value)
      ensures |w.schedule| == Monus(|old(w.schedule)|, 1)
      ensures Reliable(old(w.schedule)) ==>
                (r.Ok? <==> name in w.entries && w.nodes[w.entries[name]].kind == Regular)
    {
      var fault := Await();
      if fault || name !in w.entries || w.nodes[w.entries[name]].kind != Regular {
        return Err(Fault);
      }
      return Ok(w.entries[name]);
    }

    /** Reads an open file; what an inode holds does not change under the reader. */
    method ReadOpen(ino: Ino) returns (r: Reply<Node>)
      requires Valid() && ino < |w.nodes|
      modifies this
      ensures Valid() && Observed(old(w), w)
      ensures r.Ok? ==> r.value == w.nodes[ino]
      ensures |w.schedule| == Monus(|old(w.schedule)|, 1)
      ensures Reliable(old(w.schedule)) ==> r.Ok?
    {
      var fault := Await();
      return if fault then Err(Fault) else Ok(w.nodes[ino]);
    }

    // ---- temporary names ---------------------------------------------------------------------

    /** Every temporary name in this range of the sequence exists. */
    ghost predicate AllTaken(entries: Entries, base: Name, from: nat, to: nat) {
      forall q: nat | from <= q < to :: TempName(base, pid, q) in entries
    }

    /** `create_temporary`: a file under a name nobody had. */
    method CreateTemporary(base: Name) returns (r: Reply<(Ino, Name)>)
      requires Valid() && |base| >= |target|
      modifies this
      ensures Valid() && OwnStep(old(w), w)
      ensures w.lost == old(w.lost) && w.changes == old(w.changes)
      ensures w.polite ==> forall n | n in old(w.mine) && |n| <= |base| :: At(w.entries, n) == At(old(w.entries), n)
      ensures r.Err? ==> w.mine == old(w.mine) && w.created == old(w.created)
      ensures r.Ok? ==>
                var (ino, name) := r.value;
                && |name| > |base|
                && |old(w.nodes)| <= ino < |w.nodes|
                && w.nodes[ino] == Node(Regular, [], creationMode)
                && ino in w.created && w.mine == old(w.mine) + {name} && At(w.entries, name) == Some(ino)
                && |w.schedule| <= Monus(|old(w.schedule)|, 1)
      ensures old(w.schedule) == [] ==>
                && (r.Err? ==> w.entries == old(w.entries)
                               && AllTaken(w.entries, base, old(w.sequence), old(w.sequence) + ATTEMPTS))
                && (r.Ok? ==> r.value.1 !in old(w.entries) && w.entries == old(w.entries)[r.value.1 := r.value.0])
                && (TempName(base, pid, old(w.sequence)) !in old(w.entries) ==>
                      && r.Ok? && w.sequence == old(w.sequence) + 1
                      && r.value.1 == TempName(base, pid, old(w.sequence)))
    {
      for attempt := 0 to ATTEMPTS
        invariant Valid() && OwnStep(old(w), w) && SameRecord(old(w), w) && MineKept(old(w), w, {})
        invariant w.sequence == old(w.sequence) + attempt
        invariant old(w.schedule) == [] ==> w.entries == old(w.entries)
        invariant old(w.schedule) == [] ==> AllTaken(w.entries, base, old(w.sequence), w.sequence)
      {
        var name := TempName(base, pid, w.sequence);
        w := w.(sequence := w.sequence + 1);
        var made := CreateExclusive(name);
        if made.Err? {
          return Err(made.error);
        }
        if made.value.Some? {
          return Ok((made.value.value, name));
        }
      }
      return Err(Exists);
    }

    /** `vacant_temporary_name`: a name of this call's own, created and unlinked again. */
    method VacantName(base: Name) returns (r: Reply<Name>)
      requires Valid() && |base| >= |target|
      modifies this
      ensures Valid() && OwnStep(old(w), w) && w.changes == old(w.changes)
      ensures LostWithin(old(w), w, w.created)
      ensures w.polite ==> forall n | n in old(w.mine) && |n| <= |base| :: At(w.entries, n) == At(old(w.entries), n)
      ensures r.Ok? ==> |w.schedule| <= Monus(|old(w.schedule)|, 2)
      ensures r.Ok? ==> |r.value| > |base| && r.value in w.mine && r.value !in w.entries
      ensures old(w.schedule) == [] ==>
                && (r.Ok? ==> w.entries == old(w.entries))
                && (TempName(base, pid, old(w.sequence)) !in old(w.entries) ==>
                      && r.Ok? && w.sequence == old(w.sequence) + 1
                      && r.value == TempName(base, pid, old(w.sequence)))
    {
      var made := CreateTemporary(base);
      if made.Err? {
        return Err(made.error);
      }
      var name := made.value.1;
      var unlinked := UnlinkName(name);
      if unlinked.Err? {
        return Err(unlinked.error);
      }
      assert old(w.schedule) == [] ==> w.entries == old(w.entries);
      return Ok(name);
    }

    /** `write_temporary`: contents, then permissions, through the open file. */
    method WriteTemporary(ino: Ino, contents: Bytes, mode: Option<nat>) returns (r: Reply<()>)
      requires Valid() && ino < |w.nodes| && w.nodes[ino].kind == Regular
      modifies this
      ensures Valid() && Later(old(w), w) && SameRecord(old(w), w) && MineKept(old(w), w, {})
      ensures w.sequence == old(w.sequence) && |w.schedule| <= Monus(|old(w.schedule)|, 1)
      ensures forall i | 0 <= i < |old(w.nodes)| && i != ino :: w.nodes[i] == old(w.nodes)[i]
      ensures w.nodes[ino].kind == Regular
      ensures r.Ok? ==> w.nodes[ino] == Node(Regular, contents, mode.GetOr(old(w.nodes)[ino].mode))
      ensures old(w.schedule) == [] ==> r.Ok? && w.entries == old(w.entries) && |w.nodes| == |old(w.nodes)|
    {
      var fault := Await();
      if fault {
        return Err(Fault);
      }
      w := w.(nodes := w.nodes[ino := w.nodes[ino].(contents := contents)]);
      if mode.Some? {
        fault := Await();
        if fault {
          return Err(Fault);
        }
        w := w.(nodes := w.nodes[ino := w.nodes[ino].(mode := mode.value)]);
      }
      return Ok(());
    }

    // ---- quarantine, commit and observation --------------------------------------------------

    /** Nobody interferes, and `name` is the regular file `expected` with a free quarantine name. */
    ghost predicate Removable(name: Name, expected: Ino)
      reads this
      requires Valid()
    {
      && w.schedule == [] && At(w.entries, name) == Some(expected)
      && w.nodes[expected].kind == Regular
      && TempName(name, pid, w.sequence) !in w.entries
    }

    /** Renames what `name` holds to a fresh quarantine name; `None` when there is nothing. */
    method TakeAside(name: Name) returns (r: Reply<Option<Name>>)
      requires Valid() && name in w.mine
      modifies this
      ensures Valid() && OwnStep(old(w), w) && w.changes == old(w.changes)
      ensures LostWithin(old(w), w, w.created)
      ensures r.Ok? && r.value.Some? ==> r.value.value in w.mine && r.value.value != name
      ensures old(w.schedule) == [] && TempName(name, pid, old(w.sequence)) !in old(w.entries) ==>
                && r.Ok? && w.sequence == old(w.sequence) + 1
                && (r.value.None? <==> name !in old(w.entries))
                && (r.value.None? ==> w.entries == old(w.entries))
                && (r.value.Some? ==>
                      && r.value.value !in old(w.entries)
                      && w.entries == (old(w.entries) - {name})[r.value.value := old(w.entries)[name]])
    {
      var vacant := VacantName(name);
      if vacant.Err? {
        return Err(vacant.error);
      }
      var moved := MoveNoReplace(name, vacant.value);
      if moved.Err? {
        return if moved.error == NoEntry then Ok(None) else Err(moved.error);
      }
      return Ok(Some(vacant.value));
    }

    /** Unlinks a quarantined entry if it is `expected`, else puts it back and asks to retry. */
    method SettleQuarantine(name: Name, quarantine: Name, expected: Ino) returns (r: Option<Reply<()>>)
      requires Valid() && name in w.mine && quarantine in w.mine && name != quarantine
      modifies this
      ensures Valid() && OwnStep(old(w), w) && w.changes == old(w.changes)
      ensures LostWithin(old(w), w, {expected})
      ensures old(w.schedule) == [] && At(old(w.entries), quarantine) == Some(expected)
              && old(w.nodes)[expected].kind == Regular ==>
                r.Some? && r.value.Ok? && w.entries == old(w.entries) - {quarantine}
      ensures old(w.schedule) == [] && quarantine in old(w.entries) && old(w.entries)[quarantine] != expected
              && name !in old(w.entries) ==>
                && r.None? && w.sequence == old(w.sequence)
                && w.entries == (old(w.entries) - {quarantine})[name := old(w.entries)[quarantine]]
    {
      var found := Stat(quarantine);
      if found.Err? || found.value.None? {
        return Some(Err(Fault));
      }
      if found.value == Some(expected) {
        found := Stat(quarantine);
        if found.Err? {
          return Some(Err(found.error));
        }
        if found.value != Some(expected) {
          return None;
        }
        var unlinked := UnlinkName(quarantine);
        return Some(unlinked);
      }
      var back := MoveNoReplace(quarantine, name);
      return if back.Err? then Some(Err(back.error)) else None;
    }

    /** Nobody interferes, `name` holds something else, and all quarantine names are free. */
    ghost predicate Unremovable(name: Name, expected: Ino)
      reads this
    {
      && w.schedule == [] && name in w.entries && w.entries[name] != expected
      && forall q: nat | w.sequence <= q < w.sequence + ATTEMPTS :: TempName(name, pid, q) !in w.entries
    }

    /** One turn of the loop of `remove_identity`; `None` asks for another. */
    method RemoveOnce(name: Name, expected: Ino) returns (r: Option<Reply<()>>)
      requires Valid() && name in w.mine
      modifies this
      ensures Valid() && OwnStep(old(w), w) && w.changes == old(w.changes)
      ensures LostWithin(old(w), w, w.created + {expected})
      ensures old(Removable(name, expected)) ==> r.Some? && r.value.Ok? && w.entries == old(w.entries) - {name}
      ensures old(w.schedule) == [] && TempName(name, pid, old(w.sequence)) !in old(w.entries) ==>
                && (name !in old(w.entries) ==> r.Some? && r.value.Ok? && w.entries == old(w.entries))
                && (name in old(w.entries) && old(w.entries)[name] != expected ==>
                      r.None? && w.entries == old(w.entries) && w.sequence == old(w.sequence) + 1)
    {
      var aside := TakeAside(name);
      if aside.Err? {
        return Some(Err(aside.error));
      }
      if aside.value.None? {
        return Some(Ok(()));
      }
      assert old(w.schedule) == [] && TempName(name, pid, old(w.sequence)) !in old(w.entries) ==>
          && w.entries - {aside.value.value} == old(w.entries) - {name}
          && (w.entries - {aside.value.value})[name := w.entries[aside.value.value]] == old(w.entries);
      r := SettleQuarantine(name, aside.value.value, expected);
    }

    /** `remove_identity`: unlinks `name` by way of a quarantine name, if it still is `expected`. */
    method RemoveIdentity(name: Name, expected: Ino) returns (r: Reply<()>)
      requires Valid() && name in w.mine
      modifies this
      ensures Valid() && OwnStep(old(w), w) && w.changes == old(w.changes)
      ensures LostWithin(old(w), w, w.created + {expected})
      ensures old(Removable(name, expected)) ==> r.Ok? && w.entries == old(w.entries) - {name}
      ensures old(Unremovable(name, expected)) ==>
                r.Err? && w.entries == old(w.entries) && w.sequence == old(w.sequence) + ATTEMPTS
    {
      for attempt := 0 to ATTEMPTS
        invariant Valid() && OwnStep(old(w), w) && w.changes == old(w.changes)
        invariant LostWithin(old(w), w, w.created + {expected})
        invariant old(Removable(name, expected)) ==> attempt == 0 && w == old(w)
        invariant old(Unremovable(name, expected)) ==>
                    w.entries == old(w.entries) && w.sequence == old(w.sequence) + attempt
      {
        var once := RemoveOnce(name, expected);
        if once.Some? {
          return once.value;
        }
      }
      return Err(Refused);
    }

    /** `commit`: publishes the temporary file, by exchange or onto a vacant target. */
    method Commit(temp: Name, ino: Ino, exchange: bool) returns (r: Reply<()>)
      requires Valid() && temp in w.mine && ino in w.created && w.nodes[ino].kind == Regular
      modifies this
      ensures Valid() && OwnStep(old(w), w)
      ensures LostWithin(old(w), w, w.created)
      ensures r.Err? ==> w.changes == old(w.changes)
      ensures r.Ok? && w.polite ==>
                && At(w.entries, target) == Some(ino) && temp in w.mine
                && (exchange ==> temp in w.entries)
                && w.changes == old(w.changes) + [Change(if exchange then At(w.entries, temp) else None, Some(ino))]
      ensures r.Ok? ==> |w.schedule| <= Monus(|old(w.schedule)|, 2)
      ensures old(w.schedule) == [] && At(old(w.entries), temp) != Some(ino) ==> r.Err? && w.entries == old(w.entries)
      ensures old(Removable(temp, ino)) ==>
                var was := old(w.entries);
                && (r.Ok? <==> (exchange <==> target in was))
                && (r.Ok? ==> w.sequence == old(w.sequence) && w.nodes == old(w.nodes))
                && w.entries == if r.Err? then was - {temp}
                                else if exchange then was[temp := was[target]][target := ino]
                                else (was - {temp})[target := ino]
    {
      var found := Stat(temp);
      if found.Err? {
        return Err(found.error);
      }
      if found.value != Some(ino) {
        return Err(Refused);
      }
      if exchange {
        r := Exchange(temp, target);
      } else {
        r := MoveNoReplace(temp, target);
      }
      if r.Err? {
        var cleaned := RemoveIdentity(temp, ino);
      }
    }

    /** The regular file behind `temp`, read through one open file and still there afterwards. */
    method Observe(temp: Name) returns (r: Reply<(Ino, Node)>)
      requires Valid()
      modifies this
      ensures Valid() && Observed(old(w), w)
      ensures r.Ok? ==>
                && r.value.0 < |w.nodes| && r.value.1 == w.nodes[r.value.0]
                && r.value.1.kind == Regular && At(w.entries, temp) == Some(r.value.0)
      ensures r.Ok? ==> |w.schedule| == Monus(|old(w.schedule)|, 3)
      ensures w.polite && temp in w.mine && temp in old(w.entries) && Reliable(old(w.schedule)) ==>
                (r.Ok? <==> w.nodes[old(w.entries)[temp]].kind == Regular)
      ensures old(w.schedule) == [] ==>
                (r.Ok? <==> temp in old(w.entries) && old(w.nodes)[old(w.entries)[temp]].kind == Regular)
    {
      var file := OpenRegular(temp);
      if file.Err? {
        return Err(file.error);
      }
      var node := ReadOpen(file.value);
      if node.Err? {
        return Err(node.error);
      }
      var again := Stat(temp);
      if again.Err? || again.value != Some(file.value) {
        return Err(Refused);
      }
      return Ok((file.value, node.value));
    }

    /** `FileIdentity::regular_at`. */
    method StatRegular(name: Name) returns (r: Reply<Option<Ino>>)
      requires Valid()
      modifies this
      ensures Valid() && Observed(old(w), w)
      ensures r.Ok? ==>
                r.value == if name in w.entries && w.nodes[w.entries[name]].kind == Regular
                           then Some(w.entries[name]) else None
      ensures |w.schedule| == Monus(|old(w.schedule)|, 1)
      ensures Reliable(old(w.schedule)) ==> r.Ok?
    {
      var found := Stat(name);
      if found.Ok? && found.value.Some? && w.nodes[found.value.value].kind != Regular {
        return Ok(None);
      }
      return found;
    }

    // ---- rollback ----------------------------------------------------------------------------

    /**
      `exchange_rollback::candidate`: the file behind `temp`, if it is what the caller saw there;
      recreated from the fallback if it is gone; `None` asks the caller to retry.
    */
    method Candidate(temp: Name, contents: Bytes, mode: Option<nat>) returns (r: Reply<Option<Ino>>)
      requires Valid() && temp in w.mine
      modifies this
      ensures Valid() && OwnStep(old(w), w)
      ensures w.mine == old(w.mine) && w.lost == old(w.lost) && w.changes == old(w.changes)
      ensures r.Ok? && r.value.Some? ==>
                At(w.entries, temp) == r.value && w.nodes[r.value.value].kind == Regular
      ensures w.polite && temp in old(w.entries) ==>
                && At(w.entries, temp) == At(old(w.entries), temp)
                && (r.Ok? ==> r.value.Some? && |w.schedule| <= Monus(|old(w.schedule)|, 4)
                              && Matches(w.nodes[r.value.value], contents, mode))
                && (Reliable(old(w.schedule)) && Matches(w.nodes[old(w.entries)[temp]], contents, mode) ==> r.Ok?)
      ensures old(w.schedule) == [] && temp in old(w.entries) ==>
                && w.entries == old(w.entries) && w.nodes == old(w.nodes) && w.sequence == old(w.sequence)
                && (r.Ok? ==> r.value.Some?)
                && (r.Ok? <==> Matches(w.nodes[w.entries[temp]], contents, mode))
      ensures old(w.schedule) == [] && temp !in old(w.entries) ==> Recreated(old(w), w, r, temp, contents, mode)
    {
      var found := StatRegular(temp);
      if found.Err? {
        return Err(found.error);
      }
      if found.value.Some? {
        var seen := Observe(temp);
        if seen.Err? {
          return Err(seen.error);
        }
        return if Matches(seen.value.1, contents, mode) then Ok(Some(seen.value.0)) else Err(Refused);
      }
      if temp in w.entries {
        return Err(Refused);
      }
      r := Recreate(temp, contents, mode);
    }

    /** The backup written anew, undisturbed. */
    predicate Recreated(s: World, t: World, r: Reply<Option<Ino>>, temp: Name, contents: Bytes, mode: Option<nat>) {
      && r == Ok(Some(|s.nodes|)) && t.entries == s.entries[temp := |s.nodes|]
      && t.nodes == s.nodes + [Node(Regular, contents, mode.GetOr(creationMode))] && t.sequence == s.sequence
    }

    /** The second half of `candidate`: a missing backup is written anew. */
    method Recreate(temp: Name, contents: Bytes, mode: Option<nat>) returns (r: Reply<Option<Ino>>)
      requires Valid() && temp in w.mine && temp !in w.entries
      modifies this
      ensures Valid() && OwnStep(old(w), w)
      ensures w.mine == old(w.mine) && w.lost == old(w.lost) && w.changes == old(w.changes)
      ensures r.Ok? && r.value.Some? ==>
                At(w.entries, temp) == r.value && w.nodes[r.value.value].kind == Regular
      ensures old(w.schedule) == [] ==> Recreated(old(w), w, r, temp, contents, mode)
    {
      var made := CreateExclusive(temp);
      if made.Err? || made.value.None? {
        return made;
      }
      var ino := made.value.value;
      var written := WriteTemporary(ino, contents, mode);
      if written.Err? {
        return Err(written.error);
      }
      var found := Stat(temp);
      if found.Err? {
        return Err(found.error);
      }
      return Ok(if found.value == Some(ino) then Some(ino) else None);
    }

    /** The exchange half of `exchange_rollback::restore`, undone if the target was someone else's. */
    method ExchangeBack(temp: Name, inserted: Ino, restoring: Ino) returns (r: Reply<()>)
      requires Valid() && temp in w.mine && inserted in w.created
      modifies this
      ensures Valid() && OwnStep(old(w), w) && LostWithin(old(w), w, w.created)
      ensures w.polite && At(old(w.entries), temp) == Some(restoring) ==>
                && RolledBack(old(w), w, Some(restoring))
                && (r.Ok? ==> w.changes == old(w.changes) + [Change(Some(inserted), Some(restoring))])
      ensures w.polite && Reliable(old(w.schedule)) && |old(w.schedule)| <= 2
              && At(old(w.entries), temp) == Some(restoring) && old(w.nodes)[restoring].kind == Regular ==>
                GivesBack(old(w), w, target, temp, inserted, restoring)
      ensures old(w.schedule) == [] ==> ExchangedBack(old(w), w, r.Ok?, temp, inserted, restoring)
    {
      var found := Stat(temp);
      if found.Err? || found.value != Some(restoring) {
        return Err(Refused);
      }
      r := ExchangeAndSettle(temp, inserted, restoring);
    }

    /** What `ExchangeBack` does undisturbed. */
    ghost predicate ExchangedBack(s: World, t: World, ok: bool, temp: Name, inserted: Ino, restoring: Ino)
      requires forall n | n in s.entries :: s.entries[n] < |s.nodes|
    {
      && (At(s.entries, temp) != Some(restoring) || target !in s.entries ==> !ok && t.entries == s.entries)
      && (At(s.entries, temp) == Some(restoring) && target in s.entries && s.nodes[restoring].kind == Regular ==>
            && (s.entries[target] != inserted ==> !ok && t.entries == s.entries)
            && (s.entries[target] == inserted && s.nodes[inserted].kind == Regular
                && TempName(temp, pid, s.sequence) !in s.entries ==>
                  ok && t.entries == s.entries[target := restoring] - {temp}))
    }

    method ExchangeAndSettle(temp: Name, inserted: Ino, restoring: Ino) returns (r: Reply<()>)
      requires Valid() && temp in w.mine && inserted in w.created && At(w.entries, temp) == Some(restoring)
      modifies this
      ensures Valid() && OwnStep(old(w), w) && LostWithin(old(w), w, w.created)
      ensures w.polite ==>
                && RolledBack(old(w), w, Some(restoring))
                && (r.Ok? ==> w.changes == old(w.changes) + [Change(Some(inserted), Some(restoring))])
      ensures w.polite && Reliable(old(w.schedule)) && |old(w.schedule)| <= 1
              && old(w.nodes)[restoring].kind == Regular ==>
                GivesBack(old(w), w, target, temp, inserted, restoring)
      ensures old(w.schedule) == [] ==> ExchangedBack(old(w), w, r.Ok?, temp, inserted, restoring)
    {
      var exchanged := Exchange(temp, target);
      if exchanged.Err? {
        return Err(exchanged.error);
      }
      ghost var middle := w;
      assert old(w.schedule) == [] ==>
          && w.entries - {temp} == old(w.entries)[target := restoring] - {temp}
          && w.entries[target := w.entries[temp]][temp := restoring] == old(w.entries);
      r := SettleRollback(temp, inserted, restoring);
      if w.polite && Reliable(old(w.schedule)) && |old(w.schedule)| <= 1 && old(w.nodes)[restoring].kind == Regular {
        GivenBackAfter(old(w), middle, w, target, temp, inserted, restoring);
      }
    }

    /** After the rollback exchange: drops this call's own file, or gives someone else's back. */
    method SettleRollback(temp: Name, inserted: Ino, restoring: Ino) returns (r: Reply<()>)
      requires Valid() && temp in w.mine && inserted in w.created
      modifies this
      ensures Valid() && OwnStep(old(w), w) && LostWithin(old(w), w, w.created)
      ensures r.Ok? ==> w.changes == old(w.changes)
      ensures w.polite ==>
                && (r.Ok? ==> At(old(w.entries), temp) == Some(inserted))
                && (At(old(w.entries), temp) == Some(inserted) ==> w.changes == old(w.changes))
                && (|| w.changes == old(w.changes)
                    || (exists y :: w.changes == old(w.changes) + [Change(y, At(old(w.entries), temp))]))
      ensures old(w.schedule) == [] && At(old(w.entries), target) == Some(restoring)
              && old(w.nodes)[restoring].kind == Regular && old(Removable(temp, inserted)) ==>
                r.Ok? && w.entries == old(w.entries) - {temp}
      ensures old(w.schedule) == [] && temp in old(w.entries) && old(w.entries)[temp] != inserted
              && At(old(w.entries), target) == Some(restoring) && old(w.nodes)[restoring].kind == Regular ==>
                var x := old(w.entries)[temp];
                && r.Err? && w.entries == old(w.entries)[target := x][temp := restoring]
                && w.changes == old(w.changes) + [Change(Some(restoring), Some(x))]
      ensures old(w.schedule) == [] && temp in old(w.entries) && At(old(w.entries), target) != Some(restoring) ==>
                r.Err? && w.entries == old(w.entries)
    {
      var found := Stat(temp);
      if found.Err? || found.value.None? {
        return Err(Fault);
      }
      var public := StatRegular(target);
      if public.Err? || public.value != Some(restoring) {
        return Err(Refused);
      }
      if found.value == Some(inserted) {
        r := RemoveIdentity(temp, inserted);
      } else {
        r := UndoExchange(temp, restoring, found.value.value);
      }
    }

    /** Gives a concurrent public replacement back, if nothing moved since. */
    method UndoExchange(temp: Name, restoring: Ino, displaced: Ino) returns (r: Reply<()>)
      requires Valid() && temp in w.mine
      modifies this
      ensures Valid() && OwnStep(old(w), w) && w.lost == old(w.lost) && r.Err?
      ensures w.polite ==>
                || w.changes == old(w.changes)
                || (exists y :: w.changes == old(w.changes) + [Change(y, Some(displaced))])
      ensures old(w.schedule) == [] ==>
                var was := old(w.entries);
                var both := At(was, target) == Some(restoring) && At(was, temp) == Some(displaced);
                && w.entries == (if both then was[target := displaced][temp := restoring] else was)
                && (both ==> w.changes == old(w.changes) + [Change(Some(restoring), Some(displaced))])
    {
      var public := Stat(target);
      if public.Ok? && public.value == Some(restoring) {
        var found := Stat(temp);
        if found.Ok? && found.value == Some(displaced) {
          var exchanged := Exchange(temp, target);
        }
      }
      return Err(Refused);
    }

    /** What a rollback does undisturbed: with a backup that matches, with another one, and with none. */
    ghost predicate RestoredUndisturbed(s: World, t: World, ok: bool, temp: Name, inserted: Ino,
                                        contents: Bytes, mode: Option<nat>)
      requires forall n | n in s.entries :: s.entries[n] < |s.nodes|
    {
      if temp in s.entries then
        if Matches(s.nodes[s.entries[temp]], contents, mode)
        then ExchangedBack(s, t, ok, temp, inserted, s.entries[temp])
        else !ok && t.entries == s.entries
      else
        var again := |s.nodes|;
        && (At(s.entries, target) != Some(inserted) ==> !ok && t.entries == s.entries[temp := again])
        && (At(s.entries, target) == Some(inserted) && s.nodes[inserted].kind == Regular
            && TempName(temp, pid, s.sequence) !in s.entries ==>
              && ok && t.entries == s.entries[target := again] && again < |t.nodes|
              && t.nodes[again] == Node(Regular, contents, mode.GetOr(creationMode)))
    }

    lemma RestoredAnew(s: World, c: World, t: World, ok: bool, candidate: Reply<Option<Ino>>, temp: Name, inserted: Ino,
                       contents: Bytes, mode: Option<nat>)
      requires (forall n | n in s.entries :: s.entries[n] < |s.nodes|) && temp !in s.entries && temp != target
      requires inserted < |s.nodes| && TempName(temp, pid, s.sequence) != temp
      requires Recreated(s, c, candidate, temp, contents, mode)
      requires ExchangedBack(c, t, ok, temp, inserted, candidate.value.value) && NodesKept(c, t)
      ensures RestoredUndisturbed(s, t, ok, temp, inserted, contents, mode)
    {
      var again := |s.nodes|;
      assert s.entries[temp := again][target := again] - {temp} == s.entries[target := again];
    }

    /** One turn of the loop of `exchange_rollback::restore`; `None` asks for another. */
    method RestoreOnce(temp: Name, inserted: Ino, contents: Bytes, mode: Option<nat>) returns (r: Option<Reply<()>>)
      requires Valid() && temp in w.mine && inserted in w.created
      modifies this
      ensures Valid() && OwnStep(old(w), w) && LostWithin(old(w), w, w.created)
      ensures r.None? ==> w.mine == old(w.mine) && w.lost == old(w.lost) && w.changes == old(w.changes)
      ensures w.polite && temp in old(w.entries) ==>
                && r.Some? && RolledBack(old(w), w, At(old(w.entries), temp))
                && (r.value.Ok? ==> w.changes == old(w.changes) + [Change(Some(inserted), At(old(w.entries), temp))])
                && (!Matches(w.nodes[old(w.entries)[temp]], contents, mode) ==> w.changes == old(w.changes))
                && (Reliable(old(w.schedule)) && |old(w.schedule)| <= 6 ==>
                      GivesBack(old(w), w, target, temp, inserted, old(w.entries)[temp]))
      ensures old(w.schedule) == [] ==>
                r.Some? && RestoredUndisturbed(old(w), w, r.value.Ok?, temp, inserted, contents, mode)
    {
      var candidate := Candidate(temp, contents, mode);
      if candidate.Err? {
        return Some(Err(candidate.error));
      }
      if candidate.value.None? {
        return None;
      }
      ghost var c := w;
      var back := ExchangeBack(temp, inserted, candidate.value.value);
      if old(w.schedule) == [] && temp !in old(w.entries) {
        RestoredAnew(old(w), c, w, back.Ok?, candidate, temp, inserted, contents, mode);
      }
      return Some(back);
    }

    /** `exchange_rollback::restore`. */
    method Restore(temp: Name, inserted: Ino, contents: Bytes, mode: Option<nat>) returns (r: Reply<()>)
      requires Valid() && temp in w.mine && inserted in w.created
      modifies this
      ensures Valid() && OwnStep(old(w), w) && LostWithin(old(w), w, w.created)
      ensures w.polite && temp in old(w.entries) ==>
                && RolledBack(old(w), w, At(old(w.entries), temp))
                && (r.Ok? ==> w.changes == old(w.changes) + [Change(Some(inserted), At(old(w.entries), temp))])
                && (!Matches(w.nodes[old(w.entries)[temp]], contents, mode) ==> w.changes == old(w.changes))
                && (Reliable(old(w.schedule)) && |old(w.schedule)| <= 6 ==>
                      GivesBack(old(w), w, target, temp, inserted, old(w.entries)[temp]))
      ensures old(w.schedule) == [] ==> RestoredUndisturbed(old(w), w, r.Ok?, temp, inserted, contents, mode)
    {
      for attempt := 0 to ATTEMPTS
        invariant Valid() && OwnStep(old(w), w)
        invariant w.mine == old(w.mine) && w.lost == old(w.lost) && w.changes == old(w.changes)
        invariant w.polite && temp in old(w.entries) ==> attempt == 0 && w == old(w)
        invariant old(w.schedule) == [] ==> attempt == 0 && w == old(w)
      {
        var once := RestoreOnce(temp, inserted, contents, mode);
        if once.Some? {
          return once.value;
        }
      }
      return Err(Refused);
    }

    /** What restoring a removed file does undisturbed: with a backup, and with none. */
    ghost predicate RestoredMissing(s: World, t: World, ok: bool, temp: Name, contents: Bytes, mode: Option<nat>)
      requires forall n | n in s.entries :: s.entries[n] < |s.nodes|
    {
      if temp in s.entries then
        && (ok <==> target !in s.entries && Matches(s.nodes[s.entries[temp]], contents, mode))
        && t.entries == if ok then (s.entries - {temp})[target := s.entries[temp]] else s.entries
      else
        && (ok <==> target !in s.entries)
        && t.entries == s.entries[if ok then target else temp := |s.nodes|] && |s.nodes| < |t.nodes|
        && t.nodes[|s.nodes|] == Node(Regular, contents, mode.GetOr(creationMode))
    }

    /** One turn of the loop of `exchange_rollback::restore_missing`; `None` asks for another. */
    method RestoreMissingOnce(temp: Name, contents: Bytes, mode: Option<nat>) returns (r: Option<Reply<()>>)
      requires Valid() && temp in w.mine
      modifies this
      ensures Valid() && OwnStep(old(w), w) && w.lost == old(w.lost)
      ensures r.None? ==> w.mine == old(w.mine) && w.changes == old(w.changes)
      ensures w.polite && temp in old(w.entries) ==>
                var restored := old(w.changes) + [Change(None, At(old(w.entries), temp))];
                && r.Some? && (w.changes == old(w.changes) || w.changes == restored)
                && (r.value.Ok? ==> w.changes == restored)
      ensures w.polite && temp in old(w.entries) && Reliable(old(w.schedule)) && |old(w.schedule)| <= 6
              && Matches(w.nodes[old(w.entries)[temp]], contents, mode) ==>
                target in w.entries
      ensures old(w.schedule) == [] ==>
                r.Some? && RestoredMissing(old(w), w, r.value.Ok?, temp, contents, mode)
    {
      var candidate := Candidate(temp, contents, mode);
      if candidate.Err? {
        return Some(Err(candidate.error));
      }
      if candidate.value.None? {
        return None;
      }
      var back := MoveBack(temp, candidate.value.value);
      assert old(w.schedule) == [] && temp !in old(w.entries) ==>
          old(w.entries)[temp := |old(w.nodes)|] - {temp} == old(w.entries);
      return Some(back);
    }

    /** `exchange_rollback::restore_missing`. */
    method RestoreMissing(temp: Name, contents: Bytes, mode: Option<nat>) returns (r: Reply<()>)
      requires Valid() && temp in w.mine
      modifies this
      ensures Valid() && OwnStep(old(w), w) && w.lost == old(w.lost)
      ensures w.polite && temp in old(w.entries) ==>
                var restored := old(w.changes) + [Change(None, At(old(w.entries), temp))];
                && (w.changes == old(w.changes) || w.changes == restored)
                && (r.Ok? ==> w.changes == restored)
      ensures w.polite && temp in old(w.entries) && Reliable(old(w.schedule)) && |old(w.schedule)| <= 6
              && Matches(w.nodes[old(w.entries)[temp]], contents, mode) ==>
                target in w.entries
      ensures old(w.schedule) == [] ==> RestoredMissing(old(w), w, r.Ok?, temp, contents, mode)
    {
      for attempt := 0 to ATTEMPTS
        invariant Valid() && OwnStep(old(w), w)
        invariant w.mine == old(w.mine) && w.lost == old(w.lost) && w.changes == old(w.changes)
        invariant w.polite && temp in old(w.entries) ==> attempt == 0 && w == old(w)
        invariant old(w.schedule) == [] ==> attempt == 0 && w == old(w)
      {
        var once := RestoreMissingOnce(temp, contents, mode);
        if once.Some? {
          return once.value;
        }
      }
      return Err(Refused);
    }

    /** What `MoveBack` does undisturbed. */
    ghost predicate MovedBack(s: World, t: World, ok: bool, temp: Name, restoring: Ino) {
      && (ok <==> At(s.entries, temp) == Some(restoring) && target !in s.entries)
      && t.entries == if ok then (s.entries - {temp})[target := restoring] else s.entries
    }

    /** The rename half of `restore_missing`. */
    method MoveBack(temp: Name, restoring: Ino) returns (r: Reply<()>)
      requires Valid() && temp in w.mine && restoring < |w.nodes|
      modifies this
      ensures Valid() && OwnStep(old(w), w) && w.lost == old(w.lost)
      ensures w.polite && At(old(w.entries), temp) == Some(restoring) ==>
                var restored := old(w.changes) + [Change(None, Some(restoring))];
                && (w.changes == old(w.changes) || w.changes == restored)
                && (r.Ok? ==> w.changes == restored)
      ensures w.polite && Reliable(old(w.schedule)) && |old(w.schedule)| <= 2
              && At(old(w.entries), temp) == Some(restoring) ==>
                target in w.entries
      ensures old(w.schedule) == [] && old(w.nodes)[restoring].kind == Regular ==>
                MovedBack(old(w), w, r.Ok?, temp, restoring)
    {
      var found := Stat(temp);
      if found.Err? || found.value != Some(restoring) {
        return Err(Refused);
      }
      var moved := MoveNoReplace(temp, target);
      if moved.Err? {
        return moved;
      }
      var public := StatRegular(target);
      return if public.Ok? && public.value == Some(restoring) then Ok(()) else Err(Refused);
    }

    // ---- the conditional calls ---------------------------------------------------------------

    /** Nobody interferes, and the two temporary names the call is going to use are free. */
    ghost predicate Undisturbed()
      reads this
    {
      var temp := TempName(target, pid, w.sequence);
      && w.schedule == [] && temp !in w.entries && TempName(temp, pid, w.sequence + 1) !in w.entries
    }

    /** Nothing this call created since `s` is left behind. */
    ghost predicate NothingLeft(s: World, t: World) {
      forall n | n in t.mine && n !in s.mine :: n !in t.entries
    }

    /** A new temporary file, written completely or, unless that fails too, removed again. */
    method Draft(contents: Bytes, mode: Option<nat>) returns (r: Reply<(Ino, Name)>)
      requires Valid()
      modifies this
      ensures Valid() && OwnStep(old(w), w) && LostWithin(old(w), w, w.created)
      ensures w.changes == old(w.changes)
      ensures r.Ok? ==>
                && r.value.0 in w.created && |old(w.nodes)| <= r.value.0 && r.value.1 in w.mine
                && w.nodes[r.value.0] == Node(Regular, contents, mode.GetOr(creationMode))
                && |w.schedule| <= Monus(|old(w.schedule)|, 2)
      ensures r.Err? && w.polite && |old(w.schedule)| <= 2 ==> NothingLeft(old(w), w)
      ensures old(w.schedule) == [] && TempName(target, pid, old(w.sequence)) !in old(w.entries) ==>
                && r.Ok? && r.value.1 == TempName(target, pid, old(w.sequence))
                && w.entries == old(w.entries)[r.value.1 := r.value.0]
                && w.sequence == old(w.sequence) + 1
    {
      var made := CreateTemporary(target);
      if made.Err? {
        return Err(made.error);
      }
      var written := WriteTemporary(made.value.0, contents, mode);
      if written.Err? {
        var cleaned := UnlinkName(made.value.1);
        return Err(written.error);
      }
      return made;
    }

    /** Writes the new contents to a temporary file; its mode follows the existing file's. */
    method Prepare(contents: Bytes, exactMode: Option<nat>) returns (r: Reply<(Ino, Name, Option<nat>)>)
      requires Valid()
      modifies this
      ensures Valid() && OwnStep(old(w), w) && LostWithin(old(w), w, w.created)
      ensures w.changes == old(w.changes)
      ensures r.Ok? ==>
                var (ino, temp, existing) := r.value;
                && ino in w.created && |old(w.nodes)| <= ino && temp in w.mine
                && w.nodes[ino] == Node(Regular, contents, exactMode.GetOr(existing.GetOr(creationMode)))
                && |w.schedule| <= Monus(|old(w.schedule)|, 3)
      ensures r.Err? && w.polite && |old(w.schedule)| <= 3 ==> NothingLeft(old(w), w)
      ensures old(Undisturbed()) ==>
                var was := old(w.entries);
                && (r.Ok? <==> target in was ==> old(w.nodes)[was[target]].kind == Regular)
                && (r.Err? ==> w.entries == was)
                && (r.Ok? ==>
                      && r.value.1 == TempName(target, pid, old(w.sequence))
                      && w.entries == was[r.value.1 := r.value.0]
                      && w.sequence == old(w.sequence) + 1
                      && r.value.2 == if target in was then Some(old(w.nodes)[was[target]].mode) else None)
    {
      var found := Stat(target);
      if found.Err? {
        return Err(found.error);
      }
      if found.value.Some? && w.nodes[found.value.value].kind != Regular {
        return Err(Refused);
      }
      var existing := if found.value.Some? then Some(w.nodes[found.value.value].mode) else None;
      var draft := Draft(contents, if exactMode.Some? then exactMode else existing);
      return if draft.Err? then Err(draft.error) else Ok((draft.value.0, draft.value.1, existing));
    }

    /** The new file, with the mode it takes over from an existing one unless told otherwise. */
    ghost function NewNode(contents: Bytes, exactMode: Option<nat>): Node
      reads this
      requires Valid()
    {
      Node(Regular, contents, exactMode.GetOr(
             if target in w.entries then w.nodes[w.entries[target]].mode else creationMode))
    }

    /** Prepares the new file and commits it; the displaced entry, if any, is then behind `temp`. */
    method Publish(contents: Bytes, exactMode: Option<nat>, exchange: bool)
      returns (r: Reply<(Ino, Name, Option<nat>)>)
      requires Valid()
      modifies this
      ensures Valid() && OwnStep(old(w), w) && LostWithin(old(w), w, w.created)
      ensures r.Err? ==> w.changes == old(w.changes)
      ensures r.Ok? ==>
                var (ino, temp, existing) := r.value;
                && ino in w.created && |old(w.nodes)| <= ino && temp in w.mine
                && w.nodes[ino] == Node(Regular, contents, exactMode.GetOr(existing.GetOr(creationMode)))
                && |w.schedule| <= Monus(|old(w.schedule)|, 5)
                && (w.polite ==>
                      && (exchange ==> temp in w.entries)
                      && w.changes == old(w.changes)
                           + [Change(if exchange then At(w.entries, temp) else None, Some(ino))])
      ensures old(Undisturbed()) ==>
                var was := old(w.entries);
                && (r.Ok? <==> (exchange <==> target in was)
                               && (target in was ==> old(w.nodes)[was[target]].kind == Regular))
                && (r.Err? ==> w.entries == was)
                && (r.Ok? ==>
                      var (ino, temp, existing) := r.value;
                      && temp == TempName(target, pid, old(w.sequence))
                      && w.entries == (if exchange then was[temp := was[target]] else was)[target := ino]
                      && w.sequence == old(w.sequence) + 1
                      && w.nodes[ino] == old(NewNode(contents, exactMode)))
    {
      r := Prepare(contents, exactMode);
      if r.Ok? {
        assert old(Undisturbed()) ==>
            Removable(r.value.1, r.value.0) && w.entries - {r.value.1} == old(w.entries);
        var committed := Commit(r.value.1, r.value.0, exchange);
        if committed.Err? {
          return Err(committed.error);
        }
      }
    }

    /** What settling does undisturbed, while the replacement is still in place. */
    ghost predicate SettledUndisturbed(s: World, t: World, ok: bool, temp: Name, ino: Ino,
                                       expected: Bytes, expectedMode: Option<nat>, existing: Option<nat>)
      requires forall n | n in s.entries :: s.entries[n] < |s.nodes|
    {
      && (ok <==> temp in s.entries && Matches(s.nodes[s.entries[temp]], expected, expectedMode))
      && (temp in s.entries && s.nodes[s.entries[temp]].kind != Regular ==> t.entries == s.entries)
      && (temp in s.entries && s.nodes[s.entries[temp]].kind == Regular ==>
            t.entries == (if ok then s.entries else s.entries[target := s.entries[temp]]) - {temp})
      && (temp !in s.entries ==>
            && t.entries == s.entries[target := |s.nodes|] && |s.nodes| < |t.nodes|
            && t.nodes[|s.nodes|] == Node(Regular, expected, existing.GetOr(creationMode)))
    }

    /** Rolls back to the file that was seen, or to the expected one if none could be. */
    method RollBack(temp: Name, ino: Ino, seen: Reply<(Ino, Node)>, expected: Bytes, existing: Option<nat>)
      requires Valid() && temp in w.mine && ino in w.created
      requires seen.Ok? ==>
                 && At(w.entries, temp) == Some(seen.value.0)
                 && w.nodes[seen.value.0] == seen.value.1 && seen.value.1.kind == Regular
      modifies this
      ensures Valid() && OwnStep(old(w), w) && LostWithin(old(w), w, w.created)
      ensures w.polite && temp in old(w.entries) ==>
                var displaced := old(w.entries)[temp];
                && RolledBack(old(w), w, Some(displaced))
                && (Reliable(old(w.schedule)) && (|old(w.schedule)| <= 6 || w.nodes[displaced].kind != Regular) ==>
                      GivesBack(old(w), w, target, temp, ino, displaced))
      ensures old(w.schedule) == [] && At(old(w.entries), target) == Some(ino) && old(w.nodes)[ino].kind == Regular
              && TempName(temp, pid, old(w.sequence)) !in old(w.entries) ==>
                var was := old(w.entries);
                && (seen.Ok? ==> w.entries == was[target := was[temp]] - {temp})
                && (temp in was && old(w.nodes)[was[temp]].kind != Regular ==> w.entries == was)
                && (temp !in was ==>
                      && w.entries == was[target := |old(w.nodes)|] && |old(w.nodes)| < |w.nodes|
                      && w.nodes[|old(w.nodes)|] == Node(Regular, expected, existing.GetOr(creationMode)))
    {
      var contents := if seen.Ok? then seen.value.1.contents else expected;
      var mode := if seen.Ok? then Some(seen.value.1.mode) else existing;
      var restored := Restore(temp, ino, contents, mode);
    }

    /** The displaced file is the expected one and goes, or is another one and comes back. */
    method SettleInstalled(temp: Name, ino: Ino, expected: Bytes, expectedMode: Option<nat>, existing: Option<nat>)
      returns (r: Reply<()>)
      requires Valid() && temp in w.mine && ino in w.created
      modifies this
      ensures Valid() && OwnStep(old(w), w)
      ensures w.polite && temp in old(w.entries) ==>
                var displaced := old(w.entries)[temp];
                && (r.Ok? ==> w.changes == old(w.changes) && Matches(w.nodes[displaced], expected, expectedMode))
                && RolledBack(old(w), w, Some(displaced))
                && LostWithin(old(w), w, w.created
                     + if Matches(w.nodes[displaced], expected, expectedMode) then {displaced} else {})
                && (Reliable(old(w.schedule)) && |old(w.schedule)| <= 9 ==>
                      GivesBack(old(w), w, target, temp, ino, displaced))
      ensures old(w.schedule) == [] && At(old(w.entries), target) == Some(ino) && old(w.nodes)[ino].kind == Regular
              && TempName(temp, pid, old(w.sequence)) !in old(w.entries) ==>
                SettledUndisturbed(old(w), w, r.Ok?, temp, ino, expected, expectedMode, existing)
    {
      var seen := Observe(temp);
      if seen.Ok? {
        var (candidate, node) := seen.value;
        if Matches(node, expected, expectedMode) {
          r := RemoveIdentity(temp, candidate);
          return;
        }
      }
      RollBack(temp, ino, seen, expected, existing);
      return Err(Refused);
    }

    /** After the commit: keeps the replacement, or rolls it back if the wrong file was displaced. */
    method SettleWrite(temp: Name, ino: Ino, expected: Bytes, expectedMode: Option<nat>, existing: Option<nat>)
      returns (r: Reply<()>)
      requires Valid() && temp in w.mine && ino in w.created
      modifies this
      ensures Valid() && OwnStep(old(w), w)
      ensures w.polite && temp in old(w.entries) ==>
                var displaced := old(w.entries)[temp];
                && (r.Ok? ==> w.changes == old(w.changes) && Matches(w.nodes[displaced], expected, expectedMode))
                && RolledBack(old(w), w, Some(displaced))
                && LostWithin(old(w), w, w.created
                     + if Matches(w.nodes[displaced], expected, expectedMode) then {displaced} else {})
                && (Reliable(old(w.schedule)) && |old(w.schedule)| <= 10 ==>
                      GivesBack(old(w), w, target, temp, ino, displaced))
      ensures old(w.schedule) == [] ==>
                && (At(old(w.entries), target) != Some(ino) ==> r.Err? && w.entries == old(w.entries))
                && (At(old(w.entries), target) == Some(ino) && old(w.nodes)[ino].kind == Regular
                    && TempName(temp, pid, old(w.sequence)) !in old(w.entries) ==>
                      SettledUndisturbed(old(w), w, r.Ok?, temp, ino, expected, expectedMode, existing))
    {
      var installed := StatRegular(target);
      if installed.Err? || installed.value != Some(ino) {
        return Err(Refused);
      }
      r := SettleInstalled(temp, ino, expected, expectedMode, existing);
    }

    /** What follows the exchange, judged from the world the call started in. */
    method SettleReplacement(ghost start: World, temp: Name, ino: Ino, existing: Option<nat>,
                             expected: Bytes, expectedMode: Option<nat>, contents: Bytes, exactMode: Option<nat>)
      returns (r: Reply<()>)
      requires Valid() && temp in w.mine && ino in w.created && w.nodes[ino].kind == Regular
      requires Matches(w.nodes[ino], contents, exactMode)
      requires w.polite ==>
                 temp in w.entries && w.lost <= w.created && w.changes == [Change(At(w.entries, temp), Some(ino))]
      modifies this
      ensures Valid() && OwnStep(old(w), w)
      ensures w.polite ==> Harmless(w, Some(expected), expectedMode)
      ensures w.polite ==> Linearized(w, r.Ok?, Some(expected), expectedMode, contents, exactMode)
      ensures w.polite && Reliable(old(w.schedule)) && |old(w.schedule)| <= 10 ==> GivenBack(w, target)
      ensures old(w.schedule) == [] && target in start.entries && temp !in start.entries
              && start.entries[target] < |old(w.nodes)| && old(w.nodes)[start.entries[target]].kind == Regular
              && old(w.entries) == start.entries[temp := start.entries[target]][target := ino]
              && TempName(temp, pid, old(w.sequence)) !in old(w.entries) ==>
                Swapped(start, w, r.Ok?, target, Matches(old(w.nodes)[start.entries[target]], expected, expectedMode),
                        old(w.nodes)[ino])
    {
      ghost var committed := w;
      r := SettleWrite(temp, ino, expected, expectedMode, existing);
      if committed.schedule == [] && target in start.entries && temp !in start.entries
         && start.entries[target] < |committed.nodes| && committed.nodes[start.entries[target]].kind == Regular
         && committed.entries == start.entries[temp := start.entries[target]][target := ino]
         && TempName(temp, pid, committed.sequence) !in committed.entries
      {
        SettledSwap(start, committed, w, r.Ok?, target, temp, ino, committed.nodes[ino]);
      }
      if w.polite {
        SettledPromises(committed, w, r.Ok?, committed.entries[temp], ino,
                        expected, expectedMode, contents, exactMode);
        if Reliable(committed.schedule) && |committed.schedule| <= 10 {
          GivesBackOverall(committed, w, target, temp, ino, committed.entries[temp]);
        }
      }
    }

    /** `write_if_unchanged` onto an expected file. */
    method ReplaceExpected(expected: Bytes, expectedMode: Option<nat>, contents: Bytes, exactMode: Option<nat>)
      returns (r: Reply<()>)
      requires Valid() && w == Start(w.entries, w.nodes, w.sequence, w.schedule)
      modifies this
      ensures Valid() && OwnStep(old(w), w)
      ensures w.polite ==> Harmless(w, Some(expected), expectedMode)
      ensures w.polite ==> Linearized(w, r.Ok?, Some(expected), expectedMode, contents, exactMode)
      ensures w.polite && Reliable(old(w.schedule)) && |old(w.schedule)| <= 15 ==> GivenBack(w, target)
      ensures old(Undisturbed()) ==>
                Swapped(old(w), w, r.Ok?, target, Current(old(w), target, Some(expected), expectedMode),
                        old(NewNode(contents, exactMode)))
    {
      var published := Publish(contents, exactMode, true);
      if published.Err? {
        return Err(published.error);
      }
      var (ino, temp, existing) := published.value;
      assert old(Undisturbed()) ==> TempName(temp, pid, w.sequence) !in w.entries;
      r := SettleReplacement(old(w), temp, ino, existing, expected, expectedMode, contents, exactMode);
    }

    /** `write_if_unchanged` onto an expected absence. */
    method CreateExpected(contents: Bytes, exactMode: Option<nat>) returns (r: Reply<()>)
      requires Valid() && w == Start(w.entries, w.nodes, w.sequence, w.schedule)
      modifies this
      ensures Valid() && OwnStep(old(w), w)
      ensures w.polite ==> Harmless(w, None, None)
      ensures w.polite ==> Linearized(w, r.Ok?, None, None, contents, exactMode)
      ensures r.Ok? ==> InPlace(w, target, contents, exactMode)
      ensures w.polite ==> |w.changes| <= 1
      ensures old(Undisturbed()) ==>
                Swapped(old(w), w, r.Ok?, target, Current(old(w), target, None, None),
                        old(NewNode(contents, exactMode)))
    {
      var published := Publish(contents, exactMode, false);
      if published.Err? {
        return Err(published.error);
      }
      var installed := StatRegular(target);
      return if installed.Ok? && installed.value == Some(published.value.0) then Ok(()) else Err(Refused);
    }

    /**
      `write_if_unchanged`. While others leave this call's temporary names alone:
      - nobody else's file is unlinked, except one that was read and is what the caller expected;
        what else was displaced is retained, and no other file is lost;
      - a success is one atomic transition of the target, from an entry that matches `expected`
        straight to the new contents, and no other transition;
      - a failure publishes at most the new contents and then only gives back what it displaced.
      Undisturbed, it is exactly compare-and-swap, and a failure leaves the directory as it was.
    */
    method WriteIfUnchanged(expected: Option<Bytes>, expectedMode: Option<nat>,
                            contents: Bytes, exactMode: Option<nat>)
      returns (r: Reply<()>)
      requires Valid() && w == Start(w.entries, w.nodes, w.sequence, w.schedule)
      modifies this
      ensures Valid() && OwnStep(old(w), w)
      ensures w.polite ==> Harmless(w, expected, expectedMode) && Retained(w, expected, expectedMode)
      ensures w.polite ==> Spared(w, expected, expectedMode)
      ensures w.polite ==> Linearized(w, r.Ok?, expected, expectedMode, contents, exactMode)
      ensures w.polite && Reliable(old(w.schedule)) && |old(w.schedule)| <= 15 ==> GivenBack(w, target)
      ensures expected.None? && r.Ok? ==> InPlace(w, target, contents, exactMode)
      ensures old(Undisturbed()) ==>
                Swapped(old(w), w, r.Ok?, target, Current(old(w), target, expected, expectedMode),
                        old(NewNode(contents, exactMode)))
    {
      match expected {
        case Some(e) => r := ReplaceExpected(e, expectedMode, contents, exactMode);
        case None => r := CreateExpected(contents, exactMode);
      }
      if w.polite {
        DisplacedStaysLinked(w, expected, expectedMode);
        UntakenStaysLinked(w, first, target, expected, expectedMode);
      }
    }

    /** Moves the target to a temporary name, whatever it is. */
    method Displace() returns (r: Reply<Name>)
      requires Valid()
      modifies this
      ensures Valid() && OwnStep(old(w), w) && LostWithin(old(w), w, w.created)
      ensures r.Err? ==> w.changes == old(w.changes)
      ensures r.Ok? ==>
                && r.value in w.mine && r.value in w.entries && |w.schedule| <= Monus(|old(w.schedule)|, 3)
                && w.changes == old(w.changes) + [Change(Some(w.entries[r.value]), None)]
      ensures old(Undisturbed()) ==>
                var was := old(w.entries);
                && (r.Ok? <==> target in was)
                && (r.Err? ==> w.entries == was)
                && (r.Ok? ==>
                      && r.value !in was && w.entries == (was - {target})[r.value := was[target]]
                      && TempName(r.value, pid, w.sequence) !in w.entries)
    {
      var vacant := VacantName(target);
      if vacant.Err? {
        return vacant;
      }
      var moved := MoveNoReplace(target, vacant.value);
      return if moved.Err? then Err(moved.error) else vacant;
    }

    /** What settling a removal does undisturbed. */
    ghost predicate RemovalSettled(s: World, t: World, ok: bool, temp: Name, expected: Bytes, expectedMode: Option<nat>)
      requires forall n | n in s.entries :: s.entries[n] < |s.nodes|
    {
      && (ok <==> temp in s.entries && Matches(s.nodes[s.entries[temp]], expected, expectedMode))
      && (ok ==> t.entries == s.entries - {temp})
      && (!ok && temp in s.entries ==>
            t.entries == if target !in s.entries && s.nodes[s.entries[temp]].kind == Regular
                         then (s.entries - {temp})[target := s.entries[temp]] else s.entries)
      && (temp !in s.entries ==> RestoredMissing(s, t, target !in s.entries, temp, expected, expectedMode))
    }

    /** Puts back the file that was seen, or the expected one if none could be. */
    method PutBack(temp: Name, seen: Reply<(Ino, Node)>, expected: Bytes, expectedMode: Option<nat>)
      requires Valid() && temp in w.mine
      requires seen.Ok? ==>
                 && At(w.entries, temp) == Some(seen.value.0)
                 && w.nodes[seen.value.0] == seen.value.1 && seen.value.1.kind == Regular
      modifies this
      ensures Valid() && OwnStep(old(w), w) && w.lost == old(w.lost)
      ensures w.polite && temp in old(w.entries) ==>
                || w.changes == old(w.changes)
                || w.changes == old(w.changes) + [Change(None, Some(old(w.entries)[temp]))]
      ensures w.polite && seen.Ok? && Reliable(old(w.schedule)) && |old(w.schedule)| <= 6 ==> target in w.entries
      ensures old(w.schedule) == [] ==>
                var was := old(w.entries);
                && (seen.Ok? ==>
                      w.entries == if target !in was then (was - {temp})[target := was[temp]] else was)
                && (temp in was && old(w.nodes)[was[temp]].kind != Regular ==> w.entries == was)
                && (temp !in was ==> RestoredMissing(old(w), w, target !in was, temp, expected, expectedMode))
    {
      var contents := if seen.Ok? then seen.value.1.contents else expected;
      var mode := if seen.Ok? then Some(seen.value.1.mode) else expectedMode;
      var restored := RestoreMissing(temp, contents, mode);
    }

    /** After the target was moved aside: unlinks it, or puts it back if it is the wrong file. */
    method SettleRemove(temp: Name, expected: Bytes, expectedMode: Option<nat>) returns (r: Reply<()>)
      requires Valid() && temp in w.mine
      modifies this
      ensures Valid() && OwnStep(old(w), w)
      ensures w.polite && temp in old(w.entries) ==>
                var displaced := old(w.entries)[temp];
                && (r.Ok? ==> w.changes == old(w.changes) && Matches(w.nodes[displaced], expected, expectedMode))
                && (|| w.changes == old(w.changes)
                    || w.changes == old(w.changes) + [Change(None, Some(displaced))])
                && LostWithin(old(w), w, w.created
                     + if Matches(w.nodes[displaced], expected, expectedMode) then {displaced} else {})
      ensures w.polite && temp in old(w.entries) && Reliable(old(w.schedule)) && |old(w.schedule)| <= 9
              && w.nodes[old(w.entries)[temp]].kind == Regular
              && !Matches(w.nodes[old(w.entries)[temp]], expected, expectedMode) ==>
                target in w.entries
      ensures old(w.schedule) == [] && TempName(temp, pid, old(w.sequence)) !in old(w.entries) ==>
                RemovalSettled(old(w), w, r.Ok?, temp, expected, expectedMode)
    {
      var seen := Observe(temp);
      if seen.Ok? {
        var (candidate, node) := seen.value;
        if Matches(node, expected, expectedMode) {
          r := RemoveIdentity(temp, candidate);
          return;
        }
      }
      PutBack(temp, seen, expected, expectedMode);
      return Err(Refused);
    }

    /** What follows the move aside, judged from the world the call started in. */
    method SettleRemoval(ghost start: World, temp: Name, expected: Bytes, expectedMode: Option<nat>)
      returns (r: Reply<()>)
      requires Valid() && temp in w.mine && temp in w.entries
      requires w.changes == [Change(Some(w.entries[temp]), None)] && (w.polite ==> w.lost <= w.created)
      modifies this
      ensures Valid() && OwnStep(old(w), w)
      ensures w.polite ==> Harmless(w, Some(expected), expectedMode)
      ensures w.polite ==> RemovalLinearized(w, r.Ok?, expected, expectedMode)
      ensures w.polite && Reliable(old(w.schedule)) && |old(w.schedule)| <= 9 ==>
                RemovalGivenBack(w, r.Ok?, target, expected, expectedMode)
      ensures old(w.schedule) == [] && TempName(temp, pid, old(w.sequence)) !in old(w.entries)
              && (forall n | n in start.entries :: start.entries[n] < |start.nodes|) && NodesKept(start, old(w))
              && target in start.entries && temp !in start.entries
              && old(w.entries) == (start.entries - {target})[temp := start.entries[target]] ==>
                RemovedExactly(start, w, r.Ok?, target, expected, expectedMode)
    {
      assert target in start.entries && temp !in start.entries
             && w.entries == (start.entries - {target})[temp := start.entries[target]] ==>
          && w.entries - {temp} == start.entries - {target}
          && (w.entries - {temp})[target := w.entries[temp]] == start.entries;
      r := SettleRemove(temp, expected, expectedMode);
    }

    /** `remove_if_unchanged`, step by step. */
    method RemoveExpected(expected: Bytes, expectedMode: Option<nat>) returns (r: Reply<()>)
      requires Valid() && w == Start(w.entries, w.nodes, w.sequence, w.schedule)
      modifies this
      ensures Valid() && OwnStep(old(w), w)
      ensures w.polite ==> Harmless(w, Some(expected), expectedMode)
      ensures w.polite ==> RemovalLinearized(w, r.Ok?, expected, expectedMode)
      ensures w.polite && Reliable(old(w.schedule)) && |old(w.schedule)| <= 12 ==>
                RemovalGivenBack(w, r.Ok?, target, expected, expectedMode)
      ensures old(Undisturbed()) ==> RemovedExactly(old(w), w, r.Ok?, target, expected, expectedMode)
    {
      var displaced := Displace();
      if displaced.Err? {
        return Err(displaced.error);
      }
      r := SettleRemoval(old(w), displaced.value, expected, expectedMode);
    }

    /**
      `remove_if_unchanged`. The same promises as for writing, with absence as the new state.
      Undisturbed, a failure leaves the directory as it was exactly when the target is absent or a
      regular file: anything else stays behind under the temporary name.
    */
    method RemoveIfUnchanged(expected: Bytes, expectedMode: Option<nat>) returns (r: Reply<()>)
      requires Valid() && w == Start(w.entries, w.nodes, w.sequence, w.schedule)
      modifies this
      ensures Valid() && OwnStep(old(w), w)
      ensures w.polite ==> Harmless(w, Some(expected), expectedMode) && Retained(w, Some(expected), expectedMode)
      ensures w.polite ==> Spared(w, Some(expected), expectedMode)
      ensures w.polite ==> RemovalLinearized(w, r.Ok?, expected, expectedMode)
      ensures w.polite && Reliable(old(w.schedule)) && |old(w.schedule)| <= 12 ==>
                RemovalGivenBack(w, r.Ok?, target, expected, expectedMode)
      ensures old(Undisturbed()) ==> RemovedExactly(old(w), w, r.Ok?, target, expected, expectedMode)
    {
      r := RemoveExpected(expected, expectedMode);
      if w.polite {
        DisplacedStaysLinked(w, Some(expected), expectedMode);
        UntakenStaysLinked(w, first, target, Some(expected), expectedMode);
      }
    }
  }

  /** Removing a directory nobody else touches fails, and the directory no longer has its name. */
  method DirectoryStaysDisplaced(expected: Bytes, mode: Option<nat>) returns (failed: bool, entries: Entries)
    ensures failed && entries != map["d" := 0]
  {
    var call := new Call("d", 1, 0, 0, map["d" := 0], [Node(Directory, [], 0)], []);
    assert call.Undisturbed();
    var r := call.RemoveIfUnchanged(expected, mode);
    return r.Err?, call.w.entries;
  }
}
