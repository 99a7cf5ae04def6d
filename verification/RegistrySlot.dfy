/**
  The registry slot of one workspace configuration: claimed without the lock by an exclusive link,
  refreshed under the lock by read-check-replace, removed under the lock by read-check-unlink
  (crates/query/src/discovery.rs), by any number of daemons and clients interleaved one file
  operation at a time (crates/daemon/src/runtime.rs).
*/
module RegistrySlot {
  import opened Results

  type Process = nat
  type Token = string

  /** `body` stands for every field the heartbeat leaves alone. */
  datatype Entry = Entry(token: Token, pid: nat, body: string, heartbeat: nat)
  datatype Owner = Owner(token: Token, pid: nat)

  function OwnerOf(e: Entry): Owner {
    Owner(e.token, e.pid)
  }

  /** The same entry up to the heartbeat. */
  predicate Similar(a: Entry, b: Entry) {
    a.token == b.token && a.pid == b.pid && a.body == b.body
  }

  /** The registry file: `Corrupt` is text that does not decode as an entry. */
  datatype Slot = Absent | Corrupt | Present(entry: Entry)

  predicate Owned(slot: Slot, e: Entry) {
    slot.Present? && OwnerOf(slot.entry) == OwnerOf(e)
  }

  /** `<token>.claim.tmp` and `<token>.tmp`. */
  datatype Temp = ForClaim(token: Token) | ForBeat(token: Token)

  /** What a process does next. `last` tells a daemon's shutdown removal from any other. */
  datatype Pc =
    | Idle
    | ClaimCreate(e: Entry) | ClaimFill(e: Entry) | ClaimLink(e: Entry) | ClaimCleanup(e: Entry, won: bool)
    | Serving(e: Entry)
    | BeatLock(e: Entry) | BeatRead(e: Entry) | BeatCreate(e: Entry) | BeatFill(e: Entry)
    | BeatReplace(e: Entry) | BeatUnlock(e: Entry, kept: bool)
    | Stopping(e: Entry)
    | DropLock(x: Entry, last: bool) | DropRead(x: Entry, last: bool)
    | DropUnlink(x: Entry, last: bool) | DropUnlock(x: Entry, last: bool)
    | Done

  datatype Ev = Claimed(entry: Entry) | Beaten(entry: Entry) | Removed(owner: Owner)
  datatype Log = Begin(slot: Slot) | More(past: Log, ev: Ev)

  /** `temps` maps a temporary file to its complete contents, or to `None` while it is incomplete. */
  datatype State = State(
    slot: Slot,
    lock: Option<Process>,
    temps: map<Temp, Option<Entry>>,
    pcs: map<Process, Pc>,
    issued: map<Token, Entry>,
    log: Log)

  /** What the scheduler picks: a process, and which of its moves. `Fail` is an I/O error. */
  datatype Move =
    | Advance | Fail | Crash
    | BeginClaim(e: Entry) | BeginDrop(x: Entry)
    | Beat(now: nat) | Check | Quit
  datatype Action = Action(p: Process, move: Move)

  predicate InClaim(pc: Pc) {
    pc.ClaimCreate? || pc.ClaimFill? || pc.ClaimLink? || pc.ClaimCleanup?
  }

  predicate InBeat(pc: Pc) {
    pc.BeatLock? || pc.BeatRead? || pc.BeatCreate? || pc.BeatFill? || pc.BeatReplace? || pc.BeatUnlock?
  }

  predicate InDrop(pc: Pc) {
    pc.DropLock? || pc.DropRead? || pc.DropUnlink? || pc.DropUnlock?
  }

  function PcOf(s: State, p: Process): (pc: Pc) {
    if p in s.pcs then s.pcs[p] else Idle
  }

  function Go(s: State, p: Process, pc: Pc): (t: State) {
    s.(pcs := s.pcs[p := pc])
  }

  // ---- one file operation ----------------------------------------------------------------------

  /** `claim_registry_file_before_publish` and `publish_registry_claim`. */
  function ClaimStep(s: State, p: Process, ok: bool): (t: State)
    requires InClaim(PcOf(s, p))
  {
    var pc := PcOf(s, p);
    var temp := ForClaim(pc.e.token);
    match pc
    case ClaimCreate(e) =>
      if !ok || temp in s.temps then Go(s, p, Done)
      else Go(s.(temps := s.temps[temp := None]), p, ClaimFill(e))
    case ClaimFill(e) =>
      if !ok then Go(s, p, ClaimCleanup(e, false))
      else Go(s.(temps := s.temps[temp := Some(e)]), p, ClaimLink(e))
    case ClaimLink(e) =>
      if !ok || !s.slot.Absent? || temp !in s.temps then Go(s, p, ClaimCleanup(e, false))
      else if s.temps[temp].None? then Go(s.(slot := Corrupt), p, ClaimCleanup(e, true))
      else
        var linked := s.temps[temp].value;
        Go(s.(slot := Present(linked), log := More(s.log, Claimed(linked))), p, ClaimCleanup(e, true))
    case ClaimCleanup(e, won) =>
      Go(if ok then s.(temps := s.temps - {temp}) else s, p, if won then Serving(e) else Done)
  }

  /** `update_registry_entry_if_own`, as `maintain_registry_claim` calls it. */
  function BeatStep(s: State, p: Process, ok: bool): (t: State)
    requires InBeat(PcOf(s, p))
  {
    var pc := PcOf(s, p);
    var temp := ForBeat(pc.e.token);
    match pc
    case BeatLock(e) =>
      if !ok then Go(s, p, Stopping(e))
      else if s.lock.Some? then s
      else Go(s.(lock := Some(p)), p, BeatRead(e))
    case BeatRead(e) =>
      if ok && Owned(s.slot, e) then Go(s, p, BeatCreate(e)) else Go(s, p, BeatUnlock(e, false))
    case BeatCreate(e) =>
      if !ok || temp in s.temps then Go(s, p, BeatUnlock(e, false))
      else Go(s.(temps := s.temps[temp := None]), p, BeatFill(e))
    case BeatFill(e) =>
      if !ok then Go(s, p, BeatUnlock(e, false))
      else Go(s.(temps := s.temps[temp := Some(e)]), p, BeatReplace(e))
    case BeatReplace(e) =>
      if !ok || temp !in s.temps then Go(s, p, BeatUnlock(e, false))
      else if s.temps[temp].None? then Go(s.(slot := Corrupt, temps := s.temps - {temp}), p, BeatUnlock(e, true))
      else
        var renamed := s.temps[temp].value;
        Go(s.(slot := Present(renamed), temps := s.temps - {temp}, log := More(s.log, Beaten(renamed))),
           p, BeatUnlock(e, true))
    case BeatUnlock(e, kept) =>
      Go(s.(lock := None), p, if kept then Serving(e) else Stopping(e))
  }

  /** `remove_registry_entry_if_own`; its errors are ignored. */
  function DropStep(s: State, p: Process, ok: bool): (t: State)
    requires InDrop(PcOf(s, p))
  {
    var pc := PcOf(s, p);
    var after := if pc.last then Done else Idle;
    match pc
    case DropLock(x, last) =>
      if !ok then Go(s, p, after)
      else if s.lock.Some? then s
      else Go(s.(lock := Some(p)), p, DropRead(x, last))
    case DropRead(x, last) =>
      if ok && Owned(s.slot, x) then Go(s, p, DropUnlink(x, last)) else Go(s, p, DropUnlock(x, last))
    case DropUnlink(x, last) =>
      if !ok || s.slot.Absent? then Go(s, p, DropUnlock(x, last))
      else if s.slot.Corrupt? then Go(s.(slot := Absent), p, DropUnlock(x, last))
      else
        Go(s.(slot := Absent, log := More(s.log, Removed(OwnerOf(s.slot.entry)))), p, DropUnlock(x, last))
    case DropUnlock(x, last) => Go(s.(lock := None), p, after)
  }

  /** A process dies: the system releases its lock, its temporary files stay. */
  function CrashStep(s: State, p: Process): (t: State) {
    Go(if s.lock == Some(p) then s.(lock := None) else s, p, Done)
  }

  /** A process between operations picks the next one: `serve_async` and its callers. */
  function PickStep(s: State, p: Process, move: Move): (t: State) {
    match PcOf(s, p)
    case Idle =>
      if move.BeginClaim? && move.e.token !in s.issued
      then Go(s.(issued := s.issued[move.e.token := move.e]), p, ClaimCreate(move.e))
      else if move.BeginDrop? then Go(s, p, DropLock(move.x, false))
      else s
    case Serving(e) =>
      if move.Beat? then Go(s, p, BeatLock(e.(heartbeat := move.now)))
      else if move.Check? then if Owned(s.slot, e) then s else Go(s, p, Stopping(e))
      else if move.Quit? || move.Fail? then Go(s, p, Stopping(e))
      else s
    case Stopping(e) => if move.Advance? then Go(s, p, DropLock(e, true)) else s
    case _ => s
  }

  function Next(s: State, a: Action): (t: State) {
    var pc := PcOf(s, a.p);
    if a.move.Crash? then CrashStep(s, a.p)
    else if !InClaim(pc) && !InBeat(pc) && !InDrop(pc) then PickStep(s, a.p, a.move)
    else if !(a.move.Advance? || a.move.Fail?) then s
    else if InClaim(pc) then ClaimStep(s, a.p, a.move.Advance?)
    else if InBeat(pc) then BeatStep(s, a.p, a.move.Advance?)
    else DropStep(s, a.p, a.move.Advance?)
  }

  function Run(s: State, actions: seq<Action>): (t: State)
    decreases |actions|
  {
    if actions == [] then s else Run(Next(s, actions[0]), actions[1..])
  }

  /** Any slot, any leftover temporary files, no process under way; the token in the slot, if any, has been issued. */
  predicate Initial(s: State) {
    && s.lock == None && s.pcs == map[]
    && s.log == Begin(s.slot)
    && s.issued == if s.slot.Present? then map[s.slot.entry.token := s.slot.entry] else map[]
  }

  // ---- what the log says ------------------------------------------------------------------------

  datatype Holder = Nobody | Unreadable | Held(owner: Owner)

  function HolderOf(slot: Slot): Holder {
    match slot
    case Absent => Nobody
    case Corrupt => Unreadable
    case Present(e) => Held(OwnerOf(e))
  }

  /** Who holds the slot after `log`, by replaying it. */
  function HolderAfter(log: Log): Holder {
    match log
    case Begin(slot) => HolderOf(slot)
    case More(past, Claimed(e)) => Held(OwnerOf(e))
    case More(past, Beaten(e)) => HolderAfter(past)
    case More(past, Removed(_)) => Nobody
  }

  /**
    Claims happen only on a vacant slot, heartbeats only for the holder, and a removal names the
    holder.
  */
  predicate Legal(log: Log) {
    match log
    case Begin(_) => true
    case More(past, Claimed(e)) => Legal(past) && HolderAfter(past) == Nobody && e.token !in Ever(past)
    case More(past, Beaten(e)) => Legal(past) && HolderAfter(past) == Held(OwnerOf(e))
    case More(past, Removed(o)) => Legal(past) && HolderAfter(past) == Held(o)
  }

  /** The entry the current holder claimed with. */
  function Winner(log: Log): Option<Entry> {
    match log
    case Begin(slot) => if slot.Present? then Some(slot.entry) else None
    case More(past, Claimed(e)) => Some(e)
    case More(past, Beaten(_)) => Winner(past)
    case More(past, Removed(_)) => None
  }

  /** Tokens that ever held the slot. */
  function Ever(log: Log): set<Token> {
    match log
    case Begin(slot) => if slot.Present? then {slot.entry.token} else {}
    case More(past, Claimed(e)) => Ever(past) + {e.token}
    case More(past, _) => Ever(past)
  }

  /** Tokens that were removed from the slot. */
  function Gone(log: Log): set<Token> {
    match log
    case Begin(_) => {}
    case More(past, Removed(o)) => Gone(past) + {o.token}
    case More(past, _) => Gone(past)
  }

  function Claims(log: Log): nat {
    match log
    case Begin(_) => 0
    case More(past, ev) => Claims(past) + if ev.Claimed? then 1 else 0
  }

  function Removals(log: Log): nat {
    match log
    case Begin(_) => 0
    case More(past, ev) => Removals(past) + if ev.Removed? then 1 else 0
  }

  // ---- the invariant ----------------------------------------------------------------------------

  /** The entry a daemon claims, serves and stops with. */
  function Own(pc: Pc): Option<Entry> {
    match pc
    case ClaimCreate(e) => Some(e)
    case ClaimFill(e) => Some(e)
    case ClaimLink(e) => Some(e)
    case ClaimCleanup(e, _) => Some(e)
    case Serving(e) => Some(e)
    case BeatLock(e) => Some(e)
    case BeatRead(e) => Some(e)
    case BeatCreate(e) => Some(e)
    case BeatFill(e) => Some(e)
    case BeatReplace(e) => Some(e)
    case BeatUnlock(e, _) => Some(e)
    case Stopping(e) => Some(e)
    case _ => None
  }

  predicate Locked(pc: Pc) {
    || (InBeat(pc) && !pc.BeatLock?)
    || (InDrop(pc) && !pc.DropLock?)
  }

  /** What holds of a process between any two file operations of anyone. */
  predicate LocalInv(s: State, p: Process) {
    var pc := PcOf(s, p);
    && (Locked(pc) <==> s.lock == Some(p))
    && (Own(pc).Some? ==>
          var e := Own(pc).value;
          e.token in s.issued && Similar(s.issued[e.token], e))
    && (pc.ClaimCreate? || pc.ClaimFill? || pc.ClaimLink? ==> pc.e.token !in Ever(s.log))
    && (pc.ClaimLink? ==> ForClaim(pc.e.token) in s.temps && s.temps[ForClaim(pc.e.token)] == Some(pc.e))
    && (pc.BeatReplace? ==> ForBeat(pc.e.token) in s.temps && s.temps[ForBeat(pc.e.token)] == Some(pc.e))
    && (pc.BeatCreate? || pc.BeatFill? || pc.BeatReplace? ==> Owned(s.slot, pc.e))
    && (pc.DropUnlink? ==> Owned(s.slot, pc.x))
  }

  predicate Apart(s: State, p: Process, q: Process) {
    Own(PcOf(s, p)).Some? && Own(PcOf(s, q)).Some? ==>
      Own(PcOf(s, p)).value.token != Own(PcOf(s, q)).value.token
  }

  predicate SlotInv(s: State) {
    && Legal(s.log)
    && HolderOf(s.slot) == HolderAfter(s.log)
    && Gone(s.log) <= Ever(s.log) <= s.issued.Keys
    && (s.slot.Present? ==>
          && Winner(s.log).Some? && Similar(s.slot.entry, Winner(s.log).value)
          && s.slot.entry.token in Ever(s.log) && s.slot.entry.token !in Gone(s.log)
          && Similar(s.issued[s.slot.entry.token], s.slot.entry))
  }

  ghost predicate Inv(s: State) {
    && SlotInv(s)
    && (forall p :: LocalInv(s, p))
    && (forall p, q | p != q :: Apart(s, p, q))
  }

  /** The token a daemon acts under. */
  function OwnToken(pc: Pc): set<Token> {
    if Own(pc).Some? then {Own(pc).value.token} else {}
  }

  /**
    What a step of `p` may change: a held slot only under the lock, a vacant slot at any time, the
    lock only by taking or releasing it, temporary files only under its own token.
  */
  ghost predicate Considerate(s: State, t: State, p: Process) {
    && (forall q | q != p :: PcOf(t, q) == PcOf(s, q))
    && (t.slot == s.slot || s.slot.Absent? || s.lock == Some(p))
    && (t.lock == s.lock || (s.lock == None && t.lock == Some(p)) || (s.lock == Some(p) && t.lock == None))
    && (forall k: Temp | k.token !in OwnToken(PcOf(s, p)) ::
          (k in t.temps <==> k in s.temps) && (k in s.temps ==> t.temps[k] == s.temps[k]))
    && Ever(t.log) <= Ever(s.log) + OwnToken(PcOf(s, p))
    && (forall k | k in s.issued :: k in t.issued && t.issued[k] == s.issued[k])
    && OwnToken(PcOf(t, p)) !! s.issued.Keys - OwnToken(PcOf(s, p))
  }

  lemma OthersKeep(s: State, t: State, p: Process, q: Process)
    requires Inv(s) && Considerate(s, t, p) && p != q
    ensures LocalInv(t, q) && Apart(t, p, q) && Apart(t, q, p)
  {
    assert LocalInv(s, p) && LocalInv(s, q) && Apart(s, p, q);
  }

  lemma InvKept(s: State, t: State, p: Process)
    requires Inv(s) && Considerate(s, t, p) && SlotInv(t) && LocalInv(t, p)
    ensures Inv(t)
  {
    forall q
      ensures LocalInv(t, q)
    {
      if q != p {
        OthersKeep(s, t, p, q);
      }
    }
    forall q, r | q != r
      ensures Apart(t, q, r)
    {
      if q == p {
        OthersKeep(s, t, p, r);
      } else if r == p {
        OthersKeep(s, t, p, q);
      } else {
        assert Apart(s, q, r);
      }
    }
  }

  lemma SlotInvFrame(s: State, t: State)
    requires SlotInv(s) && t.slot == s.slot && t.log == s.log
    requires forall k | k in s.issued :: k in t.issued && t.issued[k] == s.issued[k]
    ensures SlotInv(t)
  {
  }

  lemma ClaimLocal(s: State, p: Process, ok: bool)
    requires SlotInv(s) && LocalInv(s, p) && InClaim(PcOf(s, p))
    ensures SlotInv(ClaimStep(s, p, ok)) && LocalInv(ClaimStep(s, p, ok), p)
  {
  }

  lemma ClaimConsiderate(s: State, p: Process, ok: bool)
    requires LocalInv(s, p) && InClaim(PcOf(s, p))
    ensures Considerate(s, ClaimStep(s, p, ok), p)
  {
  }

  lemma BeatLocal(s: State, p: Process, ok: bool)
    requires SlotInv(s) && LocalInv(s, p) && InBeat(PcOf(s, p))
    ensures SlotInv(BeatStep(s, p, ok)) && LocalInv(BeatStep(s, p, ok), p)
  {
  }

  lemma BeatConsiderate(s: State, p: Process, ok: bool)
    requires LocalInv(s, p) && InBeat(PcOf(s, p))
    ensures Considerate(s, BeatStep(s, p, ok), p)
  {
  }

  lemma DropLocal(s: State, p: Process, ok: bool)
    requires SlotInv(s) && LocalInv(s, p) && InDrop(PcOf(s, p))
    ensures SlotInv(DropStep(s, p, ok)) && LocalInv(DropStep(s, p, ok), p)
  {
  }

  lemma DropConsiderate(s: State, p: Process, ok: bool)
    requires LocalInv(s, p) && InDrop(PcOf(s, p))
    ensures Considerate(s, DropStep(s, p, ok), p)
  {
  }

  lemma PickSlot(s: State, p: Process, move: Move)
    requires SlotInv(s)
    ensures SlotInv(PickStep(s, p, move))
  {
    SlotInvFrame(s, PickStep(s, p, move));
  }

  lemma PickOwn(s: State, p: Process, move: Move)
    requires LocalInv(s, p) && Ever(s.log) <= s.issued.Keys
    ensures LocalInv(PickStep(s, p, move), p)
  {
  }

  lemma PickLocal(s: State, p: Process, move: Move)
    requires SlotInv(s) && LocalInv(s, p)
    ensures SlotInv(PickStep(s, p, move)) && LocalInv(PickStep(s, p, move), p)
  {
    PickSlot(s, p, move);
    PickOwn(s, p, move);
  }

  lemma PickConsiderate(s: State, p: Process, move: Move)
    ensures Considerate(s, PickStep(s, p, move), p)
  {
  }

  lemma CrashLocal(s: State, p: Process)
    requires SlotInv(s) && LocalInv(s, p)
    ensures SlotInv(CrashStep(s, p)) && LocalInv(CrashStep(s, p), p)
  {
  }

  lemma CrashConsiderate(s: State, p: Process)
    ensures Considerate(s, CrashStep(s, p), p)
  {
  }

  lemma NextKeeps(s: State, a: Action)
    requires Inv(s)
    ensures Inv(Next(s, a))
  {
    assert LocalInv(s, a.p);
    NextLocal(s, a);
    NextConsiderate(s, a);
    InvKept(s, Next(s, a), a.p);
  }

  lemma NextLocal(s: State, a: Action)
    requires SlotInv(s) && LocalInv(s, a.p)
    ensures SlotInv(Next(s, a)) && LocalInv(Next(s, a), a.p)
  {
    var pc := PcOf(s, a.p);
    if a.move.Crash? {
      CrashLocal(s, a.p);
    } else if InClaim(pc) {
      ClaimLocal(s, a.p, a.move.Advance?);
    } else if InBeat(pc) {
      BeatLocal(s, a.p, a.move.Advance?);
    } else if InDrop(pc) {
      DropLocal(s, a.p, a.move.Advance?);
    } else {
      PickLocal(s, a.p, a.move);
    }
  }

  lemma NextConsiderate(s: State, a: Action)
    requires LocalInv(s, a.p)
    ensures Considerate(s, Next(s, a), a.p)
  {
    var pc := PcOf(s, a.p);
    if a.move.Crash? {
      CrashConsiderate(s, a.p);
    } else if InClaim(pc) {
      ClaimConsiderate(s, a.p, a.move.Advance?);
    } else if InBeat(pc) {
      BeatConsiderate(s, a.p, a.move.Advance?);
    } else if InDrop(pc) {
      DropConsiderate(s, a.p, a.move.Advance?);
    } else {
      PickConsiderate(s, a.p, a.move);
    }
  }

  lemma {:induction false} RunKeeps(s: State, actions: seq<Action>)
    requires Inv(s)
    ensures Inv(Run(s, actions))
    decreases |actions|
  {
    if actions != [] {
      NextKeeps(s, actions[0]);
      RunKeeps(Next(s, actions[0]), actions[1..]);
    }
  }

  lemma InitialInv(s: State)
    requires Initial(s)
    ensures Inv(s)
  {
  }

  // ---- what every run keeps ----------------------------------------------------------------------

  ghost predicate Reachable(s: State) {
    exists s0, actions :: Initial(s0) && s == Run(s0, actions)
  }

  lemma ReachableInv(s: State)
    requires Reachable(s)
    ensures Inv(s)
  {
    var s0, actions :| Initial(s0) && s == Run(s0, actions);
    InitialInv(s0);
    RunKeeps(s0, actions);
  }

  /** How one file operation of `p` may change the slot. */
  predicate OwnerChange(s: State, t: State, p: Process) {
    var pc := PcOf(s, p);
    || HolderOf(t.slot) == HolderOf(s.slot)
    || (pc.ClaimLink? && HolderOf(s.slot) == Nobody && t.slot == Present(pc.e))
    || (pc.DropUnlink? && HolderOf(s.slot) == Held(OwnerOf(pc.x)) && HolderOf(t.slot) == Nobody)
  }

  lemma ClaimChanges(s: State, p: Process, ok: bool)
    requires LocalInv(s, p) && InClaim(PcOf(s, p))
    ensures OwnerChange(s, ClaimStep(s, p, ok), p)
  {
  }

  lemma BeatChanges(s: State, p: Process, ok: bool)
    requires LocalInv(s, p) && InBeat(PcOf(s, p))
    ensures HolderOf(BeatStep(s, p, ok).slot) == HolderOf(s.slot)
  {
  }

  lemma DropChanges(s: State, p: Process, ok: bool)
    requires LocalInv(s, p) && InDrop(PcOf(s, p))
    ensures OwnerChange(s, DropStep(s, p, ok), p)
  {
  }

  /**
    In every reachable state, one file operation of anyone changes the holder of the slot only from
    nobody to the process whose claim links, or from the holder a removal names to nobody. A
    heartbeat therefore never resurrects a removed claim and never overwrites a successor.
  */
  lemma OwnerChanges(s: State, a: Action)
    requires Reachable(s)
    ensures OwnerChange(s, Next(s, a), a.p)
  {
    ReachableInv(s);
    assert LocalInv(s, a.p);
    var pc := PcOf(s, a.p);
    if InClaim(pc) {
      ClaimChanges(s, a.p, a.move.Advance?);
    } else if InBeat(pc) {
      BeatChanges(s, a.p, a.move.Advance?);
    } else if InDrop(pc) {
      DropChanges(s, a.p, a.move.Advance?);
    }
  }

  /**
    Whatever becomes of the link, a claim is reported won exactly when its own complete entry went
    into a vacant slot; a failing link never wins and never changes the slot, and neither does any
    other move of the claimant.
  */
  lemma ClaimOutcome(s: State, p: Process, move: Move)
    requires Reachable(s) && PcOf(s, p).ClaimLink?
    ensures var e := PcOf(s, p).e;
            var t := Next(s, Action(p, move));
            var won := move.Advance? && s.slot.Absent?;
            && t.slot == (if won then Present(e) else s.slot)
            && (PcOf(t, p) == ClaimCleanup(e, true) <==> won)
            && (move.Advance? || move.Fail? ==> PcOf(t, p) == ClaimCleanup(e, won))
  {
    ReachableInv(s);
    assert LocalInv(s, p);
  }

  /** The report is the outcome of the link: cleaning up afterwards, even in vain, does not alter it. */
  lemma ClaimReport(s: State, p: Process, move: Move)
    requires PcOf(s, p).ClaimCleanup? && (move.Advance? || move.Fail?)
    ensures var t := Next(s, Action(p, move));
            && t.slot == s.slot
            && PcOf(t, p) == if PcOf(s, p).won then Serving(PcOf(s, p).e) else Done
  {
  }

  /** The visible entry is the winner's own, complete, up to the heartbeat. */
  lemma VisibleEntryIsWinners(s: State)
    requires Reachable(s)
    ensures Legal(s.log) && HolderOf(s.slot) == HolderAfter(s.log)
    ensures s.slot.Present? ==> Winner(s.log).Some? && Similar(s.slot.entry, Winner(s.log).value)
    ensures s.slot.Absent? ==> Winner(s.log).None?
  {
    ReachableInv(s);
    WinnerIsHolder(s.log);
  }

  lemma {:induction false} WinnerIsHolder(log: Log)
    requires Legal(log)
    ensures Base(log).Corrupt? ==> HolderAfter(log) == Unreadable && Winner(log) == None
    ensures !Base(log).Corrupt? ==>
              HolderAfter(log) == if Winner(log).Some? then Held(OwnerOf(Winner(log).value)) else Nobody
  {
    match log
    case Begin(_) =>
    case More(past, _) => WinnerIsHolder(past);
  }

  function Base(log: Log): Slot {
    match log
    case Begin(slot) => slot
    case More(past, _) => Base(past)
  }

  lemma {:induction false} ClaimsBalance(log: Log)
    requires Legal(log)
    ensures Claims(log) + (if Base(log).Present? then 1 else 0)
            == Removals(log) + (if HolderAfter(log).Held? then 1 else 0)
  {
    match log
    case Begin(_) =>
    case More(past, _) => ClaimsBalance(past);
  }

  lemma NextExtends(s: State, a: Action)
    ensures Next(s, a).log == s.log || (Next(s, a).log.More? && Next(s, a).log.past == s.log)
  {
  }

  /** The log only grows. */
  lemma {:induction false} RunExtends(s: State, actions: seq<Action>)
    ensures Base(Run(s, actions).log) == Base(s.log)
    ensures Gone(s.log) <= Gone(Run(s, actions).log)
    ensures Removals(s.log) <= Removals(Run(s, actions).log)
    decreases |actions|
  {
    if actions != [] {
      NextExtends(s, actions[0]);
      RunExtends(Next(s, actions[0]), actions[1..]);
    }
  }

  lemma {:induction false} RunAppend(s: State, actions: seq<Action>, more: seq<Action>)
    ensures Run(Run(s, actions), more) == Run(s, actions + more)
    decreases |actions|
  {
    if actions == [] {
      assert actions + more == more;
    } else {
      assert (actions + more)[1..] == actions[1..] + more;
      RunAppend(Next(s, actions[0]), actions[1..], more);
    }
  }

  lemma RunReachable(s: State, actions: seq<Action>)
    requires Reachable(s)
    ensures Reachable(Run(s, actions))
  {
    var s0, before :| Initial(s0) && s == Run(s0, before);
    RunAppend(s0, before, actions);
  }

  /** Over any stretch of any run without a removal, at most one claim succeeds. */
  lemma AtMostOneClaimBetweenRemovals(s: State, actions: seq<Action>)
    requires Reachable(s)
    requires Removals(Run(s, actions).log) == Removals(s.log)
    ensures Claims(Run(s, actions).log) <= Claims(s.log) + 1
  {
    var t := Run(s, actions);
    RunReachable(s, actions);
    ReachableInv(s);
    ReachableInv(t);
    RunExtends(s, actions);
    ClaimsBalance(s.log);
    ClaimsBalance(t.log);
  }

  /** The entry a process is acting for: its own, or the one it was asked to remove. */
  function Subject(pc: Pc): Option<Entry> {
    if InDrop(pc) then Some(pc.x) else Own(pc)
  }

  lemma GoneStepIsInert(t: State, a: Action)
    requires SlotInv(t) && LocalInv(t, a.p)
    requires Subject(PcOf(t, a.p)).Some? && Subject(PcOf(t, a.p)).value.token in Gone(t.log)
    ensures var pc := PcOf(t, a.p);
            var e := Subject(pc).value;
            var u := Next(t, a);
            && (t.slot.Present? ==> t.slot.entry.token != e.token)
            && u.slot == t.slot
            && !(pc.BeatCreate? || pc.BeatFill? || pc.BeatReplace? || pc.DropUnlink?)
            && (pc.Serving? && a.move.Check? ==> PcOf(u, a.p) == Stopping(e))
            && (pc.BeatRead? && a.move.Advance? ==> PcOf(u, a.p) == BeatUnlock(e, false))
            && (pc.DropRead? && a.move.Advance? ==> PcOf(u, a.p).DropUnlock?)
  {
  }

  /**
    Once a token has left the slot, it never holds it again: whatever happens next, ownership checks
    and heartbeats of its daemon fail, its removals find nothing of theirs, and no step taken for it
    touches the slot, in particular not a successor's entry.
  */
  lemma LostClaimIsInert(s: State, actions: seq<Action>, a: Action)
    requires Reachable(s)
    requires Subject(PcOf(Run(s, actions), a.p)).Some?
    requires Subject(PcOf(Run(s, actions), a.p)).value.token in Gone(s.log)
    ensures var t := Run(s, actions);
            var pc := PcOf(t, a.p);
            var e := Subject(pc).value;
            var u := Next(t, a);
            && (t.slot.Present? ==> t.slot.entry.token != e.token)
            && u.slot == t.slot
            && !(pc.BeatCreate? || pc.BeatFill? || pc.BeatReplace? || pc.DropUnlink?)
            && (pc.Serving? && a.move.Check? ==> PcOf(u, a.p) == Stopping(e))
            && (pc.BeatRead? && a.move.Advance? ==> PcOf(u, a.p) == BeatUnlock(e, false))
            && (pc.DropRead? && a.move.Advance? ==> PcOf(u, a.p).DropUnlock?)
  {
    var t := Run(s, actions);
    RunReachable(s, actions);
    ReachableInv(t);
    RunExtends(s, actions);
    assert LocalInv(t, a.p);
    GoneStepIsInert(t, a);
  }

  // ---- what every operation achieves --------------------------------------------------------------------------------

  /** `n` successful file operations of one process in a row. */
  function Steps(p: Process, n: nat): (actions: seq<Action>) {
    if n == 0 then [] else [Action(p, Advance)] + Steps(p, n - 1)
  }

  lemma {:induction false} RunOne(s: State, p: Process, n: nat)
    requires n > 0
    ensures Run(s, Steps(p, n)) == Run(Advanced(s, p), Steps(p, n - 1))
  {
    assert Steps(p, n)[1..] == Steps(p, n - 1);
  }

  function Advanced(s: State, p: Process): State {
    Next(s, Action(p, Advance))
  }

  /** What a process shares with the others. */
  datatype Shared = Shared(slot: Slot, lock: Option<Process>, temps: map<Temp, Option<Entry>>, log: Log)

  function SharedOf(s: State): Shared {
    Shared(s.slot, s.lock, s.temps, s.log)
  }

  /** Since `s`, only `p` has moved, to `pc`, and the shared state has become `now`. */
  ghost predicate Stands(s: State, t: State, p: Process, pc: Pc, now: Shared) {
    PcOf(t, p) == pc && SharedOf(t) == now && forall q | q != p :: PcOf(t, q) == PcOf(s, q)
  }

  // ---- removal

  lemma DropLocked(s: State, t: State, p: Process, x: Entry, last: bool, now: Shared)
    requires Stands(s, t, p, DropLock(x, last), now) && now.lock == None
    ensures Stands(s, Advanced(t, p), p, DropRead(x, last), now.(lock := Some(p)))
  {
  }

  lemma DropDecided(s: State, t: State, p: Process, x: Entry, last: bool, now: Shared)
    requires Stands(s, t, p, DropRead(x, last), now)
    ensures Stands(s, Advanced(t, p), p, if Owned(now.slot, x) then DropUnlink(x, last) else DropUnlock(x, last), now)
  {
  }

  lemma DropUnlinked(s: State, t: State, p: Process, x: Entry, last: bool, now: Shared)
    requires Stands(s, t, p, DropUnlink(x, last), now) && Owned(now.slot, x)
    ensures Stands(s, Advanced(t, p), p, DropUnlock(x, last),
                   now.(slot := Absent, log := More(now.log, Removed(OwnerOf(x)))))
  {
  }

  lemma DropUnlocked(s: State, t: State, p: Process, x: Entry, last: bool, now: Shared)
    requires Stands(s, t, p, DropUnlock(x, last), now)
    ensures Stands(s, Advanced(t, p), p, if last then Done else Idle, now.(lock := None))
  {
  }

  lemma RestsAfterwards(s: State, t: State, p: Process, pc: Pc, now: Shared)
    requires Stands(s, t, p, pc, now) && (pc == Idle || pc == Done)
    ensures Stands(s, Advanced(t, p), p, pc, now)
  {
  }

  /** What a removal makes of the shared state: the entry it names goes, any other slot stays. */
  function AfterRemoval(now: Shared, x: Entry): Shared {
    if Owned(now.slot, x) then now.(slot := Absent, log := More(now.log, Removed(OwnerOf(x)))) else now
  }

  lemma {:induction false} FourSteps(s: State, p: Process)
    ensures Run(s, Steps(p, 4)) == Advanced(Advanced(Advanced(Advanced(s, p), p), p), p)
  {
    RunOne(s, p, 4);
    RunOne(Advanced(s, p), p, 3);
    RunOne(Advanced(Advanced(s, p), p), p, 2);
    RunOne(Advanced(Advanced(Advanced(s, p), p), p), p, 1);
  }

  /** A removal that is not disturbed takes the entry it names out of the slot, and leaves any other slot as it is. */
  lemma {:induction false} RemovalRemoves(s: State, t: State, p: Process, x: Entry, last: bool, now: Shared)
    requires Stands(s, t, p, DropLock(x, last), now) && now.lock == None
    ensures Stands(s, Run(t, Steps(p, 4)), p, if last then Done else Idle, AfterRemoval(now, x))
  {
    var t1 := Advanced(t, p);
    var t2 := Advanced(t1, p);
    var t3 := Advanced(t2, p);
    var locked := now.(lock := Some(p));
    DropLocked(s, t, p, x, last, now);
    DropDecided(s, t1, p, x, last, locked);
    if Owned(now.slot, x) {
      DropUnlinked(s, t2, p, x, last, locked);
      DropUnlocked(s, t3, p, x, last, AfterRemoval(locked, x));
    } else {
      DropUnlocked(s, t2, p, x, last, locked);
      RestsAfterwards(s, t3, p, if last then Done else Idle, now);
    }
    FourSteps(t, p);
  }

  lemma QuitsThenDrops(s: State, p: Process, e: Entry, t: State)
    requires PcOf(s, p) == Serving(e) && t == Advanced(Next(s, Action(p, Quit)), p)
    ensures Stands(s, t, p, DropLock(e, true), SharedOf(s))
  {
  }

  /** A daemon that quits leaves the slot it owns vacant, and a successor's alone. */
  lemma {:induction false} ShutdownVacates(s: State, p: Process, e: Entry, stopping: State)
    requires PcOf(s, p) == Serving(e) && s.lock == None && stopping == Advanced(Next(s, Action(p, Quit)), p)
    ensures Stands(s, Run(stopping, Steps(p, 4)), p, Done, AfterRemoval(SharedOf(s), e))
  {
    QuitsThenDrops(s, p, e, stopping);
    RemovalRemoves(s, stopping, p, e, true, SharedOf(s));
  }

  // ---- ownership checks and heartbeats

  /** An ownership check lets the owner go on, and stops everyone else. */
  lemma CheckDecides(s: State, p: Process, e: Entry)
    requires PcOf(s, p) == Serving(e)
    ensures Stands(s, Next(s, Action(p, Check)), p, if Owned(s.slot, e) then Serving(e) else Stopping(e), SharedOf(s))
  {
  }

  lemma BeatLocked(s: State, t: State, p: Process, e: Entry, now: Shared)
    requires Stands(s, t, p, BeatLock(e), now) && now.lock == None
    ensures Stands(s, Advanced(t, p), p, BeatRead(e), now.(lock := Some(p)))
  {
  }

  lemma BeatDecided(s: State, t: State, p: Process, e: Entry, now: Shared)
    requires Stands(s, t, p, BeatRead(e), now)
    ensures Stands(s, Advanced(t, p), p, if Owned(now.slot, e) then BeatCreate(e) else BeatUnlock(e, false), now)
  {
  }

  lemma BeatCreated(s: State, t: State, p: Process, e: Entry, now: Shared)
    requires Stands(s, t, p, BeatCreate(e), now)
    ensures if ForBeat(e.token) in now.temps then Stands(s, Advanced(t, p), p, BeatUnlock(e, false), now)
            else Stands(s, Advanced(t, p), p, BeatFill(e), now.(temps := now.temps[ForBeat(e.token) := None]))
  {
  }

  lemma BeatFilled(s: State, t: State, p: Process, e: Entry, now: Shared)
    requires Stands(s, t, p, BeatFill(e), now)
    ensures Stands(s, Advanced(t, p), p, BeatReplace(e), now.(temps := now.temps[ForBeat(e.token) := Some(e)]))
  {
  }

  lemma BeatReplaced(s: State, t: State, p: Process, e: Entry, now: Shared)
    requires Stands(s, t, p, BeatReplace(e), now) && ForBeat(e.token) in now.temps && now.temps[ForBeat(e.token)] == Some(e)
    ensures Stands(s, Advanced(t, p), p, BeatUnlock(e, true),
                   now.(slot := Present(e), temps := now.temps - {ForBeat(e.token)}, log := More(now.log, Beaten(e))))
  {
  }

  lemma BeatUnlocked(s: State, t: State, p: Process, e: Entry, kept: bool, now: Shared)
    requires Stands(s, t, p, BeatUnlock(e, kept), now)
    ensures Stands(s, Advanced(t, p), p, if kept then Serving(e) else Stopping(e), now.(lock := None))
  {
  }

  lemma BeatBegins(s: State, p: Process, e: Entry, now: nat, t: State)
    requires PcOf(s, p) == Serving(e) && t == Next(s, Action(p, Beat(now)))
    ensures Stands(s, t, p, BeatLock(e.(heartbeat := now)), SharedOf(s))
  {
  }

  lemma {:induction false} BeatReads(s: State, t: State, p: Process, e: Entry, now: Shared)
    requires Stands(s, t, p, BeatLock(e), now) && now.lock == None && Owned(now.slot, e)
    ensures Stands(s, Advanced(Advanced(t, p), p), p, BeatCreate(e), now.(lock := Some(p)))
  {
    BeatLocked(s, t, p, e, now);
    BeatDecided(s, Advanced(t, p), p, e, now.(lock := Some(p)));
  }

  lemma {:induction false} BeatWrites(s: State, t: State, p: Process, e: Entry, now: Shared)
    requires Stands(s, t, p, BeatCreate(e), now) && ForBeat(e.token) !in now.temps
    ensures Stands(s, Advanced(Advanced(t, p), p), p, BeatReplace(e),
                   now.(temps := now.temps[ForBeat(e.token) := Some(e)]))
  {
    var created := now.(temps := now.temps[ForBeat(e.token) := None]);
    BeatCreated(s, t, p, e, now);
    BeatFilled(s, Advanced(t, p), p, e, created);
    assert created.temps[ForBeat(e.token) := Some(e)] == now.temps[ForBeat(e.token) := Some(e)];
  }

  /** The locked half of a heartbeat, up to its temporary file. */
  lemma {:induction false} BeatPrepares(s: State, t: State, p: Process, e: Entry, now: Shared)
    requires Stands(s, t, p, BeatLock(e), now) && now.lock == None && Owned(now.slot, e) && ForBeat(e.token) !in now.temps
    ensures Stands(s, Run(t, Steps(p, 4)), p, BeatReplace(e),
                   now.(lock := Some(p), temps := now.temps[ForBeat(e.token) := Some(e)]))
  {
    BeatReads(s, t, p, e, now);
    BeatWrites(s, Advanced(Advanced(t, p), p), p, e, now.(lock := Some(p)));
    FourSteps(t, p);
  }

  /** A heartbeat of the owner puts exactly its entry with the new heartbeat in the slot, and it goes on serving. */
  lemma {:induction false} HeartbeatRefreshes(s: State, p: Process, e: Entry, now: nat, t: State)
    requires PcOf(s, p) == Serving(e) && s.lock == None && Owned(s.slot, e) && ForBeat(e.token) !in s.temps
    requires t == Run(Next(s, Action(p, Beat(now))), Steps(p, 4))
    ensures var beat := e.(heartbeat := now);
            Stands(s, Advanced(Advanced(t, p), p), p, Serving(beat),
                   SharedOf(s).(slot := Present(beat), log := More(s.log, Beaten(beat))))
  {
    var beat, temp := e.(heartbeat := now), ForBeat(e.token);
    BeatBegins(s, p, e, now, Next(s, Action(p, Beat(now))));
    BeatPrepares(s, Next(s, Action(p, Beat(now))), p, beat, SharedOf(s));
    var prepared := SharedOf(s).(lock := Some(p), temps := s.temps[temp := Some(beat)]);
    BeatReplaced(s, t, p, beat, prepared);
    assert prepared.temps - {temp} == s.temps;
    var replaced := prepared.(slot := Present(beat), temps := s.temps, log := More(s.log, Beaten(beat)));
    BeatUnlocked(s, Advanced(t, p), p, beat, true, replaced);
  }

  /** A heartbeat that finds someone else in the slot, or nobody, changes nothing and stops the daemon. */
  lemma {:induction false} HeartbeatRejected(s: State, p: Process, e: Entry, now: nat, t: State)
    requires PcOf(s, p) == Serving(e) && s.lock == None && !Owned(s.slot, e)
    requires t == Next(s, Action(p, Beat(now)))
    ensures Stands(s, Run(t, Steps(p, 3)), p, Stopping(e.(heartbeat := now)), SharedOf(s))
  {
    var beat, locked := e.(heartbeat := now), SharedOf(s).(lock := Some(p));
    BeatBegins(s, p, e, now, t);
    BeatLocked(s, t, p, beat, SharedOf(s));
    BeatDecided(s, Advanced(t, p), p, beat, locked);
    BeatUnlocked(s, Advanced(Advanced(t, p), p), p, beat, false, locked);
    RunOne(t, p, 3);
    RunOne(Advanced(t, p), p, 2);
    RunOne(Advanced(Advanced(t, p), p), p, 1);
  }

  // ---- claims

  lemma ClaimBegins(s: State, p: Process, e: Entry, t: State)
    requires PcOf(s, p) == Idle && e.token !in s.issued && t == Next(s, Action(p, BeginClaim(e)))
    ensures Stands(s, t, p, ClaimCreate(e), SharedOf(s))
  {
  }

  lemma ClaimCreated(s: State, t: State, p: Process, e: Entry, now: Shared)
    requires Stands(s, t, p, ClaimCreate(e), now)
    ensures if ForClaim(e.token) in now.temps then Stands(s, Advanced(t, p), p, Done, now)
            else Stands(s, Advanced(t, p), p, ClaimFill(e), now.(temps := now.temps[ForClaim(e.token) := None]))
  {
  }

  lemma ClaimFilled(s: State, t: State, p: Process, e: Entry, now: Shared)
    requires Stands(s, t, p, ClaimFill(e), now)
    ensures Stands(s, Advanced(t, p), p, ClaimLink(e), now.(temps := now.temps[ForClaim(e.token) := Some(e)]))
  {
  }

  /** What a complete claim makes of the shared state. */
  function AfterClaim(now: Shared, e: Entry): Shared {
    if now.slot.Absent? then now.(slot := Present(e), log := More(now.log, Claimed(e))) else now
  }

  lemma ClaimLinked(s: State, t: State, p: Process, e: Entry, now: Shared)
    requires Stands(s, t, p, ClaimLink(e), now) && ForClaim(e.token) in now.temps && now.temps[ForClaim(e.token)] == Some(e)
    ensures Stands(s, Advanced(t, p), p, ClaimCleanup(e, now.slot.Absent?), AfterClaim(now, e))
  {
  }

  lemma ClaimCleaned(s: State, t: State, p: Process, e: Entry, won: bool, now: Shared)
    requires Stands(s, t, p, ClaimCleanup(e, won), now)
    ensures Stands(s, Advanced(t, p), p, if won then Serving(e) else Done, now.(temps := now.temps - {ForClaim(e.token)}))
  {
  }

  function Filled(now: Shared, e: Entry): Shared {
    now.(temps := now.temps[ForClaim(e.token) := Some(e)])
  }

  lemma {:induction false} ClaimPrepares(s: State, t: State, p: Process, e: Entry, now: Shared)
    requires Stands(s, t, p, ClaimCreate(e), now) && ForClaim(e.token) !in now.temps
    ensures Stands(s, Advanced(Advanced(t, p), p), p, ClaimLink(e), Filled(now, e))
  {
    var created := now.(temps := now.temps[ForClaim(e.token) := None]);
    ClaimCreated(s, t, p, e, now);
    ClaimFilled(s, Advanced(t, p), p, e, created);
    assert created.temps[ForClaim(e.token) := Some(e)] == Filled(now, e).temps;
  }

  lemma {:induction false} ClaimFinishes(s: State, t: State, p: Process, e: Entry, now: Shared)
    requires Stands(s, t, p, ClaimLink(e), Filled(now, e)) && ForClaim(e.token) !in now.temps
    ensures Stands(s, Advanced(Advanced(t, p), p), p, if now.slot.Absent? then Serving(e) else Done, AfterClaim(now, e))
  {
    ClaimLinked(s, t, p, e, Filled(now, e));
    ClaimCleaned(s, Advanced(t, p), p, e, now.slot.Absent?, AfterClaim(Filled(now, e), e));
    assert Filled(now, e).temps - {ForClaim(e.token)} == now.temps;
  }

  /** A claim on a vacant slot puts exactly its entry there and serves; on any other slot it gives up. */
  lemma {:induction false} ClaimSettles(s: State, p: Process, e: Entry, t: State)
    requires PcOf(s, p) == Idle && e.token !in s.issued && ForClaim(e.token) !in s.temps
    requires t == Next(s, Action(p, BeginClaim(e)))
    ensures Stands(s, Run(t, Steps(p, 4)), p, if s.slot.Absent? then Serving(e) else Done, AfterClaim(SharedOf(s), e))
  {
    ClaimBegins(s, p, e, t);
    ClaimPrepares(s, t, p, e, SharedOf(s));
    ClaimFinishes(s, Advanced(Advanced(t, p), p), p, e, SharedOf(s));
    FourSteps(t, p);
  }

  // ---- failures

  /**
    A failing file operation, like a crash, never changes the slot. A daemon whose check or heartbeat
    fails stops, and a process whose removal fails goes on as if there was nothing to remove.
  */
  lemma FailuresChangeNothing(s: State, p: Process)
    ensures Next(s, Action(p, Fail)).slot == s.slot && Next(s, Action(p, Fail)).log == s.log
    ensures Next(s, Action(p, Crash)).slot == s.slot && Next(s, Action(p, Crash)).log == s.log
    ensures PcOf(Next(s, Action(p, Crash)), p) == Done && Next(s, Action(p, Crash)).lock != Some(p)
    ensures var pc, failed := PcOf(s, p), PcOf(Next(s, Action(p, Fail)), p);
            && (pc.Serving? || pc.BeatLock? ==> failed == Stopping(pc.e))
            && (pc.BeatRead? || pc.BeatCreate? || pc.BeatFill? || pc.BeatReplace? ==> failed == BeatUnlock(pc.e, false))
            && (pc.DropLock? ==> failed == if pc.last then Done else Idle)
            && (pc.DropRead? || pc.DropUnlink? ==> failed == DropUnlock(pc.x, pc.last))
            && (pc.ClaimCreate? ==> failed == Done)
            && (pc.ClaimFill? || pc.ClaimLink? ==> failed == ClaimCleanup(pc.e, false))
  {
  }

  /**
    In every reachable state, whatever other processes did since the owner was read: the locked
    removal unlinks exactly the entry it names, and the locked heartbeat publishes exactly its own.
  */
  lemma LockedStepsSucceed(s: State, p: Process)
    requires Reachable(s)
    ensures var pc := PcOf(s, p);
            var t := Next(s, Action(p, Advance));
            && (pc.DropUnlink? ==> Owned(s.slot, pc.x) && t.slot == Absent && t.log == More(s.log, Removed(OwnerOf(pc.x))))
            && (pc.BeatReplace? ==> Owned(s.slot, pc.e) && t.slot == Present(pc.e) && PcOf(t, p) == BeatUnlock(pc.e, true))
            && (pc.DropRead? ==> (PcOf(t, p).DropUnlink? <==> Owned(s.slot, pc.x)))
            && (pc.BeatRead? ==> (PcOf(t, p).BeatCreate? <==> Owned(s.slot, pc.e)))
  {
    ReachableInv(s);
    assert LocalInv(s, p);
  }
}
