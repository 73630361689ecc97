/**
 The same executors, now with every `NonceManager` call broken into the steps between which the
 interpreter may switch threads: enter the lock registry, test for an entry, create it, fetch it,
 acquire the address lock, read the pending count (or fail to), load the cache entry, store it, unlock.
 Each run refines a run of whole operations, address by address.
 */
module LockProtocol {
  import opened Prelude
  import opened NonceOps
  import O = NonceOwnership
  import P = NonceProtocol

  type Addr = string
  type Tid = P.Tid
  type LockId = nat

  datatype Op = Reserve | Release | Reset | Read(forceRefresh: bool)

  datatype Pc =
    | Idle
    | Asking(op: Op, addr: Addr)
    | InRegistry(op: Op, addr: Addr)
    | Creating(op: Op, addr: Addr)
    | Returning(op: Op, addr: Addr)
    | Waiting(op: Op, addr: Addr, lock: LockId)
    | Locked(op: Op, addr: Addr, lock: LockId)
    | HasReading(op: Op, addr: Addr, lock: LockId, reading: nat)
    | HasCell(op: Op, addr: Addr, lock: LockId, reading: nat, cell: Cell)
    | Leaving(op: Op, addr: Addr, lock: LockId)
  {
    /** Between taking the registry lock and giving it back. */
    predicate InsideRegistry() { InRegistry? || Creating? || Returning? }

    /** Between acquiring and releasing the address lock. */
    predicate Critical() { Locked? || HasReading? || HasCell? || Leaving? }

    predicate HasRef() { Waiting? || Critical() }

    /** The operation has been called and has not taken effect yet. */
    predicate Underway() { !Idle? && !Leaving? }
  }

  /** Everything about an address except its cache entry. */
  datatype Account = Account(mined: nat, mempool: set<nat>, holders: map<Tid, nat>, spent: set<nat>)

  datatype State = State(nonces: map<Addr, nat>, locks: map<Addr, LockId>, nextLock: LockId,
                         registryOwner: Option<Tid>, owners: map<LockId, Tid>,
                         pcs: map<Tid, Pc>, accounts: map<Addr, Account>)

  function PcOf(s: State, t: Tid): Pc { if t in s.pcs then s.pcs[t] else Idle }

  function AccountOf(s: State, a: Addr): Account {
    if a in s.accounts then s.accounts[a] else Account(0, {}, map[], {})
  }

  function CellOf(s: State, a: Addr): Cell {
    if a in s.nonces then Some(s.nonces[a]) else None
  }

  /** What the whole-operation protocol sees of one address. */
  function Abs(s: State, a: Addr): P.State {
    var acc := AccountOf(s, a);
    P.State(CellOf(s, a), acc.mined, acc.mempool, acc.holders, acc.spent)
  }

  datatype Event =
    | Call(tid: Tid, addr: Addr, op: Op)
    | EnterRegistry(tid: Tid)
    | TestEntry(tid: Tid)
    | CreateEntry(tid: Tid)
    | FetchEntry(tid: Tid)
    | Acquire(tid: Tid)
    | ReadPending(tid: Tid, reading: nat)
    | ReadFails(tid: Tid)
    | LoadCell(tid: Tid)
    | StoreCell(tid: Tid)
    | Unlock(tid: Tid)
    | Broadcast(tid: Tid, addr: Addr)
    | Mine(addr: Addr)
    | External(addr: Addr, nonce: nat)
    | ClearAll

  predicate NeedsReading(op: Op) { op.Reserve? || op.Read? }

  /** A caller reserves only while it owns nothing, and releases only what it owns. */
  predicate MayCall(s: State, t: Tid, a: Addr, op: Op) {
    match op
    case Reserve => t !in AccountOf(s, a).holders
    case Release => t in AccountOf(s, a).holders
    case Reset => true
    case Read(_) => true
  }

  predicate Enabled(s: State, e: Event) {
    match e
    case Call(t, a, op) => PcOf(s, t).Idle? && MayCall(s, t, a, op)
    case EnterRegistry(t) => PcOf(s, t).Asking? && s.registryOwner.None?
    case TestEntry(t) => PcOf(s, t).InRegistry?
    case CreateEntry(t) => PcOf(s, t).Creating?
    case FetchEntry(t) => PcOf(s, t).Returning? && PcOf(s, t).addr in s.locks
    case Acquire(t) => PcOf(s, t).Waiting? && PcOf(s, t).lock !in s.owners
    case ReadPending(t, r) =>
      && PcOf(s, t).Locked? && NeedsReading(PcOf(s, t).op)
      && r <= P.Pending(Abs(s, PcOf(s, t).addr))
    case ReadFails(t) => PcOf(s, t).Locked? && NeedsReading(PcOf(s, t).op)
    case LoadCell(t) => PcOf(s, t).HasReading? || (PcOf(s, t).Locked? && !NeedsReading(PcOf(s, t).op))
    case StoreCell(t) =>
      && PcOf(s, t).HasCell?
      && (PcOf(s, t).op.Release? ==> t in AccountOf(s, PcOf(s, t).addr).holders)
    case Unlock(t) => PcOf(s, t).Leaving?
    case Broadcast(t, a) => PcOf(s, t).Idle? && P.Enabled(Abs(s, a), P.Broadcast(t))
    case Mine(a) => P.Enabled(Abs(s, a), P.Mine)
    case External(a, n) => P.Enabled(Abs(s, a), P.External(n))
    case ClearAll => s.registryOwner.None?
  }

  function WithPc(s: State, t: Tid, pc: Pc): State { s.(pcs := s.pcs[t := pc]) }

  function WithCell(s: State, a: Addr, c: Cell): State {
    s.(nonces := if c.Some? then s.nonces[a := c.value] else s.nonces - {a})
  }

  function WithAccount(s: State, a: Addr, p: P.State): State {
    s.(accounts := s.accounts[a := Account(p.mined, p.mempool, p.holders, p.spent)])
  }

  /** The write of each operation, computed from the entry the thread loaded earlier. */
  function Store(s: State, t: Tid, pc: Pc): (s': State)
    requires pc.HasCell? && (pc.op.Release? ==> t in AccountOf(s, pc.addr).holders)
    ensures s' == s.(nonces := s'.nonces, accounts := s'.accounts)
  {
    var acc := AccountOf(s, pc.addr);
    match pc.op
    case Reserve =>
      var n := NextNonce(pc.cell, pc.reading);
      WithCell(s, pc.addr, Some(n + 1)).(accounts := s.accounts[pc.addr := acc.(holders := acc.holders[t := n])])
    case Release =>
      WithCell(s, pc.addr, AfterRelease(pc.cell, acc.holders[t])).(accounts := s.accounts[pc.addr :=
        acc.(holders := acc.holders - {t})])
    case Reset =>
      WithCell(s, pc.addr, None).(accounts := s.accounts[pc.addr := acc.(holders := acc.holders - {t})])
    case Read(refresh) =>
      WithCell(s, pc.addr, AfterRead(pc.cell, pc.reading, refresh))
  }

  function Apply(s: State, e: Event): State
    requires Enabled(s, e)
  {
    match e
    case Call(t, a, op) => WithPc(s, t, Asking(op, a))
    case EnterRegistry(t) =>
      WithPc(s, t, InRegistry(PcOf(s, t).op, PcOf(s, t).addr)).(registryOwner := Some(t))
    case TestEntry(t) =>
      var pc := PcOf(s, t);
      WithPc(s, t, if pc.addr in s.locks then Returning(pc.op, pc.addr) else Creating(pc.op, pc.addr))
    case CreateEntry(t) =>
      var pc := PcOf(s, t);
      WithPc(s, t, Returning(pc.op, pc.addr)).(locks := s.locks[pc.addr := s.nextLock], nextLock := s.nextLock + 1)
    case FetchEntry(t) =>
      var pc := PcOf(s, t);
      WithPc(s, t, Waiting(pc.op, pc.addr, s.locks[pc.addr])).(registryOwner := None)
    case Acquire(t) =>
      var pc := PcOf(s, t);
      WithPc(s, t, Locked(pc.op, pc.addr, pc.lock)).(owners := s.owners[pc.lock := t])
    case ReadPending(t, r) =>
      var pc := PcOf(s, t);
      WithPc(s, t, HasReading(pc.op, pc.addr, pc.lock, r))
    case ReadFails(t) => // the exception leaves through the `with` block
      var pc := PcOf(s, t);
      WithPc(s, t, Leaving(pc.op, pc.addr, pc.lock))
    case LoadCell(t) =>
      var pc := PcOf(s, t);
      WithPc(s, t, HasCell(pc.op, pc.addr, pc.lock, if pc.HasReading? then pc.reading else 0, CellOf(s, pc.addr)))
    case StoreCell(t) =>
      var pc := PcOf(s, t);
      WithPc(Store(s, t, pc), t, Leaving(pc.op, pc.addr, pc.lock))
    case Unlock(t) => WithPc(s, t, Idle).(owners := s.owners - {PcOf(s, t).lock})
    case Broadcast(t, a) => WithAccount(s, a, P.Apply(Abs(s, a), P.Broadcast(t)))
    case Mine(a) => WithAccount(s, a, P.Apply(Abs(s, a), P.Mine))
    case External(a, n) => WithAccount(s, a, P.Apply(Abs(s, a), P.External(n)))
    case ClearAll => s.(nonces := map[], locks := map[])
  }

  // ----- locking -----

  /** One lock object per address, handed to whoever asks; the owner of a lock is inside. */
  predicate Locking(s: State) {
    && LockTable(s) && OwnersInside(s)
    && (forall t | t in s.pcs :: RefIsCurrent(s, s.pcs[t]) && OwnsWhatItEntered(s, t, s.pcs[t]))
  }

  /** Whoever owns a lock is in the section it guards. */
  predicate OwnersInside(s: State) {
    && (s.registryOwner.Some? ==> PcOf(s, s.registryOwner.value).InsideRegistry())
    && forall l | l in s.owners ::
      PcOf(s, s.owners[l]).Critical() && PcOf(s, s.owners[l]).lock == l
  }

  predicate RefIsCurrent(s: State, pc: Pc) {
    && (pc.HasRef() ==> pc.addr in s.locks && s.locks[pc.addr] == pc.lock)
    && (pc.Creating? ==> pc.addr !in s.locks)
    && (pc.Returning? ==> pc.addr in s.locks)
  }

  predicate OwnsWhatItEntered(s: State, t: Tid, pc: Pc) {
    && (pc.Critical() ==> pc.lock in s.owners && s.owners[pc.lock] == t)
    && (pc.InsideRegistry() ==> s.registryOwner == Some(t))
  }

  /** At most one thread per address is in its critical section. */
  predicate MutualExclusion(s: State) {
    forall t, u | t in s.pcs && u in s.pcs && t != u && s.pcs[t].Critical() && s.pcs[u].Critical() ::
      s.pcs[t].addr != s.pcs[u].addr
  }

  lemma LockingExcludes(s: State)
    requires Locking(s)
    ensures MutualExclusion(s)
  {
    forall t, u | t in s.pcs && u in s.pcs && t != u && s.pcs[t].Critical() && s.pcs[u].Critical()
      ensures s.pcs[t].addr != s.pcs[u].addr
    {
      assert RefIsCurrent(s, s.pcs[t]) && RefIsCurrent(s, s.pcs[u]);
      assert OwnsWhatItEntered(s, t, s.pcs[t]) && OwnsWhatItEntered(s, u, s.pcs[u]);
    }
  }

  /** The lock objects themselves: still distinct, and no future one is owned yet. */
  predicate LockTable(s: State) {
    && (forall a | a in s.locks :: s.locks[a] < s.nextLock)
    && (forall a, b | a in s.locks && b in s.locks && a != b :: s.locks[a] != s.locks[b])
    && (forall l | l in s.owners :: l < s.nextLock)
  }

  lemma LockTableStep(s: State, e: Event)
    requires Locking(s) && Enabled(s, e) && !e.ClearAll?
    ensures LockTable(Apply(s, e))
  {
    if e.Acquire? {
      assert RefIsCurrent(s, s.pcs[e.tid]);
    }
  }

  /** The registry lock is given back by the thread that leaves the registry. */
  lemma RegistryOwnerInside(s: State, e: Event)
    requires Locking(s) && Enabled(s, e) && !e.ClearAll?
    ensures var s' := Apply(s, e);
            s'.registryOwner.Some? ==> PcOf(s', s'.registryOwner.value).InsideRegistry()
  {
    if e.FetchEntry? {
      assert OwnsWhatItEntered(s, e.tid, s.pcs[e.tid]);
    }
  }

  lemma OwnerInside(s: State, e: Event, l: LockId)
    requires Locking(s) && Enabled(s, e) && !e.ClearAll? && l in Apply(s, e).owners
    ensures var s' := Apply(s, e); PcOf(s', s'.owners[l]).Critical() && PcOf(s', s'.owners[l]).lock == l
  {
    if e.Unlock? {
      assert OwnsWhatItEntered(s, e.tid, s.pcs[e.tid]);
    }
    if l in s.owners {
      assert PcOf(s, s.owners[l]).Critical();
    }
  }

  lemma OwnersInsideStep(s: State, e: Event)
    requires Locking(s) && Enabled(s, e) && !e.ClearAll?
    ensures OwnersInside(Apply(s, e))
  {
    var s' := Apply(s, e);
    RegistryOwnerInside(s, e);
    forall l | l in s'.owners
      ensures PcOf(s', s'.owners[l]).Critical() && PcOf(s', s'.owners[l]).lock == l
    {
      OwnerInside(s, e, l);
    }
  }

  /** The thread that moves keeps its references and its ownership. */
  lemma MoverKeepsLocking(s: State, e: Event, t: Tid)
    requires Locking(s) && Enabled(s, e) && !e.ClearAll?
    requires t in Apply(s, e).pcs && PcOf(Apply(s, e), t) != PcOf(s, t)
    ensures RefIsCurrent(Apply(s, e), PcOf(Apply(s, e), t)) && OwnsWhatItEntered(Apply(s, e), t, PcOf(Apply(s, e), t))
  {
    if t in s.pcs {
      assert RefIsCurrent(s, s.pcs[t]) && OwnsWhatItEntered(s, t, s.pcs[t]);
    }
  }

  /** Every other thread keeps its references and its ownership. */
  lemma OthersKeepLocking(s: State, e: Event, t: Tid)
    requires Locking(s) && Enabled(s, e) && !e.ClearAll?
    requires t in s.pcs && PcOf(Apply(s, e), t) == s.pcs[t]
    ensures RefIsCurrent(Apply(s, e), s.pcs[t]) && OwnsWhatItEntered(Apply(s, e), t, s.pcs[t])
  {
    assert RefIsCurrent(s, s.pcs[t]) && OwnsWhatItEntered(s, t, s.pcs[t]);
    match e
    case CreateEntry(u) => assert RefIsCurrent(s, s.pcs[u]) && OwnsWhatItEntered(s, u, s.pcs[u]);
    case FetchEntry(u) => assert OwnsWhatItEntered(s, u, s.pcs[u]);
    case Unlock(u) => assert RefIsCurrent(s, s.pcs[u]) && OwnsWhatItEntered(s, u, s.pcs[u]);
    case _ =>
  }

  lemma LockingStep(s: State, e: Event)
    requires Locking(s) && Enabled(s, e) && !e.ClearAll?
    ensures Locking(Apply(s, e))
  {
    var s' := Apply(s, e);
    LockTableStep(s, e);
    OwnersInsideStep(s, e);
    forall t | t in s'.pcs
      ensures RefIsCurrent(s', s'.pcs[t]) && OwnsWhatItEntered(s', t, s'.pcs[t])
    {
      if t in s.pcs && s'.pcs[t] == s.pcs[t] {
        OthersKeepLocking(s, e, t);
      } else if PcOf(s', t) != PcOf(s, t) {
        MoverKeepsLocking(s, e, t);
      }
    }
  }

  // ----- data -----

  /** What a thread inside its critical section has read is still true. */
  predicate ReadsAreCurrent(s: State, t: Tid, pc: Pc) {
    && (pc.HasCell? ==> pc.cell == CellOf(s, pc.addr))
    && ((pc.HasReading? || (pc.HasCell? && NeedsReading(pc.op))) ==> pc.reading <= P.Pending(Abs(s, pc.addr)))
    && (pc.Underway() ==> MayCall(s, t, pc.addr, pc.op))
  }

  predicate Consistent(s: State) {
    Locking(s) && forall t | t in s.pcs :: ReadsAreCurrent(s, t, s.pcs[t])
  }

  /** The whole operation a step amounts to for address `a`, or None for a step it cannot see. */
  function Effect(s: State, e: Event, a: Addr): Option<P.Event>
    requires Enabled(s, e)
  {
    match e
    case StoreCell(t) =>
      var pc := PcOf(s, t);
      if pc.addr != a then None
      else Some(match pc.op
                case Reserve => P.Reserve(t, pc.reading)
                case Release => P.Release(t)
                case Reset => P.Reset(t)
                case Read(refresh) => P.Read(pc.reading, refresh))
    case Broadcast(t, b) => if a == b then Some(P.Broadcast(t)) else None
    case Mine(b) => if a == b then Some(P.Mine) else None
    case External(b, n) => if a == b then Some(P.External(n)) else None
    case _ => None
  }

  /** Each step is either invisible at an address or exactly one honest whole operation there. */
  lemma StepRefines(s: State, e: Event, a: Addr)
    requires Consistent(s) && Enabled(s, e) && !e.ClearAll?
    ensures var eff := Effect(s, e, a);
            if eff.None? then Abs(Apply(s, e), a) == Abs(s, a)
            else && P.Enabled(Abs(s, a), eff.value) && P.Honest(Abs(s, a), eff.value)
                 && Abs(Apply(s, e), a) == P.Apply(Abs(s, a), eff.value)
  {
    if e.StoreCell? {
      if PcOf(s, e.tid).addr == a {
        StoreIsAtomic(s, e.tid, Effect(s, e, a).value);
      } else {
        StoreIsLocal(s, e.tid, a);
      }
    } else if e.Broadcast? || e.Mine? || e.External? {
      ChainStepRefines(s, e, a);
    } else {
      OnlyStoresTouchData(s, e);
      SameDataSameReads(s, Apply(s, e), a);
    }
  }

  lemma ChainStepRefines(s: State, e: Event, a: Addr)
    requires Enabled(s, e) && (e.Broadcast? || e.Mine? || e.External?)
    ensures var eff := Effect(s, e, a);
            if eff.None? then Abs(Apply(s, e), a) == Abs(s, a)
            else && P.Enabled(Abs(s, a), eff.value) && P.Honest(Abs(s, a), eff.value)
                 && Abs(Apply(s, e), a) == P.Apply(Abs(s, a), eff.value)
  {
  }

  /** The entry the thread loaded is still the entry it overwrites, so its write is the whole operation. */
  lemma StoreIsAtomic(s: State, t: Tid, e: P.Event)
    requires Consistent(s) && Enabled(s, StoreCell(t))
    requires Effect(s, StoreCell(t), PcOf(s, t).addr) == Some(e)
    ensures var a := PcOf(s, t).addr;
            && P.Enabled(Abs(s, a), e) && P.Honest(Abs(s, a), e)
            && Abs(Store(s, t, PcOf(s, t)), a) == P.Apply(Abs(s, a), e)
  {
    var pc := s.pcs[t];
    assert ReadsAreCurrent(s, t, pc);
    assert Abs(s, pc.addr).cell == pc.cell;
    StoreWrites(s, t);
  }

  /** The write, as the account it leaves behind. */
  lemma StoreWrites(s: State, t: Tid)
    requires Enabled(s, StoreCell(t))
    ensures var pc := PcOf(s, t);
            var before := Abs(s, pc.addr);
            Abs(Store(s, t, pc), pc.addr) == match pc.op
              case Reserve => before.(cell := AfterReserve(pc.cell, pc.reading),
                                      holders := before.holders[t := NextNonce(pc.cell, pc.reading)])
              case Release => before.(cell := AfterRelease(pc.cell, before.holders[t]), holders := before.holders - {t})
              case Reset => before.(cell := None, holders := before.holders - {t})
              case Read(refresh) => before.(cell := AfterRead(pc.cell, pc.reading, refresh))
  {
  }

  lemma StoreIsLocal(s: State, t: Tid, a: Addr)
    requires Enabled(s, StoreCell(t)) && PcOf(s, t).addr != a
    ensures Abs(Store(s, t, PcOf(s, t)), a) == Abs(s, a)
  {
    var pc := s.pcs[t];
    if pc.op.Reserve? {
    } else if pc.op.Release? {
    } else if pc.op.Reset? {
    }
  }

  /** A step of another thread, or of the chain, leaves what `t` has read current. */
  lemma OthersKeepReads(s: State, e: Event, t: Tid)
    requires Consistent(s) && Enabled(s, e) && !e.ClearAll?
    requires t in s.pcs && !s.pcs[t].Idle?
    ensures PcOf(Apply(s, e), t) == s.pcs[t] ==> ReadsAreCurrent(Apply(s, e), t, s.pcs[t])
  {
    var s', pc := Apply(s, e), s.pcs[t];
    var a := pc.addr;
    assert ReadsAreCurrent(s, t, pc);
    StepRefines(s, e, a);
    var eff := Effect(s, e, a);
    if eff.Some? {
      P.PendingMonotone(Abs(s, a), eff.value);
      if e.StoreCell? && e.tid != t {
        LockingExcludes(s);
        assert !pc.Critical();
      }
    }
  }

  lemma OnlyStoresTouchData(s: State, e: Event)
    requires Enabled(s, e) && !(e.StoreCell? || e.Broadcast? || e.Mine? || e.External? || e.ClearAll?)
    ensures Apply(s, e).nonces == s.nonces && Apply(s, e).accounts == s.accounts
  {
  }

  /** A thread that moves into or within its critical section has just read what is true. */
  lemma MoverReadsTruly(s: State, e: Event, t: Tid)
    requires Consistent(s) && Enabled(s, e) && !e.ClearAll?
    requires PcOf(Apply(s, e), t) != PcOf(s, t)
    ensures ReadsAreCurrent(Apply(s, e), t, PcOf(Apply(s, e), t))
  {
    var pc, pc' := PcOf(s, t), PcOf(Apply(s, e), t);
    if pc'.Underway() {
      OnlyStoresTouchData(s, e);
      SameDataSameReads(s, Apply(s, e), pc'.addr);
      if !e.Call? {
        assert ReadsAreCurrent(s, t, pc);
        MoverKeepsCall(s, e, t);
      }
    }
  }

  /** A step that does not start or finish a call leaves what was called. */
  lemma MoverKeepsCall(s: State, e: Event, t: Tid)
    requires Enabled(s, e) && !e.Call? && PcOf(Apply(s, e), t) != PcOf(s, t)
    requires PcOf(Apply(s, e), t).Underway()
    ensures var pc, pc' := PcOf(s, t), PcOf(Apply(s, e), t);
            && pc.Underway() && pc'.addr == pc.addr && pc'.op == pc.op
            && (pc'.HasReading? ==> e == ReadPending(t, pc'.reading))
            && (pc'.HasCell? ==> e == LoadCell(t) && pc'.cell == CellOf(s, pc.addr)
                                 && (NeedsReading(pc.op) ==> pc.HasReading? && pc'.reading == pc.reading))
  {
  }

  lemma SameDataSameReads(s: State, s': State, a: Addr)
    requires s'.nonces == s.nonces && s'.accounts == s.accounts
    ensures Abs(s', a) == Abs(s, a) && forall t, op :: MayCall(s', t, a, op) == MayCall(s, t, a, op)
  {
  }

  lemma ConsistentStep(s: State, e: Event)
    requires Consistent(s) && Enabled(s, e) && !e.ClearAll?
    ensures Consistent(Apply(s, e))
  {
    var s' := Apply(s, e);
    LockingStep(s, e);
    forall t | t in s'.pcs
      ensures ReadsAreCurrent(s', t, s'.pcs[t])
    {
      if PcOf(s', t) != PcOf(s, t) {
        MoverReadsTruly(s, e, t);
      } else if !PcOf(s, t).Idle? {
        OthersKeepReads(s, e, t);
      }
    }
  }

  // ----- runs -----

  /** Process start: nothing cached, no locks, no calls; the chain may be anywhere. */
  predicate Initial(s: State) {
    && s.nonces == map[] && s.locks == map[] && s.owners == map[] && s.pcs == map[] && s.registryOwner.None?
    && forall a | a in s.accounts ::
         s.accounts[a].holders == map[] && s.accounts[a].spent == {}
  }

  /** The events can happen one after the other; `clear_all` is not among them. */
  predicate Runs(s: State, es: seq<Event>)
    decreases |es|
  {
    es == [] || (!es[0].ClearAll? && Enabled(s, es[0]) && Runs(Apply(s, es[0]), es[1..]))
  }

  function After(s: State, es: seq<Event>): State
    requires Runs(s, es)
    decreases |es|
  {
    if es == [] then s else After(Apply(s, es[0]), es[1..])
  }

  /** The whole operations a run performs at one address, in order. */
  function Effects(s: State, es: seq<Event>, a: Addr): seq<P.Event>
    requires Runs(s, es)
    decreases |es|
  {
    if es == [] then []
    else
      var rest := Effects(Apply(s, es[0]), es[1..], a);
      match Effect(s, es[0], a)
      case None => rest
      case Some(e) => [e] + rest
  }

  /** Every run without `clear_all` is, at each address, an honest run of whole operations. */
  lemma {:induction false} RunRefines(s: State, es: seq<Event>, a: Addr)
    requires Consistent(s) && Runs(s, es)
    ensures var abs := Effects(s, es, a);
            && P.Runs(Abs(s, a), abs) && P.RunsHonestly(Abs(s, a), abs)
            && P.After(Abs(s, a), abs) == Abs(After(s, es), a)
    ensures Consistent(After(s, es))
    decreases |es|
  {
    if es != [] {
      var s' := Apply(s, es[0]);
      StepRefines(s, es[0], a);
      ConsistentStep(s, es[0]);
      RunRefines(s', es[1..], a);
      var eff := Effect(s, es[0], a);
      if eff.Some? {
        P.RunCons(Abs(s, a), eff.value, Effects(s', es[1..], a));
      }
    }
  }

  /** A lock object, once made, is the lock of its address for good. */
  lemma {:induction false} LocksArePermanent(s: State, es: seq<Event>, a: Addr)
    requires Consistent(s) && Runs(s, es) && a in s.locks
    ensures a in After(s, es).locks && After(s, es).locks[a] == s.locks[a]
    decreases |es|
  {
    if es != [] {
      ConsistentStep(s, es[0]);
      if es[0].CreateEntry? {
        assert RefIsCurrent(s, s.pcs[es[0].tid]);
      }
      LocksArePermanent(Apply(s, es[0]), es[1..], a);
    }
  }

  /**
   From process start, under every thread schedule: one thread per address inside, distinct locks
   for distinct addresses, and at every address an honest whole-operation run with no nonce gap, and
   with exclusive ownership unless the schedule drops an entry over an outstanding reservation.
   */
  lemma ScheduleIsSafe(s: State, es: seq<Event>, a: Addr)
    requires Initial(s) && Runs(s, es)
    ensures MutualExclusion(After(s, es)) && LockTable(After(s, es))
    ensures P.GapFree(Abs(After(s, es), a))
    ensures P.Runs(Abs(s, a), Effects(s, es, a))
    ensures O.NothingExposed(Abs(s, a), Effects(s, es, a)) ==> O.Owned(Abs(After(s, es), a))
  {
    RunRefines(s, es, a);
    LockingExcludes(After(s, es));
    P.NoNonceGap(Abs(s, a), Effects(s, es, a));
    if O.NothingExposed(Abs(s, a), Effects(s, es, a)) {
      O.ExclusiveOwnership(Abs(s, a), Effects(s, es, a));
    }
  }

  /** A thread that is not waiting for a lock can take its next step. */
  lemma StepsUnlessBlocked(s: State, t: Tid) returns (e: Event)
    requires Consistent(s) && t in s.pcs && (s.pcs[t].InsideRegistry() || s.pcs[t].Critical())
    ensures Enabled(s, e) && PcOf(Apply(s, e), t) != s.pcs[t]
  {
    var pc := s.pcs[t];
    assert RefIsCurrent(s, pc) && ReadsAreCurrent(s, t, pc);
    e := match pc
    case InRegistry(_, _) => TestEntry(t)
    case Creating(_, _) => CreateEntry(t)
    case Returning(_, _) => FetchEntry(t)
    case Locked(op, _, _) => if NeedsReading(op) then ReadPending(t, 0) else LoadCell(t)
    case HasReading(_, _, _, _) => LoadCell(t)
    case HasCell(_, _, _, _, _) => StoreCell(t)
    case _ => Unlock(t);
  }

  /** The two layers of locks never deadlock: while a call is in progress some call can move on. */
  lemma NoDeadlock(s: State, t: Tid) returns (u: Tid, e: Event)
    requires Consistent(s) && t in s.pcs && !s.pcs[t].Idle?
    ensures !PcOf(s, u).Idle? && Enabled(s, e) && PcOf(Apply(s, e), u) != PcOf(s, u)
  {
    var pc := s.pcs[t];
    u := t;
    if pc.Asking? {
      if s.registryOwner.None? {
        e := EnterRegistry(t);
      } else {
        u := s.registryOwner.value;
        e := StepsUnlessBlocked(s, u);
      }
    } else if pc.Waiting? {
      if pc.lock !in s.owners {
        e := Acquire(t);
      } else {
        u := s.owners[pc.lock];
        assert PcOf(s, u).Critical();
        e := StepsUnlessBlocked(s, u);
      }
    } else {
      e := StepsUnlessBlocked(s, t);
    }
  }

  // ----- clear_all -----

  /** Discarding the locks is harmless exactly when no thread has fetched one and not yet left. */
  lemma ClearAllKeepsLockingExactly(s: State)
    requires Locking(s) && Enabled(s, ClearAll)
    ensures Locking(Apply(s, ClearAll)) <==> forall t | t in s.pcs :: !s.pcs[t].HasRef()
  {
    var s' := Apply(s, ClearAll);
    forall t | t in s.pcs
      ensures (RefIsCurrent(s', s.pcs[t]) && OwnsWhatItEntered(s', t, s.pcs[t])) <==> !s.pcs[t].HasRef()
    {
      assert RefIsCurrent(s, s.pcs[t]) && OwnsWhatItEntered(s, t, s.pcs[t]);
    }
  }

  lemma RunCons(s: State, e: Event, es: seq<Event>) returns (r: seq<Event>)
    requires !e.ClearAll? && Enabled(s, e) && Runs(Apply(s, e), es)
    ensures r == [e] + es && Runs(s, r) && After(s, r) == After(Apply(s, e), es)
  {
    r := [e] + es;
    assert r[1..] == es;
  }

  // ----- a call that nothing disturbs -----

  /** Nobody is in the registry, and nobody owns the lock of the address. */
  predicate Free(s: State, a: Addr) {
    s.registryOwner.None? && (a in s.locks ==> s.locks[a] !in s.owners)
  }

  lemma {:induction false} RunAppends(s: State, a: seq<Event>, b: seq<Event>)
    requires Runs(s, a) && Runs(After(s, a), b)
    ensures Runs(s, a + b) && After(s, a + b) == After(After(s, a), b)
    decreases |a|
  {
    if a == [] {
      assert a + b == b;
    } else {
      assert (a + b)[1..] == a[1..] + b;
      RunAppends(Apply(s, a[0]), a[1..], b);
    }
  }

  /** The lock that the address has, or is about to get. */
  function LockFor(s: State, a: Addr): LockId { if a in s.locks then s.locks[a] else s.nextLock }

  lemma Asks(s: State, t: Tid, a: Addr, op: Op) returns (es: seq<Event>)
    requires s.registryOwner.None? && PcOf(s, t).Idle? && MayCall(s, t, a, op)
    ensures Runs(s, es)
    ensures After(s, es) == s.(pcs := s.pcs[t := InRegistry(op, a)], registryOwner := Some(t))
  {
    var s1 := Apply(s, Call(t, a, op));
    es := RunCons(s1, EnterRegistry(t), []);
    es := RunCons(s, Call(t, a, op), es);
  }

  lemma FindsEntry(s: State, t: Tid, a: Addr, op: Op) returns (es: seq<Event>)
    requires PcOf(s, t) == InRegistry(op, a)
    ensures Runs(s, es)
    ensures After(s, es) == s.(pcs := s.pcs[t := Returning(op, a)], locks := s.locks[a := LockFor(s, a)],
                               nextLock := if a in s.locks then s.nextLock else s.nextLock + 1)
  {
    var s1 := Apply(s, TestEntry(t));
    es := [];
    if a in s.locks {
      assert s.locks[a := s.locks[a]] == s.locks;
    } else {
      es := RunCons(s1, CreateEntry(t), es);
    }
    es := RunCons(s, TestEntry(t), es);
  }

  lemma TakesLock(s: State, t: Tid, a: Addr, op: Op) returns (es: seq<Event>)
    requires PcOf(s, t) == Returning(op, a) && a in s.locks && s.locks[a] !in s.owners
    ensures Runs(s, es)
    ensures After(s, es) == s.(pcs := s.pcs[t := Locked(op, a, s.locks[a])], registryOwner := None,
                               owners := s.owners[s.locks[a] := t])
  {
    var s1 := Apply(s, FetchEntry(t));
    es := RunCons(s1, Acquire(t), []);
    es := RunCons(s, FetchEntry(t), es);
  }

  /** The state with a lock for the address, before and after thread `t` has taken it. */
  function WithLock(s: State, a: Addr): State {
    s.(locks := s.locks[a := LockFor(s, a)], nextLock := if a in s.locks then s.nextLock else s.nextLock + 1)
  }

  function Inside(s: State, t: Tid, a: Addr, op: Op): State {
    WithLock(s, a).(pcs := s.pcs[t := Locked(op, a, LockFor(s, a))], owners := s.owners[LockFor(s, a) := t])
  }

  lemma AsksAndFinds(s: State, t: Tid, a: Addr, op: Op) returns (es: seq<Event>)
    requires s.registryOwner.None? && PcOf(s, t).Idle? && MayCall(s, t, a, op)
    ensures Runs(s, es)
    ensures After(s, es) == WithLock(s, a).(pcs := s.pcs[t := Returning(op, a)], registryOwner := Some(t))
  {
    var asks := Asks(s, t, a, op);
    var finds := FindsEntry(After(s, asks), t, a, op);
    RunAppends(s, asks, finds);
    es := asks + finds;
    assert s.pcs[t := InRegistry(op, a)][t := Returning(op, a)] == s.pcs[t := Returning(op, a)];
  }

  /** An idle thread gets inside, over a lock object made for it if the address has none. */
  lemma Enters(s: State, t: Tid, a: Addr, op: Op) returns (es: seq<Event>)
    requires LockTable(s) && Free(s, a) && PcOf(s, t).Idle? && MayCall(s, t, a, op)
    ensures Runs(s, es) && LockFor(s, a) !in s.owners && After(s, es) == Inside(s, t, a, op)
  {
    var finds := AsksAndFinds(s, t, a, op);
    var s1 := After(s, finds);
    assert s1.locks[a] == LockFor(s, a) && s1.owners == s.owners;
    var takes := TakesLock(s1, t, a, op);
    RunAppends(s, finds, takes);
    es := finds + takes;
    assert s1.pcs[t := Locked(op, a, LockFor(s, a))] == s.pcs[t := Locked(op, a, LockFor(s, a))];
  }

  /** A thread inside reads the pending count, if it needs to, and the entry. */
  lemma Reads(s: State, t: Tid, a: Addr, op: Op, lock: LockId, reading: nat) returns (es: seq<Event>)
    requires PcOf(s, t) == Locked(op, a, lock)
    requires if NeedsReading(op) then reading <= P.Pending(Abs(s, a)) else reading == 0
    ensures Runs(s, es)
    ensures After(s, es) == s.(pcs := s.pcs[t := HasCell(op, a, lock, reading, CellOf(s, a))])
  {
    if NeedsReading(op) {
      var s1 := Apply(s, ReadPending(t, reading));
      es := RunCons(s1, LoadCell(t), []);
      es := RunCons(s, ReadPending(t, reading), es);
      assert s1.pcs[t := HasCell(op, a, lock, reading, CellOf(s, a))]
          == s.pcs[t := HasCell(op, a, lock, reading, CellOf(s, a))];
    } else {
      es := RunCons(s, LoadCell(t), []);
    }
  }

  lemma StoresAndLeaves(s: State, t: Tid, pc: Pc) returns (es: seq<Event>)
    requires pc.HasCell? && PcOf(s, t) == pc && (pc.op.Release? ==> t in AccountOf(s, pc.addr).holders)
    ensures Runs(s, es)
    ensures After(s, es) == Store(s, t, pc).(pcs := s.pcs[t := Idle], owners := s.owners - {pc.lock})
  {
    var s1 := Apply(s, StoreCell(t));
    es := RunCons(s1, Unlock(t), []);
    es := RunCons(s, StoreCell(t), es);
    assert s1.pcs[t := Idle] == s.pcs[t := Idle];
  }

  lemma Performs(s: State, t: Tid, a: Addr, op: Op, lock: LockId, reading: nat) returns (es: seq<Event>)
    requires PcOf(s, t) == Locked(op, a, lock) && MayCall(s, t, a, op)
    requires if NeedsReading(op) then reading <= P.Pending(Abs(s, a)) else reading == 0
    ensures Runs(s, es)
    ensures var pc := HasCell(op, a, lock, reading, CellOf(s, a));
            After(s, es) == Store(s, t, pc).(pcs := s.pcs[t := Idle], owners := s.owners - {lock})
  {
    var pc := HasCell(op, a, lock, reading, CellOf(s, a));
    var looks := Reads(s, t, a, op, lock, reading);
    var s1 := After(s, looks);
    var stores := StoresAndLeaves(s1, t, pc);
    RunAppends(s, looks, stores);
    es := looks + stores;
    assert s1.pcs[t := Idle] == s.pcs[t := Idle];
  }

  /** `n` is the larger of the reading and the cached counter, if there is one. */
  predicate IsNext(s: State, a: Addr, reading: nat, n: nat) {
    && n >= reading && (a in s.nonces ==> n >= s.nonces[a])
    && (n == reading || (a in s.nonces && n == s.nonces[a]))
  }

  /** What a whole operation makes of the entry and of the reservations. */
  predicate Performed(s: State, s': State, t: Tid, a: Addr, op: Op, reading: nat) {
    var holders, holders' := AccountOf(s, a).holders, AccountOf(s', a).holders;
    && s'.accounts - {a} == s.accounts - {a}
    && AccountOf(s', a) == AccountOf(s, a).(holders := holders')
    && match op
       case Reserve =>
         && t in holders' && IsNext(s, a, reading, holders'[t])
         && s'.nonces == s.nonces[a := holders'[t] + 1] && holders' == holders[t := holders'[t]]
       case Release =>
         && t in holders && holders' == holders - {t}
         && s'.nonces == if a in s.nonces && s.nonces[a] == holders[t] + 1 then s.nonces[a := holders[t]]
                         else s.nonces - {a}
       case Reset => s'.nonces == s.nonces - {a} && holders' == holders - {t}
       case Read(refresh) =>
         && a in s'.nonces && s'.nonces == s.nonces[a := s'.nonces[a]] && holders' == holders
         && if refresh then s'.nonces[a] == reading else IsNext(s, a, reading, s'.nonces[a])
  }

  lemma StorePerforms(s: State, t: Tid, a: Addr, op: Op, lock: LockId, reading: nat)
    requires MayCall(s, t, a, op)
    ensures Performed(s, Store(s, t, HasCell(op, a, lock, reading, CellOf(s, a))), t, a, op, reading)
  {
  }

  lemma SameData(s: State, r: State, r': State, s': State, t: Tid, a: Addr, op: Op, reading: nat)
    requires r.nonces == s.nonces && r.accounts == s.accounts && r'.nonces == s'.nonces && r'.accounts == s'.accounts
    requires Performed(r, r', t, a, op, reading)
    ensures Performed(s, s', t, a, op, reading)
  {
  }

  lemma CallRuns(s: State, t: Tid, a: Addr, op: Op, reading: nat) returns (es: seq<Event>)
    requires LockTable(s) && Free(s, a) && PcOf(s, t).Idle? && MayCall(s, t, a, op)
    requires if NeedsReading(op) then reading <= P.Pending(Abs(s, a)) else reading == 0
    ensures Runs(s, es) && LockFor(s, a) !in s.owners
    ensures var s1 := Inside(s, t, a, op);
            After(s, es) == Store(s1, t, HasCell(op, a, LockFor(s, a), reading, CellOf(s1, a)))
                              .(pcs := s1.pcs[t := Idle], owners := s1.owners - {LockFor(s, a)})
  {
    var enters := Enters(s, t, a, op);
    var s1 := Inside(s, t, a, op);
    SameDataSameReads(s, s1, a);
    var performs := Performs(s1, t, a, op, LockFor(s, a), reading);
    RunAppends(s, enters, performs);
    es := enters + performs;
  }

  /** Both locks are free again, the address has its lock entry, and thread `t` is idle. */
  predicate Left(s: State, s': State, t: Tid, a: Addr) {
    && s'.pcs == s.pcs[t := Idle] && s'.registryOwner.None? && s'.owners == s.owners
    && s'.locks == s.locks[a := LockFor(s, a)]
  }

  lemma InsideThenLeft(s: State, s1: State, stored: State, s': State, t: Tid, a: Addr, op: Op)
    requires s1 == Inside(s, t, a, op) && s.registryOwner.None? && LockFor(s, a) !in s.owners
    requires stored == s1.(nonces := stored.nonces, accounts := stored.accounts)
    requires s' == stored.(pcs := s1.pcs[t := Idle], owners := s1.owners - {LockFor(s, a)})
    ensures Left(s, s', t, a)
  {
  }

  /**
   Left alone, a call runs to its end and does exactly what its operation is for: it gives back both
   locks and changes the entry and the reservations of its own address as the operation demands.
   */
  lemma CallPerforms(s: State, t: Tid, a: Addr, op: Op, reading: nat) returns (es: seq<Event>)
    requires LockTable(s) && Free(s, a) && PcOf(s, t).Idle? && MayCall(s, t, a, op)
    requires if NeedsReading(op) then reading <= P.Pending(Abs(s, a)) else reading == 0
    ensures Runs(s, es) && Left(s, After(s, es), t, a) && Performed(s, After(s, es), t, a, op, reading)
  {
    es := CallRuns(s, t, a, op, reading);
    var s1 := Inside(s, t, a, op);
    var stored := Store(s1, t, HasCell(op, a, LockFor(s, a), reading, CellOf(s1, a)));
    StorePerforms(s1, t, a, op, LockFor(s, a), reading);
    SameData(s, s1, stored, After(s, es), t, a, op, reading);
    InsideThenLeft(s, s1, stored, After(s, es), t, a, op);
  }

  lemma FailsAndLeaves(s: State, t: Tid, a: Addr, op: Op, lock: LockId) returns (es: seq<Event>)
    requires PcOf(s, t) == Locked(op, a, lock) && NeedsReading(op)
    ensures Runs(s, es) && After(s, es) == s.(pcs := s.pcs[t := Idle], owners := s.owners - {lock})
  {
    var s1 := Apply(s, ReadFails(t));
    es := RunCons(s1, Unlock(t), []);
    es := RunCons(s, ReadFails(t), es);
    assert s1.pcs[t := Idle] == s.pcs[t := Idle];
  }

  /** A call whose reading fails ends as well: both locks are free again, and nothing is stored or reserved. */
  lemma FailedReadLeaves(s: State, t: Tid, a: Addr, op: Op) returns (es: seq<Event>)
    requires LockTable(s) && Free(s, a) && PcOf(s, t).Idle? && MayCall(s, t, a, op) && NeedsReading(op)
    ensures Runs(s, es) && Left(s, After(s, es), t, a)
    ensures After(s, es).nonces == s.nonces && After(s, es).accounts == s.accounts
  {
    var enters := Enters(s, t, a, op);
    var s1 := Inside(s, t, a, op);
    var leaves := FailsAndLeaves(s1, t, a, op, LockFor(s, a));
    RunAppends(s, enters, leaves);
    es := enters + leaves;
    InsideThenLeft(s, s1, s1, After(s, es), t, a, op);
  }

  /** With the registry lock in hand and no entry for the address, a thread makes and acquires a fresh lock. */
  lemma MakesFreshLock(s: State, u: Tid) returns (es: seq<Event>)
    requires LockTable(s) && PcOf(s, u).InRegistry? && PcOf(s, u).addr !in s.locks
    ensures Runs(s, es)
    ensures After(s, es).pcs == s.pcs[u := Locked(PcOf(s, u).op, PcOf(s, u).addr, s.nextLock)]
  {
    var s1 := Apply(s, TestEntry(u));
    var s2 := Apply(s1, CreateEntry(u));
    var s3 := Apply(s2, FetchEntry(u));
    var s4 := Apply(s3, Acquire(u));
    assert s4.pcs == s.pcs[u := Locked(PcOf(s, u).op, PcOf(s, u).addr, s.nextLock)];
    es := RunCons(s3, Acquire(u), []);
    es := RunCons(s2, FetchEntry(u), es);
    es := RunCons(s1, CreateEntry(u), es);
    es := RunCons(s, TestEntry(u), es);
  }

  /** An idle thread that calls while the address has no lock entry walks straight in. */
  lemma NewcomerEnters(s: State, u: Tid, a: Addr) returns (es: seq<Event>)
    requires LockTable(s) && s.registryOwner.None? && a !in s.locks && PcOf(s, u).Idle?
    ensures Runs(s, es)
    ensures After(s, es).pcs == s.pcs[u := Locked(Read(false), a, s.nextLock)]
  {
    var s1 := Apply(s, Call(u, a, Read(false)));
    var s2 := Apply(s1, EnterRegistry(u));
    es := MakesFreshLock(s2, u);
    assert After(s2, es).pcs == s.pcs[u := Locked(Read(false), a, s.nextLock)];
    es := RunCons(s1, EnterRegistry(u), es);
    es := RunCons(s, Call(u, a, Read(false)), es);
  }

  /** Next to a thread that is inside, with its lock entry gone, a newcomer breaks exclusion. */
  lemma NewcomerBreaksExclusion(s: State, t: Tid, u: Tid) returns (es: seq<Event>)
    requires LockTable(s) && s.registryOwner.None? && s.locks == map[]
    requires t in s.pcs && s.pcs[t].Critical() && PcOf(s, u).Idle?
    ensures Runs(s, es) && !MutualExclusion(After(s, es))
  {
    es := NewcomerEnters(s, u, s.pcs[t].addr);
    assert After(s, es).pcs[t] == s.pcs[t] && After(s, es).pcs[u].Critical();
  }

  lemma ClearAllBreaksExclusion(s: State, t: Tid, u: Tid) returns (es: seq<Event>)
    requires Locking(s) && Enabled(s, ClearAll)
    requires t in s.pcs && s.pcs[t].HasRef() && PcOf(s, u).Idle?
    ensures Runs(Apply(s, ClearAll), es) && !MutualExclusion(After(Apply(s, ClearAll), es))
  {
    var s', pc := Apply(s, ClearAll), s.pcs[t];
    if pc.Critical() {
      es := NewcomerBreaksExclusion(s', t, u);
    } else if pc.lock in s.owners {
      es := NewcomerBreaksExclusion(s', s.owners[pc.lock], u);
    } else {
      var s'' := Apply(s', Acquire(t));
      es := NewcomerBreaksExclusion(s'', t, u);
      assert RefIsCurrent(s, pc);
      es := RunCons(s', Acquire(t), es);
    }
  }

  lemma {:induction false} LockingRun(s: State, es: seq<Event>)
    requires Locking(s) && Runs(s, es)
    ensures Locking(After(s, es))
    decreases |es|
  {
    if es != [] {
      LockingStep(s, es[0]);
      LockingRun(Apply(s, es[0]), es[1..]);
    }
  }

  /**
   `clear_all` throws the locks away without taking them.  Mutual exclusion can fail afterwards
   exactly when some thread had fetched a lock and not yet left it.
   */
  lemma ClearAllUnsafeExactly(s: State, u: Tid)
    requires Locking(s) && Enabled(s, ClearAll) && PcOf(s, u).Idle?
    ensures (exists es :: Runs(Apply(s, ClearAll), es) && !MutualExclusion(After(Apply(s, ClearAll), es)))
            <==> exists t | t in s.pcs :: s.pcs[t].HasRef()
  {
    var s' := Apply(s, ClearAll);
    if t :| t in s.pcs && s.pcs[t].HasRef() {
      var es := ClearAllBreaksExclusion(s, t, u);
    } else {
      ClearAllKeepsLockingExactly(s);
      forall es | Runs(s', es) ensures MutualExclusion(After(s', es)) {
        LockingRun(s', es);
        LockingExcludes(After(s', es));
      }
    }
  }
}
