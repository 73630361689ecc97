/**
 Any number of executors sharing one signer address on one chain, at the granularity of whole
 `NonceManager` operations.  The chain moves by itself between any two events.
 */
module NonceProtocol {
  import opened Prelude
  import opened NonceOps

  /** Names one thread that runs transactions. */
  type Tid = nat

  /**
   cell:    the cache entry of the address
   mined:   transactions of the address already in a block
   mempool: nonces the node has accepted and not yet mined
   holders: the reservation each thread has neither broadcast nor handed back
   spent:   nonces our threads have broadcast
   */
  datatype State = State(cell: Cell, mined: nat, mempool: set<nat>,
                         holders: map<Tid, nat>, spent: set<nat>)

  datatype Event =
    | Reserve(tid: Tid, reading: nat)
    | Release(tid: Tid)
    | Broadcast(tid: Tid)
    | Reset(tid: Tid)
    | Read(reading: nat, forceRefresh: bool)
    | Mine
    | External(nonce: nat)

  // ----- the chain -----

  /** The node's pending count: the first nonce at or above `mined` it has not accepted. */
  function PendingFrom(mined: nat, pool: set<nat>): (p: nat)
    ensures mined <= p && p !in pool
    ensures forall n | mined <= n < p :: n in pool
    decreases |pool|
  {
    if mined in pool then
      var p := PendingFrom(mined + 1, pool - {mined});
      assert forall n | mined <= n < p :: n in pool by {
        forall n | mined <= n < p ensures n in pool {
          if n != mined { assert n in pool - {mined}; }
        }
      }
      p
    else mined
  }

  function Pending(s: State): nat { PendingFrom(s.mined, s.mempool) }

  // ----- steps -----

  /** What the program and the node allow; readings are unconstrained here. */
  predicate Enabled(s: State, e: Event) {
    match e
    case Reserve(t, _) => t !in s.holders
    case Release(t) => t in s.holders
    case Broadcast(t) => t in s.holders && s.mined <= s.holders[t]
    case Reset(_) => true
    case Read(_, _) => true
    case Mine => s.mined in s.mempool
    case External(n) => s.mined <= n
  }

  /** Pending readings may lag behind the chain but never run ahead of it. */
  predicate Honest(s: State, e: Event) {
    (e.Reserve? || e.Read?) ==> e.reading <= Pending(s)
  }

  /** Whether the event discards or lowers the counter other than by handing back its top. */
  predicate Drops(s: State, e: Event) {
    match e
    case Release(t) => t in s.holders && s.cell != Some(s.holders[t] + 1)
    case Reset(_) => s.cell.Some?
    case Read(_, refresh) => refresh && s.cell.Some?
    case _ => false
  }

  function Apply(s: State, e: Event): State
    requires Enabled(s, e)
  {
    match e
    case Reserve(t, r) =>
      s.(cell := AfterReserve(s.cell, r), holders := s.holders[t := NextNonce(s.cell, r)])
    case Release(t) =>
      s.(cell := AfterRelease(s.cell, s.holders[t]), holders := s.holders - {t})
    case Broadcast(t) =>
      s.(mempool := s.mempool + {s.holders[t]}, spent := s.spent + {s.holders[t]}, holders := s.holders - {t})
    case Reset(t) => s.(cell := None, holders := s.holders - {t})
    case Read(r, refresh) => s.(cell := AfterRead(s.cell, r, refresh))
    case Mine => s.(mined := s.mined + 1, mempool := s.mempool - {s.mined})
    case External(n) => s.(mempool := s.mempool + {n})
  }

  // ----- runs -----

  predicate Initial(s: State) {
    s.cell.None? && s.holders == map[] && s.spent == {}
  }

  predicate Runs(s: State, es: seq<Event>)
    decreases |es|
  {
    es == [] || (Enabled(s, es[0]) && Runs(Apply(s, es[0]), es[1..]))
  }

  function After(s: State, es: seq<Event>): State
    requires Runs(s, es)
    decreases |es|
  {
    if es == [] then s else After(Apply(s, es[0]), es[1..])
  }

  predicate RunsHonestly(s: State, es: seq<Event>)
    requires Runs(s, es)
    decreases |es|
  {
    es == [] || (Honest(s, es[0]) && RunsHonestly(Apply(s, es[0]), es[1..]))
  }

  // ----- what becomes of nonces and transactions -----

  /** The chain has, or has had, a transaction with this nonce. */
  predicate Known(s: State, n: nat) { n < s.mined || n in s.mempool }

  /** The event puts a transaction with this nonce on the wire. */
  predicate Sends(s: State, e: Event, n: nat) {
    (e.Broadcast? && e.tid in s.holders && n == s.holders[e.tid]) || (e.External? && n == e.nonce)
  }

  /** The event ends what the thread owns: by a broadcast, a hand-back or a reset. */
  predicate EndsHold(e: Event, t: Tid) { (e.Broadcast? || e.Release? || e.Reset?) && e.tid == t }

  /**
   Transactions are neither lost nor made up: the chain comes to know exactly what is sent, the threads
   have spent exactly what they broadcast, and mining moves one transaction out of the mempool.
   */
  lemma TransactionsConserved(s: State, e: Event)
    requires Enabled(s, e)
    ensures var s' := Apply(s, e);
            && (forall n :: Known(s', n) <==> Known(s, n) || Sends(s, e, n))
            && (forall n :: n in s'.spent <==> n in s.spent || (e.Broadcast? && Sends(s, e, n)))
            && s'.mined == s.mined + (if e.Mine? then 1 else 0)
            && ((forall n | n in s.mempool :: s.mined <= n) ==> forall n | n in s'.mempool :: s'.mined <= n)
  {
  }

  /** Reservations are neither lost nor made up: a thread keeps what it owns until it ends that itself. */
  lemma ReservationsKept(s: State, e: Event, t: Tid)
    requires Enabled(s, e)
    ensures var s' := Apply(s, e);
            && (t in s'.holders <==> (t in s.holders && !EndsHold(e, t)) || (e.Reserve? && e.tid == t))
            && (t in s.holders && t in s'.holders ==> s'.holders[t] == s.holders[t])
            && (e.Reserve? && e.tid == t ==> s'.cell == Some(s'.holders[t] + 1) && s'.holders[t] >= e.reading)
  {
  }

  // ----- gap freedom -----

  predicate Covered(s: State, n: nat) {
    n in s.mempool || n in s.holders.Values
  }

  /** Every nonce the chain still waits for below the counter is in flight or owned by a live thread. */
  predicate GapFree(s: State) {
    s.cell.Some? ==> forall n | Pending(s) <= n < s.cell.value :: Covered(s, n)
  }

  /** The pending count never moves back. */
  lemma PendingMonotone(s: State, e: Event)
    requires Enabled(s, e)
    ensures Pending(s) <= Pending(Apply(s, e))
    ensures e.Mine? ==> Pending(s) == Pending(Apply(s, e))
  {
    var s' := Apply(s, e);
    var p, p' := Pending(s), Pending(s');
    assert forall n | s'.mined <= n < p :: n in s.mempool;
    assert forall n | s'.mined <= n < p :: n in s'.mempool;
    assert p <= p';
    if e.Mine? {
      assert forall n | s.mined <= n < p' :: n == s.mined || n in s'.mempool;
    }
  }

  lemma StillHeld(s: State, t: Tid, n: nat)
    requires n in s.holders.Values
    ensures n in (s.holders - {t}).Values || (t in s.holders && s.holders[t] == n)
  {
    var u :| u in s.holders && s.holders[u] == n;
    if u != t { assert u in s.holders - {t}; }
  }

  lemma StillCovered(s: State, e: Event, n: nat)
    requires Enabled(s, e) && Covered(s, n) && Pending(Apply(s, e)) <= n
    requires e.Release? ==> s.holders[e.tid] != n
    requires !e.Reset?
    ensures Covered(Apply(s, e), n)
  {
    var s' := Apply(s, e);
    if n in s.mempool {
      if e.Mine? { assert n != s.mined; }
    } else if e.Release? || e.Broadcast? {
      StillHeld(s, e.tid, n);
    } else if e.Reserve? {
      var u :| u in s.holders && s.holders[u] == n;
      assert u in s'.holders && s'.holders[u] == n;
    }
  }

  lemma GapFreeStep(s: State, e: Event)
    requires GapFree(s) && Enabled(s, e) && Honest(s, e)
    ensures GapFree(Apply(s, e))
  {
    var s' := Apply(s, e);
    PendingMonotone(s, e);
    if s'.cell.Some? {
      forall n | Pending(s') <= n < s'.cell.value
        ensures Covered(s', n)
      {
        if e.Reserve? && n == s'.cell.value - 1 {
          assert s'.holders[e.tid] == n;
        } else {
          assert s.cell.Some? && n < s.cell.value;
          StillCovered(s, e, n);
        }
      }
    }
  }

  lemma {:induction false} GapFreeRun(s: State, es: seq<Event>)
    requires GapFree(s) && Runs(s, es) && RunsHonestly(s, es)
    ensures GapFree(After(s, es))
    decreases |es|
  {
    if es != [] {
      GapFreeStep(s, es[0]);
      GapFreeRun(Apply(s, es[0]), es[1..]);
    }
  }

  /**
   No permanent gap: after any interleaving of reservations, hand-backs, resets, reads, broadcasts
   and chain progress, drops and duplicate issues included.
   */
  lemma NoNonceGap(s: State, es: seq<Event>)
    requires Initial(s) && Runs(s, es) && RunsHonestly(s, es)
    ensures GapFree(After(s, es))
  {
    GapFreeRun(s, es);
  }

  /**
   Whenever nobody holds a reservation, a reservation taken under a fresh reading gets exactly
   the pending count, and under a lagging reading never anything above it.
   */
  lemma QuiescentRecovery(s: State, es: seq<Event>, reading: nat)
    requires Initial(s) && Runs(s, es) && RunsHonestly(s, es)
    requires After(s, es).holders == map[]
    requires reading <= Pending(After(s, es))
    ensures NextNonce(After(s, es).cell, reading) <= Pending(After(s, es))
    ensures NextNonce(After(s, es).cell, Pending(After(s, es))) == Pending(After(s, es))
  {
    var s' := After(s, es);
    NoNonceGap(s, es);
    assert !Covered(s', Pending(s'));
  }

  /**
   `increment_nonce` has no owner for the nonce it skips: it keeps the protocol gap-free exactly
   when that nonce is already behind the chain or accounted for.
   */
  lemma IncrementKeepsGapFreeExactly(s: State)
    requires GapFree(s) && s.cell.Some?
    ensures GapFree(s.(cell := AfterIncrement(s.cell))) <==> s.cell.value < Pending(s) || Covered(s, s.cell.value)
  {
    var s' := s.(cell := AfterIncrement(s.cell));
    assert Pending(s') == Pending(s);
    assert forall n :: Covered(s', n) == Covered(s, n);
  }

  /** Prefixing an event to a run. */
  lemma RunCons(s: State, e: Event, es: seq<Event>)
    requires Enabled(s, e) && Runs(Apply(s, e), es)
    ensures Runs(s, [e] + es) && After(s, [e] + es) == After(Apply(s, e), es)
    ensures Honest(s, e) && RunsHonestly(Apply(s, e), es) ==> RunsHonestly(s, [e] + es)
  {
    assert ([e] + es)[1..] == es;
  }

  /** The threads named each own a nonce that the chain has not passed, and none is named twice. */
  predicate Ready(s: State, order: seq<Tid>) {
    && (forall t | t in order :: t in s.holders && s.mined <= s.holders[t])
    && (forall i, j | 0 <= i < j < |order| :: order[i] != order[j])
  }

  /** Reservations may be broadcast in any order: all of them reach the chain, and nobody else's is touched. */
  lemma {:induction false} BroadcastInAnyOrder(s: State, order: seq<Tid>) returns (es: seq<Event>)
    requires Ready(s, order)
    ensures Runs(s, es) && RunsHonestly(s, es)
    ensures var s' := After(s, es);
            && s'.cell == s.cell && s'.mined == s.mined
            && (forall t | t in order :: t !in s'.holders && s.holders[t] in s'.mempool && s.holders[t] in s'.spent)
            && (forall t | t !in order :: (t in s'.holders <==> t in s.holders)
                                         && (t in s.holders ==> s'.holders[t] == s.holders[t]))
            && s.mempool <= s'.mempool && s.spent <= s'.spent
    decreases |order|
  {
    es := [];
    if order != [] {
      assert order[0] in order;
      var e := Broadcast(order[0]);
      assert forall t | t in order[1..] :: t in order && t != order[0];
      es := BroadcastInAnyOrder(Apply(s, e), order[1..]);
      RunCons(s, e, es);
      es := [e] + es;
      assert order[0] !in order[1..];
      assert forall t | t in order && t != order[0] :: t in order[1..];
    }
  }
}
