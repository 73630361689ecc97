/**
 Who owns a nonce.  Ownership is exclusive as long as every outstanding reservation stays below the
 cached counter; this module says which events end that, and what can happen once it has ended.
 */
module NonceOwnership {
  import opened Prelude
  import opened NonceOps
  import opened NonceProtocol

  predicate Distinct(holders: map<Tid, nat>) {
    forall t, u | t in holders && u in holders && t != u :: holders[t] != holders[u]
  }

  /** The counter is past the nonce. */
  predicate Behind(cell: Cell, n: nat) { cell.Some? && n < cell.value }

  /** Outstanding reservations are pairwise distinct and behind the counter. */
  predicate Owned(s: State) {
    Distinct(s.holders) && forall t | t in s.holders :: Behind(s.cell, s.holders[t])
  }

  /** The same with what has been broadcast: no nonce is owned or sent twice. */
  predicate Exclusive(s: State) {
    && Owned(s)
    && (forall t | t in s.holders :: s.holders[t] !in s.spent)
    && (forall n | n in s.spent :: Behind(s.cell, n))
  }

  // ----- which events end exclusive ownership -----

  /**
   The event drops the entry over somebody else's head: another reservation is outstanding, or a
   forced refresh sets the counter at or below one.
   */
  predicate Exposes(s: State, e: Event) {
    Drops(s, e) &&
    match e
    case Read(r, _) => exists t | t in s.holders :: r <= s.holders[t]
    case Release(t) => exists u | u in s.holders :: u != t
    case Reset(t) => exists u | u in s.holders :: u != t
    case _ => false
  }

  /** Holds for arbitrary pending readings, stale, ahead of the chain, or going back and forth. */
  lemma OwnedStep(s: State, e: Event)
    requires Owned(s) && Enabled(s, e) && !Exposes(s, e)
    ensures Owned(Apply(s, e))
  {
  }

  lemma ExclusiveStep(s: State, e: Event)
    requires Exclusive(s) && Enabled(s, e) && !Drops(s, e)
    ensures Exclusive(Apply(s, e))
  {
  }

  predicate NothingExposed(s: State, es: seq<Event>)
    requires Runs(s, es)
    decreases |es|
  {
    es == [] || (!Exposes(s, es[0]) && NothingExposed(Apply(s, es[0]), es[1..]))
  }

  predicate DropFree(s: State, es: seq<Event>)
    requires Runs(s, es)
    decreases |es|
  {
    es == [] || (!Drops(s, es[0]) && DropFree(Apply(s, es[0]), es[1..]))
  }

  lemma {:induction false} OwnedRun(s: State, es: seq<Event>)
    requires Owned(s) && Runs(s, es) && NothingExposed(s, es)
    ensures Owned(After(s, es))
    decreases |es|
  {
    if es != [] {
      OwnedStep(s, es[0]);
      OwnedRun(Apply(s, es[0]), es[1..]);
    }
  }

  lemma {:induction false} ExclusiveRun(s: State, es: seq<Event>)
    requires Exclusive(s) && Runs(s, es) && DropFree(s, es)
    ensures Exclusive(After(s, es))
    decreases |es|
  {
    if es != [] {
      ExclusiveStep(s, es[0]);
      ExclusiveRun(Apply(s, es[0]), es[1..]);
    }
  }

  lemma {:induction false} DropFreeExposesNothing(s: State, es: seq<Event>)
    requires Runs(s, es) && DropFree(s, es)
    ensures NothingExposed(s, es)
    decreases |es|
  {
    if es != [] {
      DropFreeExposesNothing(Apply(s, es[0]), es[1..]);
    }
  }

  /**
   In every run in which entries are dropped only while no other reservation is outstanding, no
   nonce has two owners; if none is dropped at all, none is broadcast twice either.
   */
  lemma ExclusiveOwnership(s: State, es: seq<Event>)
    requires Initial(s) && Runs(s, es) && NothingExposed(s, es)
    ensures Owned(After(s, es))
    ensures DropFree(s, es) ==> Exclusive(After(s, es))
  {
    OwnedRun(s, es);
    if DropFree(s, es) {
      ExclusiveRun(s, es);
    }
  }

  // ----- what can happen once it has ended -----

  lemma FreshThread(ids: set<Tid>) returns (t: Tid)
    ensures t !in ids
  {
    t := AboveAll(ids);
  }

  lemma {:induction false} AboveAll(ids: set<Tid>) returns (t: Tid)
    ensures forall u | u in ids :: u < t
    decreases |ids|
  {
    t := 0;
    if ids != {} {
      var u :| u in ids;
      t := AboveAll(ids - {u});
      forall v | v in ids ensures v < t + u + 1 {
        if v != u { assert v in ids - {u}; }
      }
      t := t + u + 1;
    }
  }

  /** A drop-free honest run. */
  ghost predicate Quiet(s: State, es: seq<Event>) {
    Runs(s, es) && RunsHonestly(s, es) && DropFree(s, es)
  }

  lemma QuietCons(s: State, e: Event, es: seq<Event>) returns (r: seq<Event>)
    requires Enabled(s, e) && Honest(s, e) && !Drops(s, e) && Quiet(Apply(s, e), es)
    ensures Quiet(s, r) && After(s, r) == After(Apply(s, e), es)
  {
    r := [e] + es;
    RunCons(s, e, es);
    assert r[1..] == es;
  }

  /** Reservations alone climb to any nonce the counter is not past, and hand it out to a new thread. */
  lemma {:induction false} Climb(s: State, n: nat) returns (es: seq<Event>, t: Tid)
    requires !Behind(s.cell, n)
    ensures Quiet(s, es) && t !in s.holders
    ensures After(s, es).spent == s.spent && t in After(s, es).holders && After(s, es).holders[t] == n
    ensures forall u | u in s.holders :: u in After(s, es).holders && After(s, es).holders[u] == s.holders[u]
    decreases n - NextNonce(s.cell, 0)
  {
    t := FreshThread(s.holders.Keys);
    var e := Reserve(t, 0);
    var s' := Apply(s, e);
    es := [];
    if NextNonce(s.cell, 0) < n {
      es, t := Climb(s', n);
    }
    es := QuietCons(s, e, es);
  }

  /** Some drop-free honest continuation gives one nonce to two threads. */
  ghost predicate CanCollide(s: State) {
    exists es :: Quiet(s, es) && !Distinct(After(s, es).holders)
  }

  /** Some drop-free honest continuation hands out a nonce that is owned or has been broadcast. */
  ghost predicate CanReissue(s: State) {
    exists es :: Quiet(s, es) && (!Distinct(After(s, es).holders) || OwnsSpent(After(s, es)))
  }

  predicate OwnsSpent(s: State) { exists t | t in s.holders :: s.holders[t] in s.spent }

  lemma ClimbToOwner(s: State, t: Tid)
    requires t in s.holders && !Behind(s.cell, s.holders[t])
    ensures CanCollide(s)
  {
    var es, u := Climb(s, s.holders[t]);
    assert After(s, es).holders[u] == After(s, es).holders[t];
  }

  /** Two threads can come to own one nonce exactly when some owner is not behind the counter. */
  lemma CollisionExactly(s: State)
    requires Distinct(s.holders)
    ensures CanCollide(s) <==> exists t | t in s.holders :: !Behind(s.cell, s.holders[t])
  {
    if t :| t in s.holders && !Behind(s.cell, s.holders[t]) {
      ClimbToOwner(s, t);
    } else {
      forall es | Quiet(s, es) ensures Distinct(After(s, es).holders) {
        DropFreeExposesNothing(s, es);
        OwnedRun(s, es);
      }
    }
  }

  /** An owned or broadcast nonce can be handed out again exactly when the counter is not past it. */
  lemma ReissueExactly(s: State)
    requires Distinct(s.holders) && !OwnsSpent(s)
    ensures CanReissue(s) <==> exists n :: (n in s.spent || n in s.holders.Values) && !Behind(s.cell, n)
  {
    if n :| (n in s.spent || n in s.holders.Values) && !Behind(s.cell, n) {
      var es, u := Climb(s, n);
      if n in s.holders.Values {
        var t :| t in s.holders && s.holders[t] == n;
        assert After(s, es).holders[u] == After(s, es).holders[t];
      }
    } else {
      assert forall t | t in s.holders :: s.holders[t] in s.holders.Values;
      forall es | Quiet(s, es) ensures Distinct(After(s, es).holders) && !OwnsSpent(After(s, es)) {
        ExclusiveRun(s, es);
      }
    }
  }

  // ----- the same with an up-to-date node -----

  /** Every reading is the pending count of its moment. */
  predicate Fresh(s: State, es: seq<Event>)
    requires Runs(s, es)
    decreases |es|
  {
    es == [] || ((es[0].Reserve? || es[0].Read? ==> es[0].reading == Pending(s)) && Fresh(Apply(s, es[0]), es[1..]))
  }

  /** Some drop-free continuation under fresh readings gives one nonce to two threads. */
  ghost predicate CanCollideFresh(s: State) {
    exists es :: Runs(s, es) && Fresh(s, es) && DropFree(s, es) && !Distinct(After(s, es).holders)
  }

  /** Owners are distinct, and each is behind the counter or behind the chain. */
  predicate Passed(s: State) {
    Distinct(s.holders) && forall t | t in s.holders :: Behind(s.cell, s.holders[t]) || s.holders[t] < Pending(s)
  }

  lemma PassedStep(s: State, e: Event)
    requires Passed(s) && Enabled(s, e) && !Drops(s, e)
    requires e.Reserve? || e.Read? ==> e.reading == Pending(s)
    ensures Passed(Apply(s, e))
  {
    PendingMonotone(s, e);
  }

  lemma {:induction false} PassedRun(s: State, es: seq<Event>)
    requires Passed(s) && Runs(s, es) && Fresh(s, es) && DropFree(s, es)
    ensures Passed(After(s, es))
    decreases |es|
  {
    if es != [] {
      PassedStep(s, es[0]);
      PassedRun(Apply(s, es[0]), es[1..]);
    }
  }

  /** From the pending count, reservations under fresh readings climb to any nonce the counter is not past. */
  lemma {:induction false} ClimbFresh(s: State, n: nat) returns (es: seq<Event>, t: Tid)
    requires !Behind(s.cell, n) && Pending(s) <= n
    ensures Runs(s, es) && Fresh(s, es) && DropFree(s, es) && t !in s.holders
    ensures t in After(s, es).holders && After(s, es).holders[t] == n
    ensures forall u | u in s.holders :: u in After(s, es).holders && After(s, es).holders[u] == s.holders[u]
    decreases n - NextNonce(s.cell, Pending(s))
  {
    t := FreshThread(s.holders.Keys);
    var e := Reserve(t, Pending(s));
    var s' := Apply(s, e);
    es := [];
    if NextNonce(s.cell, Pending(s)) < n {
      es, t := ClimbFresh(s', n);
    }
    RunCons(s, e, es);
    assert ([e] + es)[1..] == es;
    es := [e] + es;
  }

  /**
   With an up-to-date node two threads can come to own one nonce exactly when some owner is neither
   behind the counter nor behind the chain.
   */
  lemma FreshCollisionExactly(s: State)
    requires Distinct(s.holders)
    ensures CanCollideFresh(s)
            <==> exists t | t in s.holders :: !Behind(s.cell, s.holders[t]) && Pending(s) <= s.holders[t]
  {
    if t :| t in s.holders && !Behind(s.cell, s.holders[t]) && Pending(s) <= s.holders[t] {
      var es, u := ClimbFresh(s, s.holders[t]);
      assert After(s, es).holders[u] == After(s, es).holders[t];
    } else {
      forall es | Runs(s, es) && Fresh(s, es) && DropFree(s, es) ensures Distinct(After(s, es).holders) {
        PassedRun(s, es);
      }
    }
  }

  // ----- drops and rollbacks -----

  /** A dropped entry can give one nonce to two threads exactly when a reservation is still outstanding. */
  lemma DroppedCollidesExactly(s: State)
    requires s.cell.None? && Distinct(s.holders)
    ensures CanCollide(s) <==> s.holders != map[]
  {
    CollisionExactly(s);
    if s.holders != map[] {
      var t :| t in s.holders;
      assert !Behind(s.cell, s.holders[t]);
    }
  }

  /**
   From exclusive ownership, one event leads to where two threads can come to own one nonce exactly
   when it drops the entry while another reservation is outstanding, or refreshes the counter down
   to one.
   */
  lemma ExposureExactly(s: State, e: Event)
    requires Owned(s) && Enabled(s, e)
    ensures CanCollide(Apply(s, e)) <==> Exposes(s, e)
  {
    var s' := Apply(s, e);
    if Exposes(s, e) {
      var t :| t in s.holders && if e.Read? then e.reading <= s.holders[t] else t != e.tid;
      assert t in s'.holders && !Behind(s'.cell, s'.holders[t]);
      ClimbToOwner(s', t);
    } else {
      OwnedStep(s, e);
      CollisionExactly(s');
    }
  }

  /**
   Rolling the counter back can give one nonce to two threads exactly when another thread owns the
   nonce handed back, as it may after a drop.
   */
  lemma RollbackCollidesExactly(s: State, t: Tid)
    requires t in s.holders && s.cell == Some(s.holders[t] + 1)
    requires Distinct(s.holders - {t}) && forall u | u in s.holders :: Behind(s.cell, s.holders[u])
    ensures CanCollide(Apply(s, Release(t))) <==> exists u | u in s.holders :: u != t && s.holders[u] == s.holders[t]
  {
    var s' := Apply(s, Release(t));
    CollisionExactly(s');
    if u :| u in s.holders && u != t && s.holders[u] == s.holders[t] {
      assert u in s'.holders && !Behind(s'.cell, s'.holders[u]);
    }
  }

  // ----- a concrete run -----

  lemma RunConsHonestly(s: State, e: Event, es: seq<Event>) returns (r: seq<Event>)
    requires Enabled(s, e) && Honest(s, e) && Runs(Apply(s, e), es) && RunsHonestly(Apply(s, e), es)
    ensures Runs(s, r) && RunsHonestly(s, r) && After(s, r) == After(Apply(s, e), es)
  {
    r := [e] + es;
    RunCons(s, e, es);
  }

  /** From here on nonces 5 and 6 are issued once more, the second time while 6 is still held. */
  lemma ReissueBelowLiveHolder(s: State) returns (es: seq<Event>)
    requires s.cell.None? && s.mined == 5 && s.mempool == {} && s.holders == map[2 := 6]
    ensures Runs(s, es) && RunsHonestly(s, es)
    ensures After(s, es).holders == map[3 := 5, 4 := 6, 5 := 6]
  {
    var s1 := Apply(s, Reserve(3, 5));
    var s2 := Apply(s1, Reserve(4, 5));
    var s3 := Apply(s2, Release(2));
    var s4 := Apply(s3, Reserve(5, 5));
    assert s4.holders == map[3 := 5, 4 := 6, 5 := 6];
    es := RunConsHonestly(s3, Reserve(5, 5), []);
    es := RunConsHonestly(s2, Release(2), es);
    es := RunConsHonestly(s1, Reserve(4, 5), es);
    es := RunConsHonestly(s, Reserve(3, 5), es);
  }

  /**
   Ownership is not exclusive past a drop: thread 2 holds 6 from before thread 1's mid-sequence
   release, thread 4 is issued 6 again, and thread 2's own release then rolls the counter back
   under thread 4, so thread 5 is issued 6 as well.
   */
  lemma DropBreaksOwnership() returns (s: State, es: seq<Event>)
    ensures Initial(s) && Runs(s, es) && RunsHonestly(s, es)
    ensures After(s, es).holders == map[3 := 5, 4 := 6, 5 := 6]
    ensures !Exclusive(After(s, es)) && GapFree(After(s, es))
  {
    s := State(None, 5, {}, map[], {});
    var s1 := Apply(s, Reserve(1, 5));
    var s2 := Apply(s1, Reserve(2, 5));
    var s3 := Apply(s2, Release(1));
    assert s3.holders == map[2 := 6];
    es := ReissueBelowLiveHolder(s3);
    assert After(s3, es).holders[4] == After(s3, es).holders[5];
    es := RunConsHonestly(s2, Release(1), es);
    es := RunConsHonestly(s1, Reserve(2, 5), es);
    es := RunConsHonestly(s, Reserve(1, 5), es);
    NoNonceGap(s, es);
  }

  // ----- broadcast nonces -----

  /** Whatever our threads have broadcast, the chain still has. */
  predicate SpentIsKnown(s: State) {
    forall n | n in s.spent :: n < s.mined || n in s.mempool
  }

  lemma {:induction false} SpentStaysKnown(s: State, es: seq<Event>)
    requires Runs(s, es) && SpentIsKnown(s)
    ensures SpentIsKnown(After(s, es))
    decreases |es|
  {
    if es != [] {
      SpentStaysKnown(Apply(s, es[0]), es[1..]);
    }
  }

  /** After a drop, a reservation under a fresh reading never reuses a nonce our threads broadcast. */
  lemma ReissueIsNeverSpent(s: State, es: seq<Event>, t: Tid)
    requires Initial(s) && Runs(s, es)
    requires After(s, es).cell.None? && t !in After(s, es).holders
    ensures var s' := After(s, es);
            Apply(s', Reserve(t, Pending(s'))).holders[t] !in s'.spent
  {
    SpentStaysKnown(s, es);
  }
}
