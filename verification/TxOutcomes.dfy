/** When an execution broadcasts twice, and what its caller sees. */
module TxOutcomes {
  import opened Prelude
  import opened Strings
  import opened Revert
  import opened TxExecution
  import opened TxProperties
  import opened TxAnswers

  // ----- the unlucky surroundings -----

  /** Attempt `k`, entered at `now`, gets its nonce and its transaction on the wire. */
  predicate GoesOut(x: Executor, o: Oracle, k: nat, now: real) {
    Starts(x, o, k, now) && SendsOut(x, o, k, ReservedTime(o, k, now))
  }

  /** The broadcast of attempt `k`, entered at `now`, if it gets that far. */
  function BroadcastOf(x: Executor, o: Oracle, k: nat, now: real): Event
    requires o.reserve(k).Ok? && o.send(k).Ok?
  {
    Broadcast(o.reserve(k).value, x.call, o.send(k).value, ReadyTime(o, k, ReservedTime(o, k, now)))
  }

  lemma GoesOutBroadcasts(x: Executor, o: Oracle, k: nat, now: real)
    requires GoesOut(x, o, k, now)
    ensures BroadcastOf(x, o, k, now) in Attempt(x, o, k, now).log
  {
    var nonce, reserved := o.reserve(k).value, ReservedTime(o, k, now);
    SendByAnswers(x, o, k, nonce, reserved);
    assert Prepare(x, o, k, reserved).end == ReadyTime(o, k, reserved);
    assert BroadcastOf(x, o, k, now) in Send(x, o, k, nonce, reserved).log;
    assert BroadcastOf(x, o, k, now) in Transact(x, o, k, nonce, reserved).log;
  }

  function Early(x: Executor): real { x.deadline.GetOr(0.0) - 12.0 }

  /**
   Surroundings with the receipt answers of `o` in which attempt `k` is the first to broadcast, under
   `hash`; sends before it fail with `e`, later ones go out under another hash, nonces are numbered
   by attempt, and entering attempt `k + 1` takes `pause`.
   */
  function Unlucky(o: Oracle, k: nat, hash: string, e: Exc, pause: real): Oracle {
    Oracle(None, j => Ok(j), j => None, j => None,
           j => if j < k then Err(e) else Ok(if j == k then hash else hash + "'"),
           o.wait, o.wrap, j => None, (leg: Leg, j) => if leg.Entering? && j == k + 1 then pause else 0.0)
  }

  /** Attempts before `k` are retried within five seconds each, if entered with six to spare for each. */
  ghost predicate Steady(tries: Tries, k: nat, d: real) {
    forall i, t: real | 0 <= i < k && t <= d - 6.0 * (k - i) as real :: SoonRetried(tries(i, t), t)
  }

  predicate SoonRetried(t: Try, now: real) { t.result.Retry? && now <= t.end <= now + 5.0 }

  /** A loop whose attempts before `k` are steadily retried gets to attempt `k`, in time. */
  lemma {:induction false} Reaches(tries: Tries, limit: nat, j: nat, k: nat, now: real, d: real) returns (t: real)
    requires j <= k < limit && Steady(tries, k, d) && now <= d - 6.0 * (k - j) as real
    ensures now <= t <= d
    ensures Loop(tries, limit, j, now).result == Loop(tries, limit, k, t).result
    ensures forall e | e in Loop(tries, limit, k, t).log :: e in Loop(tries, limit, j, now).log
    decreases k - j
  {
    t := now;
    if j < k {
      var next := tries(j, now).end;
      assert SoonRetried(tries(j, now), now);
      assert (k - j) as real == (k - (j + 1)) as real + 1.0;
      t := Reaches(tries, limit, j + 1, k, next, d);
    }
  }

  /** A failure before the broadcast that reads as a collision is retried within five seconds. */
  lemma RejectedRetries(x: Executor, o: Oracle, k: nat, hash: string, e: Exc, pause: real, j: nat, now: real)
    requires j < k && k + 1 < x.maxRetries && TakenForCollision(e) && now <= Early(x)
    ensures SoonRetried(Attempt(x, Unlucky(o, k, hash, e, pause), j, now), now)
  {
    var u := Unlucky(o, k, hash, e, pause);
    assert EntryTime(u, j, now) == now && ReservedTime(u, j, now) == now && ReadyTime(u, j, now) == now;
    assert FailsWith(x, u, j, now, e);
    AttemptEndsExactly(x, u, j, now);
    TransactIsSwift(x, u, j, j, now);
  }

  /** Without slow legs an attempt takes its receipt wait, which is none here, and its pause. */
  lemma TransactIsSwift(x: Executor, o: Oracle, k: nat, nonce: nat, now: real)
    requires forall leg: Leg :: leg.Entering? || o.took(leg, k) == 0.0
    requires o.interrupt(k).None?
    ensures now <= Transact(x, o, k, nonce, now).end <= now + 5.0
  {
    assert o.took(Building, k) == o.took(Signing, k) == o.took(Sending, k) == o.took(Noting, k) == 0.0;
    assert o.took(Waiting, k) == o.took(Wrapping, k) == o.took(Handling, k) == 0.0;
  }

  /** The first broadcast, mistaken for a collision, is retried within five seconds. */
  lemma BroadcastRetries(x: Executor, o: Oracle, k: nat, hash: string, pause: real, now: real)
    requires k + 1 < x.maxRetries && Recollides(o, k, hash) && now <= Early(x)
    ensures var u := Unlucky(o, k, hash, AfterBroadcast(o, k, hash).value, pause);
            GoesOut(x, u, k, now) && SoonRetried(Attempt(x, u, k, now), now)
  {
    var u := Unlucky(o, k, hash, AfterBroadcast(o, k, hash).value, pause);
    assert EntryTime(u, k, now) == now && ReservedTime(u, k, now) == now && ReadyTime(u, k, now) == now;
    assert AfterBroadcast(u, k, hash) == AfterBroadcast(o, k, hash);
    AttemptEndsExactly(x, u, k, now);
    TransactIsSwift(x, u, k, k, now);
  }

  function StartFor(x: Executor, k: nat): real { Early(x) - 6.0 * k as real }

  /** The unlucky surroundings bring the execution past its first broadcast to attempt `k + 1`. */
  lemma UnluckyArrives(x: Executor, o: Oracle, k: nat, hash: string, pause: real) returns (s: real, t: real)
    requires k + 1 < x.maxRetries && Recollides(o, k, hash)
    ensures StartFor(x, k) <= t <= Early(x) + 5.0
    ensures var u := Unlucky(o, k, hash, AfterBroadcast(o, k, hash).value, pause);
            var run, rest := Run(x, u, StartFor(x, k)), Loop(TriesOf(x, u), x.maxRetries, k + 1, t);
            && run.result == rest.result && BroadcastOf(x, u, k, s) in run.log
            && forall e | e in rest.log :: e in run.log
  {
    var e := AfterBroadcast(o, k, hash).value;
    var u := Unlucky(o, k, hash, e, pause);
    var tries := TriesOf(x, u);
    forall i, r: real | 0 <= i < k && r <= Early(x) - 6.0 * (k - i) as real ensures SoonRetried(tries(i, r), r) {
      RejectedRetries(x, o, k, hash, e, pause, i, r);
    }
    assert Connected(u, StartFor(x, k)) == StartFor(x, k);
    s := Reaches(tries, x.maxRetries, 0, k, StartFor(x, k), Early(x));
    BroadcastRetries(x, o, k, hash, pause, s);
    GoesOutBroadcasts(x, u, k, s);
    assert tries(k, s) == Attempt(x, u, k, s);
    t := tries(k, s).end;
  }

  // ----- two broadcasts -----

  /** The two surroundings answer receipt waits alike. */
  ghost predicate SameReceiptAnswers(o: Oracle, o': Oracle) {
    o'.wait == o.wait && o'.wrap == o.wrap
  }

  /** Two different transactions go out: under different nonces, and hashes. */
  predicate SendsTwo(log: seq<Event>) {
    exists e, f | e in log && f in log ::
      e.Broadcast? && f.Broadcast? && e.nonce != f.nonce && e.hash != f.hash
  }

  lemma {:induction false} CountOne(log: seq<Event>, e: Event)
    requires e in log && e.Broadcast?
    ensures Count(Broadcasts, log) >= 1
    decreases |log|
  {
    if e != log[0] {
      assert e in log[1..];
      CountOne(log[1..], e);
    }
  }

  lemma {:induction false} CountTwo(log: seq<Event>, e: Event, f: Event)
    requires e in log && f in log && e.Broadcast? && f.Broadcast? && e != f
    ensures Count(Broadcasts, log) >= 2
    decreases |log|
  {
    if e == log[0] {
      assert f in log[1..];
      CountOne(log[1..], f);
    } else if f == log[0] {
      assert e in log[1..];
      CountOne(log[1..], e);
    } else {
      assert e in log[1..] && f in log[1..];
      CountTwo(log[1..], e, f);
    }
  }

  /** Entered in time, attempt `k + 1` of the unlucky surroundings broadcasts as well. */
  lemma UnluckySendsTwo(x: Executor, o: Oracle, k: nat, hash: string)
    requires k + 1 < x.maxRetries && Recollides(o, k, hash)
    ensures SendsTwo(LogOf(x, Unlucky(o, k, hash, AfterBroadcast(o, k, hash).value, 0.0), StartFor(x, k)))
  {
    var u := Unlucky(o, k, hash, AfterBroadcast(o, k, hash).value, 0.0);
    var s, t := UnluckyArrives(x, o, k, hash, 0.0);
    assert EntryTime(u, k + 1, t) == t && ReservedTime(u, k + 1, t) == t && ReadyTime(u, k + 1, t) == t;
    GoesOutBroadcasts(x, u, k + 1, t);
    var tries := TriesOf(x, u);
    assert BroadcastOf(x, u, k + 1, t) in tries(k + 1, t).log;
    LoopStartsWith(tries, x.maxRetries, k + 1, t, BroadcastOf(x, u, k + 1, t));
  }

  lemma LoopStartsWith(tries: Tries, limit: nat, k: nat, now: real, e: Event)
    requires k < limit && e in tries(k, now).log
    ensures e in Loop(tries, limit, k, now).log
  {
  }

  lemma SameAfterBroadcast(x: Executor, o: Oracle, o': Oracle)
    requires SameReceiptAnswers(o, o') && !SomeRecollides(x, o)
    ensures forall k, hash | 0 <= k < x.maxRetries - 1 :: !Recollides(o', k, hash)
  {
    forall k, hash | 0 <= k < x.maxRetries - 1 ensures !Recollides(o', k, hash) {
      assert !Recollides(o, k, hash) && AfterBroadcast(o', k, hash) == AfterBroadcast(o, k, hash);
    }
  }

  /**
   The receipt answers alone decide whether a double broadcast is possible: some surroundings with
   these answers send two transactions, under different nonces and hashes, exactly when, before the
   last attempt, an error that comes after the broadcast reads like a nonce or gas price collision.
   */
  lemma DoubleBroadcastExactly(x: Executor, o: Oracle)
    ensures (exists o', start :: SameReceiptAnswers(o, o') && SendsTwo(LogOf(x, o', start))) <==> SomeRecollides(x, o)
  {
    if SomeRecollides(x, o) {
      var k, hash :| 0 <= k < x.maxRetries - 1 && Recollides(o, k, hash);
      UnluckySendsTwo(x, o, k, hash);
      assert SameReceiptAnswers(o, Unlucky(o, k, hash, AfterBroadcast(o, k, hash).value, 0.0));
    } else {
      forall o', start | SameReceiptAnswers(o, o') ensures !SendsTwo(LogOf(x, o', start)) {
        SameAfterBroadcast(x, o, o');
        BroadcastsAtMostOnce(x, o', start);
        if e, f :| e in LogOf(x, o', start) && f in LogOf(x, o', start)
                   && e.Broadcast? && f.Broadcast? && e.nonce != f.nonce {
          CountTwo(LogOf(x, o', start), e, f);
        }
      }
    }
  }

  /** Such an error need not come from a collision: "unknown transaction" contains "known transaction". */
  lemma UnknownReadsAsKnown()
    ensures Classify("unknown transaction") == Nonce
    ensures TakenForCollision(Ordinary("unknown transaction"))
  {
    var m, needle := "unknown transaction", NONCE_ERRORS[1];
    assert forall i | 0 <= i < |m| :: LowerChar(m[i]) == m[i];
    assert Lower(m) == m;
    assert m == "un" + needle;
    assert OccursAt(needle, m, 2);
  }

  // ----- budget errors and collision errors -----

  predicate FromNode(e: Exc) { !e.Typed? }

  /** The node and the libraries raise their own exceptions, never the SDK's. */
  ghost predicate NodeErrorsOnly(o: Oracle) {
    && (forall k: nat :: NodeErrorsBefore(o, k))
    && (forall k: nat, hash :: o.wait(k, hash).Err? ==> FromNode(o.wait(k, hash).error))
  }

  predicate NodeErrorsBefore(o: Oracle, k: nat) {
    && (o.build(k).Some? ==> FromNode(o.build(k).value))
    && (o.sign(k).Some? ==> FromNode(o.sign(k).value))
    && (o.send(k).Err? ==> FromNode(o.send(k).error))
    && (o.wrap(k).Some? ==> FromNode(o.wrap(k).value))
  }

  predicate IsBudgetError(v: Verdict) { v.Stop? && v.outcome.Raised? && v.outcome.error.PublishTimeout? }

  predicate IsCollisionError(v: Verdict) {
    v.Stop? && v.outcome.Raised? && (v.outcome.error.NonceError? || v.outcome.error.GasError?)
  }

  lemma {:induction false} ScanIsNeverOurs(reason: string, i: nat, context: string, caller: string)
    requires i <= |KEYS|
    ensures var e := Scan(reason, i, context, caller);
            !e.PublishTimeout? && !e.NonceError? && !e.GasError? && !e.TxReceiptTimeout?
    decreases |KEYS| - i
  {
    if i < |KEYS| {
      ScanIsNeverOurs(reason, i + 1, context, caller);
    }
  }

  lemma DecodedIsNeverOurs(message: string, context: string, caller: string)
    ensures var e := DecodeRevert(message, context, caller);
            !e.PublishTimeout? && !e.NonceError? && !e.GasError? && !e.TxReceiptTimeout?
  {
    LookupIsRedundant(ExtractReason(message), context, caller);
    ScanIsNeverOurs(ExtractReason(message), 0, context, caller);
  }

  /** A budget error never comes from a handler of a node error, a collision error only on the last attempt. */
  lemma RecoverRaises(x: Executor, o: Oracle, k: nat, nonce: nat, exc: Exc, broadcast: bool, now: real)
    requires FromNode(exc)
    ensures var v := Recover(x, o, k, nonce, exc, broadcast, now).result;
            !IsBudgetError(v) && (IsCollisionError(v) ==> k + 1 >= x.maxRetries)
  {
    if exc.ContractLogic? {
      DecodedIsNeverOurs(exc.message, x.context, x.signer);
    }
  }

  /** Before the broadcast: the deadline's own error, or a node error. */
  lemma SendRaises(x: Executor, o: Oracle, k: nat, nonce: nat, now: real)
    requires NodeErrorsOnly(o) && Send(x, o, k, nonce, now).result.Err?
    ensures var sent := Send(x, o, k, nonce, now);
            var v := Recover(x, o, k, nonce, sent.result.error, false, sent.end).result;
            (IsBudgetError(v) ==> x.deadline.Some?) && (IsCollisionError(v) ==> k + 1 >= x.maxRetries)
  {
    assert NodeErrorsBefore(o, k);
    var sent := Send(x, o, k, nonce, now);
    SendByAnswers(x, o, k, nonce, now);
    if FromNode(sent.result.error) {
      RecoverRaises(x, o, k, nonce, sent.result.error, false, sent.end);
    }
  }

  lemma TransactRaises(x: Executor, o: Oracle, k: nat, nonce: nat, now: real)
    requires NodeErrorsOnly(o)
    ensures var t := Transact(x, o, k, nonce, now);
            && (IsBudgetError(t.result) ==> Count(Broadcasts, t.log) == 0 && x.deadline.Some?)
            && (IsCollisionError(t.result) ==> k + 1 >= x.maxRetries)
  {
    var sent := Send(x, o, k, nonce, now);
    SendCounts(Broadcasts, x, o, k, nonce, now);
    if sent.result.Err? {
      var e := sent.result.error;
      RecoverCounts(Broadcasts, x, o, k, nonce, e, false, sent.end);
      CountAppend(Broadcasts, sent.log, Recover(x, o, k, nonce, e, false, sent.end).log);
      SendRaises(x, o, k, nonce, now);
    } else {
      ConfirmRaises(x, o, k, nonce, sent.result.value, sent.end);
    }
  }

  lemma ConfirmRaises(x: Executor, o: Oracle, k: nat, nonce: nat, hash: string, now: real)
    requires NodeErrorsOnly(o)
    ensures var confirmed := Confirm(x, o, k, hash, now);
            confirmed.result.Err? ==>
              var v := Recover(x, o, k, nonce, confirmed.result.error, true, confirmed.end).result;
              !IsBudgetError(v) && (IsCollisionError(v) ==> k + 1 >= x.maxRetries)
  {
    assert NodeErrorsBefore(o, k);
    var confirmed := Confirm(x, o, k, hash, now);
    if confirmed.result.Err? && FromNode(confirmed.result.error) {
      RecoverRaises(x, o, k, nonce, confirmed.result.error, true, confirmed.end);
    }
  }

  lemma AttemptRaises(x: Executor, o: Oracle, k: nat, now: real)
    requires NodeErrorsOnly(o)
    ensures var t := Attempt(x, o, k, now);
            && (IsBudgetError(t.result) ==> Count(Broadcasts, t.log) == 0 && x.deadline.Some?)
            && (IsCollisionError(t.result) ==> k + 1 >= x.maxRetries && Count(Reserves, t.log) >= 1)
  {
    var entry := EntryLog(x, o, k, now);
    CountNothing(Broadcasts, entry);
    if Starts(x, o, k, now) {
      var nonce, reserved := o.reserve(k).value, ReservedTime(o, k, now);
      TransactRaises(x, o, k, nonce, reserved);
      CountSnoc(Broadcasts, entry, Reserved(nonce));
      CountAppend(Broadcasts, entry + [Reserved(nonce)], Transact(x, o, k, nonce, reserved).log);
      CountSnoc(Reserves, entry, Reserved(nonce));
      CountAppend(Reserves, entry + [Reserved(nonce)], Transact(x, o, k, nonce, reserved).log);
    }
  }

  /** An attempt that ends on a budget error has not broadcast, and none is retried after broadcasting. */
  predicate Thrifty(t: Try) {
    IsBudgetError(t.result) || t.result.Retry? ==> Count(Broadcasts, t.log) == 0
  }

  lemma {:induction false} LoopBudgetError(tries: Tries, limit: nat, k: nat, now: real)
    requires k <= limit && IsBudgetError(Stop(Loop(tries, limit, k, now).result))
    requires forall j, t: real | k <= j < limit :: Thrifty(tries(j, t))
    ensures Count(Broadcasts, Loop(tries, limit, k, now).log) == 0
    decreases limit - k
  {
    if k < limit {
      assert Thrifty(tries(k, now));
      if tries(k, now).result.Retry? {
        LoopBudgetError(tries, limit, k + 1, tries(k, now).end);
        CountLoop(Broadcasts, tries, limit, k, now);
      }
    }
  }

  lemma {:induction false} BudgetErrorNeedsDeadline(tries: Tries, limit: nat, k: nat, now: real, deadline: bool)
    requires k <= limit && IsBudgetError(Stop(Loop(tries, limit, k, now).result))
    requires forall j, t: real | k <= j < limit && IsBudgetError(tries(j, t).result) :: deadline
    ensures deadline
    decreases limit - k
  {
    if k < limit && tries(k, now).result.Retry? {
      BudgetErrorNeedsDeadline(tries, limit, k + 1, tries(k, now).end, deadline);
    }
  }

  lemma AttemptThrifty(x: Executor, o: Oracle, k: nat, now: real)
    requires NodeErrorsOnly(o)
    requires k + 1 < x.maxRetries && o.send(k).Ok? ==> !Recollides(o, k, o.send(k).value)
    ensures Thrifty(Attempt(x, o, k, now))
  {
    AttemptRaises(x, o, k, now);
    AttemptCounts(Broadcasts, x, o, k, now);
  }

  /** Without an error mistaken for a collision, a budget error means that nothing was sent. */
  lemma BudgetErrorSentNothing(x: Executor, o: Oracle, start: real)
    requires NodeErrorsOnly(o) && IsBudgetError(Stop(OutcomeOf(x, o, start)))
    requires x.deadline.None?
             || forall k | 0 <= k < x.maxRetries - 1 && o.send(k).Ok? :: !Recollides(o, k, o.send(k).value)
    ensures Count(Broadcasts, LogOf(x, o, start)) == 0
  {
    if o.connect.None? {
      var tries, now := TriesOf(x, o), Connected(o, start);
      forall j, t: real | 0 <= j < x.maxRetries && IsBudgetError(tries(j, t).result) ensures x.deadline.Some? {
        AttemptRaises(x, o, j, t);
      }
      BudgetErrorNeedsDeadline(tries, x.maxRetries, 0, now, x.deadline.Some?);
      forall j, t: real | 0 <= j < x.maxRetries ensures Thrifty(tries(j, t)) {
        AttemptThrifty(x, o, j, t);
      }
      LoopBudgetError(tries, x.maxRetries, 0, now);
    }
  }

  /** Entering the second attempt takes so long that the deadline has passed. */
  lemma UnluckyMissesDeadline(x: Executor, o: Oracle, k: nat, hash: string)
    requires x.deadline.Some? && k + 1 < x.maxRetries && Recollides(o, k, hash)
    ensures var u := Unlucky(o, k, hash, AfterBroadcast(o, k, hash).value, 6.0 * (k + 2) as real);
            && IsBudgetError(Stop(OutcomeOf(x, u, StartFor(x, k))))
            && Count(Broadcasts, LogOf(x, u, StartFor(x, k))) >= 1
  {
    var pause := 6.0 * (k + 2) as real;
    var u := Unlucky(o, k, hash, AfterBroadcast(o, k, hash).value, pause);
    var s, t := UnluckyArrives(x, o, k, hash, pause);
    assert EntryTime(u, k + 1, t) == t + pause;
    assert Late(x, EntryTime(u, k + 1, t));
    var tries := TriesOf(x, u);
    assert tries(k + 1, t).result == Stop(Raised(BudgetSpent(x)));
    CountOne(LogOf(x, u, StartFor(x, k)), BroadcastOf(x, u, k, s));
  }

  lemma UnluckyFromNode(x: Executor, o: Oracle, k: nat, hash: string, pause: real)
    requires NodeErrorsOnly(o) && Recollides(o, k, hash)
    ensures NodeErrorsOnly(Unlucky(o, k, hash, AfterBroadcast(o, k, hash).value, pause))
  {
    var u := Unlucky(o, k, hash, AfterBroadcast(o, k, hash).value, pause);
    forall j: nat ensures NodeErrorsBefore(u, j) {
      assert NodeErrorsBefore(o, j);
    }
  }

  /**
   A budget error is documented to mean that nothing was sent.  Under given receipt answers, some
   surroundings refute that exactly when there is a deadline to miss and, before the last attempt,
   a post-broadcast error that reads like a collision.
   */
  lemma BudgetErrorAfterBroadcastExactly(x: Executor, o: Oracle)
    requires NodeErrorsOnly(o)
    ensures (exists o', start :: SameReceiptAnswers(o, o') && NodeErrorsOnly(o')
                                 && IsBudgetError(Stop(OutcomeOf(x, o', start)))
                                 && Count(Broadcasts, LogOf(x, o', start)) >= 1)
            <==> x.deadline.Some? && SomeRecollides(x, o)
  {
    if x.deadline.Some? && SomeRecollides(x, o) {
      var k, hash :| 0 <= k < x.maxRetries - 1 && Recollides(o, k, hash);
      var pause := 6.0 * (k + 2) as real;
      var u := Unlucky(o, k, hash, AfterBroadcast(o, k, hash).value, pause);
      UnluckyMissesDeadline(x, o, k, hash);
      UnluckyFromNode(x, o, k, hash, pause);
      assert SameReceiptAnswers(o, u);
    } else {
      forall o', start | SameReceiptAnswers(o, o') && NodeErrorsOnly(o') && IsBudgetError(Stop(OutcomeOf(x, o', start)))
        ensures Count(Broadcasts, LogOf(x, o', start)) == 0
      {
        if x.deadline.Some? {
          SameAfterBroadcast(x, o, o');
        }
        BudgetErrorSentNothing(x, o', start);
      }
    }
  }

  /** An attempt that is retried, or ends on a collision error, has reserved; the latter is the last one. */
  predicate Persistent(limit: nat, k: nat, t: Try) {
    && (t.result.Retry? || IsCollisionError(t.result) ==> Count(Reserves, t.log) >= 1)
    && (IsCollisionError(t.result) ==> k + 1 >= limit)
  }

  lemma {:induction false} LoopCollisionError(tries: Tries, limit: nat, k: nat, now: real)
    requires k <= limit && IsCollisionError(Stop(Loop(tries, limit, k, now).result))
    requires forall j: nat, t: real :: Persistent(limit, j, tries(j, t))
    ensures Count(Reserves, Loop(tries, limit, k, now).log) >= limit - k
    decreases limit - k
  {
    if k < limit {
      assert Persistent(limit, k, tries(k, now));
      if tries(k, now).result.Retry? {
        LoopCollisionError(tries, limit, k + 1, tries(k, now).end);
        CountLoop(Reserves, tries, limit, k, now);
      }
    }
  }

  lemma AttemptPersistent(x: Executor, o: Oracle, k: nat, now: real)
    requires NodeErrorsOnly(o)
    ensures Persistent(x.maxRetries, k, Attempt(x, o, k, now))
  {
    AttemptRaises(x, o, k, now);
    AttemptCounts(Reserves, x, o, k, now);
  }

  /** A nonce or gas price error is raised only when every attempt has been used. */
  lemma CollisionErrorsExhaustAttempts(x: Executor, o: Oracle, start: real)
    requires NodeErrorsOnly(o) && IsCollisionError(Stop(OutcomeOf(x, o, start)))
    ensures Count(Reserves, LogOf(x, o, start)) == x.maxRetries
  {
    var tries, now := TriesOf(x, o), Connected(o, start);
    forall j: nat, t: real ensures Persistent(x.maxRetries, j, tries(j, t)) {
      AttemptPersistent(x, o, j, t);
    }
    LoopCollisionError(tries, x.maxRetries, 0, now);
    AttemptsModest(Reserves, x, o);
    LoopReserves(tries, x.maxRetries, 0, now);
  }

  // ----- raw exceptions -----

  /** The time at which attempt `k` is entered, if all before it are retried. */
  function Entered(tries: Tries, start: real, k: nat): real {
    if k == 0 then start else tries(k - 1, Entered(tries, start, k - 1)).end
  }

  /** What an attempt does, as two tests on its number and time of entry tell it. */
  ghost predicate ToldBy(tries: Tries, retried: (nat, real) -> bool, escapes: (nat, real) -> bool) {
    forall j: nat, t: real :: Told(tries(j, t), retried(j, t), escapes(j, t))
  }

  predicate Told(t: Try, retried: bool, escapes: bool) {
    && (t.result.Retry? <==> retried)
    && ((t.result.Stop? && t.result.outcome.Escaped?) <==> escapes)
    && (t.result.Stop? && t.result.outcome.Returned? ==> t.result.outcome.receipt.status == 1)
  }

  /** Attempts before `k` are retried, and attempt `k` escapes. */
  ghost predicate EscapesFirstAt(tries: Tries, retried: (nat, real) -> bool, escapes: (nat, real) -> bool,
                                 start: real, k: nat)
  {
    && escapes(k, Entered(tries, start, k))
    && forall j | 0 <= j < k :: retried(j, Entered(tries, start, j))
  }

  lemma {:induction false} LoopEscapesExactly(tries: Tries, retried: (nat, real) -> bool, escapes: (nat, real) -> bool,
                                              limit: nat, start: real, k: nat)
    requires k <= limit && ToldBy(tries, retried, escapes)
    requires forall j | 0 <= j < k :: retried(j, Entered(tries, start, j))
    ensures var out := Loop(tries, limit, k, Entered(tries, start, k)).result;
            && (out.Escaped? <==> exists n | k <= n < limit :: EscapesFirstAt(tries, retried, escapes, start, n))
            && (out.Returned? ==> out.receipt.status == 1)
    decreases limit - k
  {
    if k < limit {
      var now := Entered(tries, start, k);
      assert Told(tries(k, now), retried(k, now), escapes(k, now));
      if tries(k, now).result.Retry? {
        assert Entered(tries, start, k + 1) == tries(k, now).end;
        LoopEscapesExactly(tries, retried, escapes, limit, start, k + 1);
        assert !EscapesFirstAt(tries, retried, escapes, start, k);
      } else {
        assert forall n | k < n < limit :: !EscapesFirstAt(tries, retried, escapes, start, n);
        assert EscapesFirstAt(tries, retried, escapes, start, k) <==> escapes(k, now);
      }
    }
  }

  /** The answers let attempts before `k` be retried and attempt `k` escape, each at its time of entry. */
  ghost predicate AnswersEscape(x: Executor, o: Oracle, start: real, k: nat) {
    var tries := TriesOf(x, o);
    && Escapes(x, o, k, Entered(tries, Connected(o, start), k))
    && forall j | 0 <= j < k :: Retried(x, o, j, Entered(tries, Connected(o, start), j))
  }

  /**
   An execution ends with a receipt of status 1 or a typed error, and a raw exception escapes exactly
   when the node cannot be reached at the start or the answers lead, retry by retry, to an attempt
   whose reservation fails, whose failure no handler catches, or whose pause is interrupted.
   */
  lemma RawExceptionExactly(x: Executor, o: Oracle, start: real)
    ensures OutcomeOf(x, o, start).Escaped?
            <==> o.connect.Some? || exists k | 0 <= k < x.maxRetries :: AnswersEscape(x, o, start, k)
    ensures OutcomeOf(x, o, start).Returned? ==> OutcomeOf(x, o, start).receipt.status == 1
  {
    if o.connect.None? {
      var tries, now := TriesOf(x, o), Connected(o, start);
      var retried := (k: nat, t: real) => Retried(x, o, k, t);
      var escapes := (k: nat, t: real) => Escapes(x, o, k, t);
      forall j: nat, t: real ensures Told(tries(j, t), retried(j, t), escapes(j, t)) {
        AttemptEndsExactly(x, o, j, t);
      }
      LoopEscapesExactly(tries, retried, escapes, x.maxRetries, now, 0);
      forall k | 0 <= k < x.maxRetries
        ensures AnswersEscape(x, o, start, k) <==> EscapesFirstAt(tries, retried, escapes, now, k)
      {
      }
    }
  }
}
