/** How long an execution takes under a deadline, and by how much exactly it may overrun it. */
module TxBudget {
  import opened Prelude
  import opened Strings
  import opened TxExecution
  import opened TxDeadline

  /** Receipt waits keep to their timeouts, and an interrupt comes before the pause is over. */
  predicate Honoured(log: seq<Event>) {
    forall e | e in log :: (e.Waited? ==> e.took <= e.timeout) && (e.Slept? ==> e.took <= e.seconds as real)
  }

  lemma HonouredParts(a: seq<Event>, b: seq<Event>)
    requires Honoured(a + b)
    ensures Honoured(a) && Honoured(b)
  {
    assert forall e | e in a || e in b :: e in a + b;
  }

  /** The time attempt `k` takes outside its receipt wait and its pause. */
  function AttemptSlack(o: Oracle, k: nat): real {
    o.took(Entering, k) + o.took(Reserving, k) + WorkSlack(o, k)
  }

  function WorkSlack(o: Oracle, k: nat): real {
    o.took(Building, k) + o.took(Signing, k) + o.took(Sending, k)
    + o.took(Noting, k) + o.took(Wrapping, k) + o.took(Handling, k)
  }

  function SlackFrom(o: Oracle, limit: nat, k: nat): real
    requires k <= limit
    decreases limit - k
  {
    if k == limit then 0.0 else AttemptSlack(o, k) + SlackFrom(o, limit, k + 1)
  }

  /** The time an execution takes outside receipt waits and pauses. */
  function Slack(x: Executor, o: Oracle): real { o.took(Connecting, 0) + SlackFrom(o, x.maxRetries, 0) }

  /** The wait that is granted even if nothing is left. */
  function Grace(x: Executor): real { MinReal(x.receiptTimeout, 1.0) }

  /** By how much attempt `k` and later ones may overrun the deadline: one last wait, and one last pause. */
  function OverrunFrom(x: Executor, k: nat): real {
    Grace(x) + if k + 1 < x.maxRetries then UNDERPRICED_BACKOFF as real else 0.0
  }

  // ----- the bound -----

  predicate Bound(x: Executor) { x.deadline.Some? && x.receiptTimeout >= 0.0 }

  lemma WorkForward(o: Oracle, k: nat)
    requires Forward(o)
    ensures AttemptSlack(o, k) >= WorkSlack(o, k) >= 0.0
    ensures o.took(Entering, k) >= 0.0 && o.took(Reserving, k) >= 0.0
    ensures o.took(Building, k) >= 0.0 && o.took(Signing, k) >= 0.0 && o.took(Sending, k) >= 0.0
    ensures o.took(Noting, k) >= 0.0 && o.took(Wrapping, k) >= 0.0 && o.took(Handling, k) >= 0.0
  {
    assert IsForward(o, Entering, k) && IsForward(o, Reserving, k);
    assert IsForward(o, Building, k) && IsForward(o, Signing, k) && IsForward(o, Sending, k);
    assert IsForward(o, Noting, k) && IsForward(o, Wrapping, k) && IsForward(o, Handling, k);
  }

  /** A transaction goes out before the deadline. */
  lemma SendInTime(x: Executor, o: Oracle, k: nat, nonce: nat, now: real)
    requires Forward(o) && x.deadline.Some?
    ensures var sent := Send(x, o, k, nonce, now);
            && sent.end <= now + o.took(Building, k) + o.took(Signing, k) + o.took(Sending, k)
            && (sent.result.Ok? ==> sent.end < x.deadline.value + o.took(Sending, k))
  {
    WorkForward(o, k);
  }

  lemma ConfirmInTime(x: Executor, o: Oracle, k: nat, hash: string, now: real)
    requires Forward(o) && Bound(x) && Honoured(Confirm(x, o, k, hash, now).log)
    ensures Confirm(x, o, k, hash, now).end
            <= MaxReal(x.deadline.value, now + o.took(Noting, k) + Grace(x)) + o.took(Wrapping, k)
  {
    WorkForward(o, k);
    var start := WaitStart(x, o, k, now);
    var wait := Waited(hash, start, WaitCap(x, start), o.took(Waiting, k));
    assert WaitLog(x, o, k, hash, now)[2] == wait;
    assert wait in Confirm(x, o, k, hash, now).log;
  }

  lemma RecoverInTime(x: Executor, o: Oracle, k: nat, nonce: nat, exc: Exc, broadcast: bool, now: real)
    requires Honoured(Recover(x, o, k, nonce, exc, broadcast, now).log)
    ensures Recover(x, o, k, nonce, exc, broadcast, now).end
            <= now + o.took(Handling, k) + if k + 1 < x.maxRetries then UNDERPRICED_BACKOFF as real else 0.0
  {
    var t := Recover(x, o, k, nonce, exc, broadcast, now);
    assert t.log != [] ==> t.log[|t.log| - 1] in t.log;
  }

  lemma TransactInTime(x: Executor, o: Oracle, k: nat, nonce: nat, now: real, late: real)
    requires Forward(o) && Bound(x) && Honoured(Transact(x, o, k, nonce, now).log)
    requires 0.0 <= late && now <= x.deadline.value + late
    ensures Transact(x, o, k, nonce, now).end <= x.deadline.value + OverrunFrom(x, k) + late + WorkSlack(o, k)
  {
    var sent := Send(x, o, k, nonce, now);
    WorkForward(o, k);
    SendInTime(x, o, k, nonce, now);
    if sent.result.Err? {
      HonouredParts(sent.log, Recover(x, o, k, nonce, sent.result.error, false, sent.end).log);
      RecoverInTime(x, o, k, nonce, sent.result.error, false, sent.end);
    } else {
      var confirmed := Confirm(x, o, k, sent.result.value, sent.end);
      if confirmed.result.Err? {
        var recovery := Recover(x, o, k, nonce, confirmed.result.error, true, confirmed.end);
        HonouredParts(sent.log + confirmed.log, recovery.log);
        RecoverInTime(x, o, k, nonce, confirmed.result.error, true, confirmed.end);
      }
      HonouredParts(sent.log, confirmed.log);
      ConfirmInTime(x, o, k, sent.result.value, sent.end);
    }
  }

  /** Entered past the deadline, an attempt does nothing; entered before, it ends within the overrun. */
  predicate Punctual(x: Executor, o: Oracle, k: nat, now: real, t: Try)
    requires x.deadline.Some?
  {
    && (now >= x.deadline.value ==> t.result.Stop? && t.end <= now + AttemptSlack(o, k))
    && (now < x.deadline.value ==> t.end <= x.deadline.value + OverrunFrom(x, k) + AttemptSlack(o, k))
  }

  lemma AttemptInTime(x: Executor, o: Oracle, k: nat, now: real)
    requires Forward(o) && Bound(x) && Honoured(Attempt(x, o, k, now).log)
    ensures Punctual(x, o, k, now, Attempt(x, o, k, now))
  {
    WorkForward(o, k);
    if !Late(x, EntryTime(o, k, now)) && o.reserve(k).Ok? {
      var nonce, reserved := o.reserve(k).value, ReservedTime(o, k, now);
      HonouredParts(EntryLog(x, o, k, now) + [Reserved(nonce)], Transact(x, o, k, nonce, reserved).log);
      TransactInTime(x, o, k, nonce, reserved, o.took(Entering, k) + o.took(Reserving, k));
    }
  }

  lemma {:induction false} SlackForward(o: Oracle, limit: nat, k: nat)
    requires k <= limit && Forward(o)
    ensures SlackFrom(o, limit, k) >= 0.0
    decreases limit - k
  {
    if k < limit {
      WorkForward(o, k);
      SlackForward(o, limit, k + 1);
    }
  }

  /** The latest end of a loop entered at attempt `k` and time `now`. */
  function Latest(x: Executor, o: Oracle, limit: nat, k: nat, now: real): real
    requires k <= limit && x.deadline.Some?
  {
    (if now >= x.deadline.value then now else x.deadline.value + OverrunFrom(x, k)) + SlackFrom(o, limit, k)
  }

  lemma {:induction false} LoopInTime(x: Executor, o: Oracle, tries: Tries, limit: nat, k: nat, now: real)
    requires k <= limit && Forward(o) && Bound(x) && Honoured(Loop(tries, limit, k, now).log)
    requires forall j: nat, t: real | Honoured(tries(j, t).log) :: Punctual(x, o, j, t, tries(j, t))
    ensures Loop(tries, limit, k, now).end <= Latest(x, o, limit, k, now)
    decreases limit - k
  {
    if k < limit {
      var t := tries(k, now);
      WorkForward(o, k);
      SlackForward(o, limit, k + 1);
      if t.result.Stop? {
        assert Punctual(x, o, k, now, t);
      } else {
        HonouredParts(t.log, Loop(tries, limit, k + 1, t.end).log);
        assert Punctual(x, o, k, now, t);
        LoopInTime(x, o, tries, limit, k + 1, t.end);
      }
    }
  }

  /**
   An execution ends within the deadline (or its start, if later), one granted wait of at most a
   second, one pause of at most five if there can be a second attempt, and the time its legs take.
   */
  lemma OverrunBounded(x: Executor, o: Oracle, start: real)
    requires Forward(o) && Bound(x) && x.maxRetries >= 1 && Honoured(LogOf(x, o, start))
    ensures Run(x, o, start).end <= MaxReal(start, x.deadline.value) + OverrunFrom(x, 0) + Slack(x, o)
  {
    assert IsForward(o, Connecting, 0);
    SlackForward(o, x.maxRetries, 0);
    if o.connect.None? {
      var tries := TriesOf(x, o);
      forall j: nat, t: real | Honoured(tries(j, t).log) ensures Punctual(x, o, j, t, tries(j, t)) {
        AttemptInTime(x, o, j, t);
      }
      LoopInTime(x, o, tries, x.maxRetries, 0, Connected(o, start));
    }
  }

  // ----- the bound is exact -----

  predicate IsInstant(o: Oracle, leg: Leg, k: nat) { leg.Waiting? || o.took(leg, k) == 0.0 }

  /** Only receipt waits and pauses take time. */
  ghost predicate Instant(o: Oracle) { Forward(o) && forall leg, k: nat :: IsInstant(o, leg, k) }

  lemma {:induction false} NoSlackFrom(o: Oracle, limit: nat, k: nat)
    requires k <= limit && Instant(o)
    ensures SlackFrom(o, limit, k) == 0.0
    decreases limit - k
  {
    if k < limit {
      assert IsInstant(o, Entering, k) && IsInstant(o, Reserving, k);
      assert IsInstant(o, Building, k) && IsInstant(o, Signing, k) && IsInstant(o, Sending, k);
      assert IsInstant(o, Noting, k) && IsInstant(o, Wrapping, k) && IsInstant(o, Handling, k);
      NoSlackFrom(o, limit, k + 1);
    }
  }

  /** "replacement transaction underpriced" contains no nonce error: it has no 'k', and no 'n' before an 'o'. */
  lemma UnderpricedReadsSo()
    ensures Classify(UNDERPRICED) == Underpriced
  {
    assert forall i | 0 <= i < |UNDERPRICED| :: LowerChar(UNDERPRICED[i]) == UNDERPRICED[i];
    assert Lower(UNDERPRICED) == UNDERPRICED;
    assert UNDERPRICED[0..|UNDERPRICED|] == UNDERPRICED && OccursAt(UNDERPRICED, UNDERPRICED, 0);
    NoNonceWords();
  }

  lemma NoNonceWords()
    ensures forall i | 0 <= i < |NONCE_ERRORS| :: !Contains(UNDERPRICED, NONCE_ERRORS[i])
  {
    assert forall p | 0 <= p < |UNDERPRICED| :: UNDERPRICED[p] != 'k';
    assert forall p | 0 <= p < |UNDERPRICED| - 1 :: UNDERPRICED[p] != 'n' || UNDERPRICED[p + 1] != 'o';
    forall i, p | 0 <= i < |NONCE_ERRORS| && 0 <= p <= |UNDERPRICED|
      ensures !OccursAt(NONCE_ERRORS[i], UNDERPRICED, p)
    {
      if p + |NONCE_ERRORS[i]| <= |UNDERPRICED| {
        var found := UNDERPRICED[p..p + |NONCE_ERRORS[i]|];
        assert found[0] == UNDERPRICED[p] && found[1] == UNDERPRICED[p + 1];
        if i == 2 {
          assert found[8] == UNDERPRICED[p + 8];
        }
      }
    }
  }

  /** Every transaction goes out, and its receipt wait lasts `wait` and then fails as underpriced. */
  function Overrunning(wait: real): Oracle {
    Oracle(None, k => Ok(k), k => None, k => None, k => Ok("tx"),
           (k, hash) => Err(Ordinary(UNDERPRICED)), k => None, k => None,
           (leg: Leg, k) => if leg.Waiting? then wait else 0.0)
  }

  lemma OverrunningInstant(wait: real)
    requires wait >= 0.0
    ensures Instant(Overrunning(wait)) && forall start :: Connected(Overrunning(wait), start) == start
  {
    var o := Overrunning(wait);
    assert forall leg, k: nat :: IsForward(o, leg, k) && IsInstant(o, leg, k);
  }

  lemma TransactOverruns(x: Executor, now: real)
    requires Bound(x) && x.deadline.value - 1.0 <= now < x.deadline.value
    ensures var t := Transact(x, Overrunning(Grace(x)), 0, 0, now);
            && t.end == now + OverrunFrom(x, 0) && Honoured(t.log)
            && (if x.maxRetries >= 2 then t.result.Retry? else t.result.Stop?)
  {
    UnderpricedReadsSo();
    var o := Overrunning(Grace(x));
    var sent, confirmed := Send(x, o, 0, 0, now), Confirm(x, o, 0, "tx", now);
    assert Prepare(x, o, 0, now).result.None?;
    assert sent.result == Ok("tx") && sent.end == now && Honoured(sent.log);
    assert confirmed.result == Err(Ordinary(UNDERPRICED)) && confirmed.end == now + Grace(x) && Honoured(confirmed.log);
  }

  lemma FirstAttemptOverruns(x: Executor, now: real) returns (t: Try)
    requires Bound(x) && x.deadline.value - 1.0 <= now < x.deadline.value
    ensures t == Attempt(x, Overrunning(Grace(x)), 0, now) && t.end == now + OverrunFrom(x, 0) && Honoured(t.log)
    ensures if x.maxRetries >= 2 then t.result.Retry? else t.result.Stop?
  {
    var o := Overrunning(Grace(x));
    assert EntryTime(o, 0, now) == now && ReservedTime(o, 0, now) == now;
    TransactOverruns(x, now);
    t := Attempt(x, o, 0, now);
  }

  /** Entered past the deadline, the loop ends in its deadline check. */
  lemma LoopStopsLate(x: Executor, o: Oracle, k: nat, now: real)
    requires k < x.maxRetries && Late(x, EntryTime(o, k, now))
    ensures Loop(TriesOf(x, o), x.maxRetries, k, now)
            == Stage([Clock(EntryTime(o, k, now))], Raised(BudgetSpent(x)), EntryTime(o, k, now))
  {
    var late := EntryTime(o, k, now);
    assert TriesOf(x, o)(k, now) == Stage([Clock(late)], Stop(Raised(BudgetSpent(x))), late);
  }

  lemma LoopStarts(tries: Tries, limit: nat, now: real, first: Try)
    requires limit >= 1 && tries(0, now) == first
    ensures Loop(tries, limit, 0, now)
            == match first.result
               case Stop(outcome) => Stage(first.log, outcome, first.end)
               case Retry => Resumed(first.log, Loop(tries, limit, 1, first.end))
  {
  }

  /** A first attempt that is retried past the deadline is all there is, that check apart. */
  lemma RetriedLate(x: Executor, o: Oracle, start: real, first: Try)
    requires o.connect.None? && x.maxRetries >= 2 && first == Attempt(x, o, 0, Connected(o, start))
    requires first.result.Retry? && Late(x, EntryTime(o, 1, first.end))
    ensures var late := EntryTime(o, 1, first.end);
            Run(x, o, start) == Stage(first.log + [Clock(late)], Raised(BudgetSpent(x)), late)
  {
    LoopStarts(TriesOf(x, o), x.maxRetries, Connected(o, start), first);
    LoopStopsLate(x, o, 1, first.end);
  }

  /** With a second attempt to come the overrun ends in its deadline check. */
  lemma OverrunRuns(x: Executor, start: real)
    requires Bound(x) && x.maxRetries >= 1 && x.deadline.value - 1.0 <= start < x.deadline.value
    ensures var o := Overrunning(Grace(x));
            && Instant(o) && Honoured(LogOf(x, o, start))
            && Run(x, o, start).end == start + OverrunFrom(x, 0)
  {
    var o := Overrunning(Grace(x));
    OverrunningInstant(Grace(x));
    var first := FirstAttemptOverruns(x, start);
    if x.maxRetries >= 2 {
      RetriedLate(x, o, start, first);
    } else {
      LoopStarts(TriesOf(x, o), x.maxRetries, start, first);
    }
  }

  /** Started in time and with instant legs, every execution ends by `overrun` past the deadline. */
  ghost predicate StaysWithin(x: Executor, overrun: real)
    requires x.deadline.Some?
  {
    forall o, start | start <= x.deadline.value && Instant(o) && Honoured(LogOf(x, o, start)) ::
      Run(x, o, start).end <= x.deadline.value + overrun
  }

  /**
   The call is documented to end within the budget.  The least overrun that bounds every execution
   is the granted wait plus, if there can be a second attempt, the five second pause.
   */
  lemma OverrunExactly(x: Executor, overrun: real)
    requires Bound(x) && x.maxRetries >= 1
    ensures StaysWithin(x, overrun) <==> overrun >= OverrunFrom(x, 0)
  {
    if overrun >= OverrunFrom(x, 0) {
      forall o, start | start <= x.deadline.value && Instant(o) && Honoured(LogOf(x, o, start))
        ensures Run(x, o, start).end <= x.deadline.value + overrun
      {
        assert IsInstant(o, Connecting, 0);
        NoSlackFrom(o, x.maxRetries, 0);
        OverrunBounded(x, o, start);
      }
    } else {
      var early := MinReal(1.0, (OverrunFrom(x, 0) - overrun) / 2.0);
      var o, start := Overrunning(Grace(x)), x.deadline.value - early;
      OverrunRuns(x, start);
      assert Run(x, o, start).end > x.deadline.value + overrun;
    }
  }

  // ----- which pauses and waits stay inside -----

  predicate Timed(e: Event) { e.Waited? || e.Slept? }

  /** When a pause or a wait is over, and when it is over at the latest. */
  function Finish(e: Event): real
    requires Timed(e)
  {
    e.start + e.took
  }

  function PlannedFinish(e: Event): real
    requires Timed(e)
  {
    e.start + if e.Waited? then e.timeout else e.seconds as real
  }

  /**
   A receipt wait begun at `t` is planned to stay inside the budget exactly when a second is left or
   the receipt timeout fits; a pause begun at `t` exactly when its five seconds, or its one, fit.
   */
  lemma PlansKeepBudgetExactly(x: Executor, o: Oracle, start: real, j: nat)
    requires x.deadline.Some? && j < |LogOf(x, o, start)| && Timed(LogOf(x, o, start)[j])
    ensures var e, d := LogOf(x, o, start)[j], x.deadline.value;
            PlannedFinish(e) <= d
            <==> if e.Waited? then e.start + 1.0 <= d || e.start + x.receiptTimeout <= d
                 else e.start + (if e.seconds == 5 then 5.0 else 1.0) <= d
  {
    ExecutionDisciplined(x, o, start);
    assert LogOf(x, o, start)[j] in LogOf(x, o, start);
  }

  /** A stage that ends where its last pause or wait does, or where it started. */
  ghost predicate Spans(now: real, log: seq<Event>, end: real) {
    && now <= end
    && (forall e | e in log && Timed(e) :: Finish(e) <= end)
    && (end == now || exists e | e in log :: Timed(e) && Finish(e) == end)
  }

  lemma SpansAppends(now: real, a: seq<Event>, middle: real, b: seq<Event>, end: real)
    requires Spans(now, a, middle) && Spans(middle, b, end)
    ensures Spans(now, a + b, end)
  {
    if end == middle && middle != now {
      var e :| e in a && Timed(e) && Finish(e) == middle;
      assert e in a + b;
    } else if end != middle {
      var e :| e in b && Timed(e) && Finish(e) == end;
      assert e in a + b;
    }
  }

  lemma InstantLegs(o: Oracle, k: nat)
    requires Instant(o)
    ensures o.took(Entering, k) == o.took(Reserving, k) == o.took(Building, k) == o.took(Signing, k) == 0.0
    ensures o.took(Sending, k) == o.took(Noting, k) == o.took(Wrapping, k) == o.took(Handling, k) == 0.0
    ensures o.took(Waiting, k) >= 0.0
  {
    assert IsInstant(o, Entering, k) && IsInstant(o, Reserving, k);
    assert IsInstant(o, Building, k) && IsInstant(o, Signing, k) && IsInstant(o, Sending, k);
    assert IsInstant(o, Noting, k) && IsInstant(o, Wrapping, k) && IsInstant(o, Handling, k);
    assert IsForward(o, Waiting, k);
  }

  lemma SendSpans(x: Executor, o: Oracle, k: nat, nonce: nat, now: real)
    requires Instant(o)
    ensures Spans(now, Send(x, o, k, nonce, now).log, Send(x, o, k, nonce, now).end)
  {
    InstantLegs(o, k);
  }

  lemma ConfirmSpans(x: Executor, o: Oracle, k: nat, hash: string, now: real)
    requires Instant(o)
    ensures Spans(now, Confirm(x, o, k, hash, now).log, Confirm(x, o, k, hash, now).end)
  {
    InstantLegs(o, k);
    var start, log := WaitStart(x, o, k, now), WaitLog(x, o, k, hash, now);
    var wait := log[|log| - 1];
    assert wait in Confirm(x, o, k, hash, now).log && Finish(wait) == start + o.took(Waiting, k);
  }

  lemma RecoverSpans(x: Executor, o: Oracle, k: nat, nonce: nat, exc: Exc, broadcast: bool, now: real)
    requires Instant(o)
    ensures var t := Recover(x, o, k, nonce, exc, broadcast, now); Spans(now, t.log, t.end)
  {
    InstantLegs(o, k);
    assert IsForward(o, Handling, k);
    var t := Recover(x, o, k, nonce, exc, broadcast, now);
    assert t.log != [] ==> t.log[|t.log| - 1] in t.log;
  }

  lemma TransactSpans(x: Executor, o: Oracle, k: nat, nonce: nat, now: real)
    requires Instant(o)
    ensures Spans(now, Transact(x, o, k, nonce, now).log, Transact(x, o, k, nonce, now).end)
  {
    var sent := Send(x, o, k, nonce, now);
    SendSpans(x, o, k, nonce, now);
    if sent.result.Err? {
      var recovery := Recover(x, o, k, nonce, sent.result.error, false, sent.end);
      RecoverSpans(x, o, k, nonce, sent.result.error, false, sent.end);
      SpansAppends(now, sent.log, sent.end, recovery.log, recovery.end);
    } else {
      var confirmed := Confirm(x, o, k, sent.result.value, sent.end);
      ConfirmSpans(x, o, k, sent.result.value, sent.end);
      SpansAppends(now, sent.log, sent.end, confirmed.log, confirmed.end);
      if confirmed.result.Err? {
        var recovery := Recover(x, o, k, nonce, confirmed.result.error, true, confirmed.end);
        RecoverSpans(x, o, k, nonce, confirmed.result.error, true, confirmed.end);
        SpansAppends(now, sent.log + confirmed.log, confirmed.end, recovery.log, recovery.end);
      }
    }
  }

  lemma AttemptSpans(x: Executor, o: Oracle, k: nat, now: real)
    requires Instant(o)
    ensures Spans(now, Attempt(x, o, k, now).log, Attempt(x, o, k, now).end)
  {
    InstantLegs(o, k);
    if !Late(x, EntryTime(o, k, now)) && o.reserve(k).Ok? {
      var nonce, reserved := o.reserve(k).value, ReservedTime(o, k, now);
      var entry, rest := EntryLog(x, o, k, now) + [Reserved(nonce)], Transact(x, o, k, nonce, reserved);
      TransactSpans(x, o, k, nonce, reserved);
      assert Spans(now, entry, reserved);
      SpansAppends(now, entry, reserved, rest.log, rest.end);
    }
  }

  lemma {:induction false} LoopSpans(tries: Tries, limit: nat, k: nat, now: real)
    requires k <= limit && forall j: nat, t: real :: Spans(t, tries(j, t).log, tries(j, t).end)
    ensures Spans(now, Loop(tries, limit, k, now).log, Loop(tries, limit, k, now).end)
    decreases limit - k
  {
    if k < limit {
      var t := tries(k, now);
      assert Spans(now, t.log, t.end);
      if t.result.Retry? {
        var rest := Loop(tries, limit, k + 1, t.end);
        LoopSpans(tries, limit, k + 1, t.end);
        SpansAppends(now, t.log, t.end, rest.log, rest.end);
      }
    }
  }

  /** With instant legs, an execution ends inside the budget exactly when all its pauses and waits do. */
  lemma InsideExactly(x: Executor, o: Oracle, start: real)
    requires x.deadline.Some? && start <= x.deadline.value && Instant(o)
    ensures Run(x, o, start).end <= x.deadline.value
            <==> forall e | e in LogOf(x, o, start) && Timed(e) :: Finish(e) <= x.deadline.value
  {
    assert IsInstant(o, Connecting, 0);
    if o.connect.None? {
      forall j: nat, t: real ensures Spans(t, TriesOf(x, o)(j, t).log, TriesOf(x, o)(j, t).end) {
        AttemptSpans(x, o, j, t);
      }
      LoopSpans(TriesOf(x, o), x.maxRetries, 0, Connected(o, start));
    }
  }

  // ----- a pause that overruns without any wait -----

  /** Every send fails as underpriced, at once. */
  function Rejecting(): Oracle {
    Oracle(None, k => Ok(k), k => None, k => None, k => Err(Ordinary(UNDERPRICED)),
           (k, hash) => Err(Ordinary(UNDERPRICED)), k => None, k => None, (leg: Leg, k) => 0.0)
  }

  /** What attempt 0 does, at `t`, when its send is rejected. */
  function RejectedLog(t: real): seq<Event> {
    [Clock(t), Reserved(0), Clock(t), Built, Signed, Clock(t), SendFailed(0), Released(0), CacheReset, Slept(t, 5, 5.0)]
  }

  lemma RejectedAttempt(x: Executor, t: real)
    requires x.deadline.Some? && t < x.deadline.value && x.maxRetries >= 2
    ensures Attempt(x, Rejecting(), 0, t) == Stage(RejectedLog(t), Retry, t + 5.0)
  {
    UnderpricedReadsSo();
    var o := Rejecting();
    assert Prepare(x, o, 0, t) == Stage([Clock(t), Built, Signed, Clock(t)], None, t);
    assert Send(x, o, 0, 0, t)
        == Stage([Clock(t), Built, Signed, Clock(t), SendFailed(0), Released(0)], Err(Ordinary(UNDERPRICED)), t);
    assert Recover(x, o, 0, 0, Ordinary(UNDERPRICED), false, t)
        == Stage([CacheReset, Slept(t, 5, 5.0)], Retry, t + 5.0);
  }

  /**
   A concrete run without any receipt wait: a send rejected one second before the deadline, the
   pause, which ignores it, and the budget error four seconds past it.
   */
  lemma PauseOverrunsAlone(x: Executor)
    requires x.deadline.Some? && x.maxRetries >= 2
    ensures var d := x.deadline.value;
            Run(x, Rejecting(), d - 1.0)
            == Stage(RejectedLog(d - 1.0) + [Clock(d + 4.0)], Raised(BudgetSpent(x)), d + 4.0)
  {
    var o, d := Rejecting(), x.deadline.value;
    RejectedAttempt(x, d - 1.0);
    assert Connected(o, d - 1.0) == d - 1.0;
    RetriedLate(x, o, d - 1.0, Stage(RejectedLog(d - 1.0), Retry, d + 4.0));
  }
}
