/** How often an execution retries and broadcasts, and how late its last broadcast may be. */
module TxRetries {
  import opened Prelude
  import opened Strings
  import opened TxExecution
  import opened TxProperties
  import opened TxAnswers
  import opened TxOutcomes
  import opened TxDeadline
  import opened TxBudget

  // ----- which runs broadcast twice -----

  lemma AttemptBroadcasts(x: Executor, o: Oracle, k: nat, now: real)
    ensures Count(Broadcasts, Attempt(x, o, k, now).log) == if GoesOut(x, o, k, now) then 1 else 0
  {
    var entry := EntryLog(x, o, k, now);
    CountNothing(Broadcasts, entry);
    if Starts(x, o, k, now) {
      var nonce, reserved := o.reserve(k).value, ReservedTime(o, k, now);
      CountSnoc(Broadcasts, entry, Reserved(nonce));
      TransactBroadcasts(x, o, k, nonce, reserved);
      CountAppend(Broadcasts, entry + [Reserved(nonce)], Transact(x, o, k, nonce, reserved).log);
    }
  }

  lemma TransactBroadcasts(x: Executor, o: Oracle, k: nat, nonce: nat, reserved: real)
    ensures Count(Broadcasts, Transact(x, o, k, nonce, reserved).log) == if SendsOut(x, o, k, reserved) then 1 else 0
  {
    var sent := Send(x, o, k, nonce, reserved);
    SendByAnswers(x, o, k, nonce, reserved);
    SendCounts(Broadcasts, x, o, k, nonce, reserved);
    if sent.result.Err? {
      RecoverCounts(Broadcasts, x, o, k, nonce, sent.result.error, false, sent.end);
      CountAppend(Broadcasts, sent.log, Recover(x, o, k, nonce, sent.result.error, false, sent.end).log);
    } else {
      var confirmed := Confirm(x, o, k, sent.result.value, sent.end);
      CountNothing(Broadcasts, confirmed.log);
      CountAppend(Broadcasts, sent.log, confirmed.log);
      if confirmed.result.Err? {
        RecoverCounts(Broadcasts, x, o, k, nonce, confirmed.result.error, true, confirmed.end);
        CountAppend(Broadcasts, sent.log + confirmed.log,
                    Recover(x, o, k, nonce, confirmed.result.error, true, confirmed.end).log);
      }
    }
  }

  /** What an attempt does, as two tests on its number and time of entry tell it. */
  predicate Shows(t: Try, retried: bool, sends: bool) {
    (t.result.Retry? <==> retried) && Count(Broadcasts, t.log) == if sends then 1 else 0
  }

  /** Attempts before `k` are retried, and attempt `k` sends. */
  ghost predicate SendsAt(tries: Tries, retried: (nat, real) -> bool, sends: (nat, real) -> bool, start: real, k: nat) {
    sends(k, Entered(tries, start, k)) && forall j | 0 <= j < k :: retried(j, Entered(tries, start, j))
  }

  /** The loop, entered at attempt `k` after retries only, sends at all exactly when some attempt does. */
  lemma {:induction false} LoopSendsExactly(tries: Tries, retried: (nat, real) -> bool, sends: (nat, real) -> bool,
                                            limit: nat, start: real, k: nat)
    requires k <= limit && forall j: nat, t: real :: Shows(tries(j, t), retried(j, t), sends(j, t))
    requires forall j | 0 <= j < k :: retried(j, Entered(tries, start, j))
    ensures Count(Broadcasts, Loop(tries, limit, k, Entered(tries, start, k)).log) >= 1
            <==> exists n | k <= n < limit :: SendsAt(tries, retried, sends, start, n)
    decreases limit - k
  {
    if k < limit {
      var now := Entered(tries, start, k);
      assert Shows(tries(k, now), retried(k, now), sends(k, now));
      if tries(k, now).result.Retry? {
        assert Entered(tries, start, k + 1) == tries(k, now).end;
        CountLoop(Broadcasts, tries, limit, k, now);
        LoopSendsExactly(tries, retried, sends, limit, start, k + 1);
        assert SendsAt(tries, retried, sends, start, k) <==> sends(k, now);
      } else {
        assert forall n | k < n < limit :: !SendsAt(tries, retried, sends, start, n);
        assert SendsAt(tries, retried, sends, start, k) <==> sends(k, now);
      }
    }
  }

  /** Some attempt after `i` sends as well. */
  ghost predicate SendsAfter(tries: Tries, retried: (nat, real) -> bool, sends: (nat, real) -> bool,
                             limit: nat, start: real, i: nat)
  {
    exists j | i < j < limit :: SendsAt(tries, retried, sends, start, j)
  }

  ghost predicate SendsTwiceFrom(tries: Tries, retried: (nat, real) -> bool, sends: (nat, real) -> bool,
                                 limit: nat, start: real, k: nat)
  {
    exists i | k <= i < limit ::
      SendsAt(tries, retried, sends, start, i) && SendsAfter(tries, retried, sends, limit, start, i)
  }

  /** Sending twice from `k` on is sending at `k` and later, or twice later. */
  lemma TwiceFromNext(tries: Tries, retried: (nat, real) -> bool, sends: (nat, real) -> bool,
                      limit: nat, start: real, k: nat)
    requires k < limit
    ensures SendsTwiceFrom(tries, retried, sends, limit, start, k)
            <==> SendsTwiceFrom(tries, retried, sends, limit, start, k + 1)
                 || (SendsAt(tries, retried, sends, start, k) && SendsAfter(tries, retried, sends, limit, start, k))
  {
    if SendsTwiceFrom(tries, retried, sends, limit, start, k) {
      var i :| k <= i < limit && SendsAt(tries, retried, sends, start, i)
               && SendsAfter(tries, retried, sends, limit, start, i);
      assert i == k || k + 1 <= i;
    }
  }

  lemma LaterSendsTwice(tries: Tries, retried: (nat, real) -> bool, sends: (nat, real) -> bool,
                        limit: nat, start: real, k: nat)
    requires SendsTwiceFrom(tries, retried, sends, limit, start, k + 1)
    ensures SendsAfter(tries, retried, sends, limit, start, k)
  {
    var i :| k + 1 <= i < limit && SendsAt(tries, retried, sends, start, i);
  }

  /** Nothing is sent after an attempt that is not retried. */
  lemma NothingAfterStop(tries: Tries, retried: (nat, real) -> bool, sends: (nat, real) -> bool,
                         limit: nat, start: real, k: nat)
    requires k < limit && !retried(k, Entered(tries, start, k))
    ensures !SendsAfter(tries, retried, sends, limit, start, k)
  {
    assert forall n | k < n < limit :: !SendsAt(tries, retried, sends, start, n);
  }

  /** After a retried attempt the rest of the loop sends exactly when a later attempt does. */
  lemma RestSendsExactly(tries: Tries, retried: (nat, real) -> bool, sends: (nat, real) -> bool,
                         limit: nat, start: real, k: nat)
    requires k < limit && forall j: nat, t: real :: Shows(tries(j, t), retried(j, t), sends(j, t))
    requires forall j | 0 <= j <= k :: retried(j, Entered(tries, start, j))
    ensures Count(Broadcasts, Loop(tries, limit, k + 1, Entered(tries, start, k + 1)).log) >= 1
            <==> SendsAfter(tries, retried, sends, limit, start, k)
  {
    LoopSendsExactly(tries, retried, sends, limit, start, k + 1);
  }

  lemma {:induction false} LoopSendsTwiceExactly(tries: Tries, retried: (nat, real) -> bool, sends: (nat, real) -> bool,
                                                 limit: nat, start: real, k: nat)
    requires k <= limit && forall j: nat, t: real :: Shows(tries(j, t), retried(j, t), sends(j, t))
    requires forall j | 0 <= j < k :: retried(j, Entered(tries, start, j))
    ensures Count(Broadcasts, Loop(tries, limit, k, Entered(tries, start, k)).log) >= 2
            <==> SendsTwiceFrom(tries, retried, sends, limit, start, k)
    decreases limit - k
  {
    if k == limit {
      return;
    }
    var now := Entered(tries, start, k);
    assert Shows(tries(k, now), retried(k, now), sends(k, now));
    TwiceFromNext(tries, retried, sends, limit, start, k);
    if SendsTwiceFrom(tries, retried, sends, limit, start, k + 1) {
      LaterSendsTwice(tries, retried, sends, limit, start, k);
    }
    if tries(k, now).result.Retry? {
      CountLoop(Broadcasts, tries, limit, k, now);
      RestSendsExactly(tries, retried, sends, limit, start, k);
      LoopSendsTwiceExactly(tries, retried, sends, limit, start, k + 1);
    } else {
      NothingAfterStop(tries, retried, sends, limit, start, k);
    }
  }

  /** The answers lead, retry by retry, to attempt `k`, and it puts its transaction on the wire. */
  ghost predicate AnswersSend(x: Executor, o: Oracle, start: real, k: nat) {
    var tries := TriesOf(x, o);
    && GoesOut(x, o, k, Entered(tries, Connected(o, start), k))
    && forall j | 0 <= j < k :: Retried(x, o, j, Entered(tries, Connected(o, start), j))
  }

  /** An execution broadcasts more than once exactly when its own answers lead two of its attempts to send. */
  lemma BroadcastsTwiceExactly(x: Executor, o: Oracle, start: real)
    ensures Count(Broadcasts, LogOf(x, o, start)) >= 2 <==> o.connect.None? && AnswersSendTwice(x, o, start)
  {
    if o.connect.None? {
      var tries, now := TriesOf(x, o), Connected(o, start);
      var retried := (k: nat, t: real) => Retried(x, o, k, t);
      var sends := (k: nat, t: real) => GoesOut(x, o, k, t);
      forall j: nat, t: real ensures Shows(tries(j, t), retried(j, t), sends(j, t)) {
        AttemptEndsExactly(x, o, j, t);
        AttemptBroadcasts(x, o, j, t);
      }
      LoopSendsTwiceExactly(tries, retried, sends, x.maxRetries, now, 0);
      AnswersTellSends(x, o, start, retried, sends);
    }
  }

  ghost predicate AnswersSendTwice(x: Executor, o: Oracle, start: real) {
    exists i, j | 0 <= i < j < x.maxRetries :: AnswersSend(x, o, start, i) && AnswersSend(x, o, start, j)
  }

  lemma AnswersTellSends(x: Executor, o: Oracle, start: real, retried: (nat, real) -> bool, sends: (nat, real) -> bool)
    requires forall k: nat, t: real :: retried(k, t) == Retried(x, o, k, t) && sends(k, t) == GoesOut(x, o, k, t)
    ensures SendsTwiceFrom(TriesOf(x, o), retried, sends, x.maxRetries, Connected(o, start), 0)
            <==> AnswersSendTwice(x, o, start)
  {
    var tries, now := TriesOf(x, o), Connected(o, start);
    assert forall k: nat :: AnswersSend(x, o, start, k) <==> SendsAt(tries, retried, sends, now, k);
    if SendsTwiceFrom(tries, retried, sends, x.maxRetries, now, 0) {
      var i :| 0 <= i < x.maxRetries && SendsAt(tries, retried, sends, now, i)
               && SendsAfter(tries, retried, sends, x.maxRetries, now, i);
      var j :| i < j < x.maxRetries && SendsAt(tries, retried, sends, now, j);
      assert AnswersSend(x, o, start, i) && AnswersSend(x, o, start, j);
    }
    if AnswersSendTwice(x, o, start) {
      var i, j :| 0 <= i < j < x.maxRetries && AnswersSend(x, o, start, i) && AnswersSend(x, o, start, j);
      assert SendsAt(tries, retried, sends, now, i) && SendsAt(tries, retried, sends, now, j);
    }
  }

  // ----- how often a transport error is retried -----

  const RESET := "connection reset"

  /** "connection reset" has no 'l' and no 'a', and is too short for the other messages tested before it. */
  lemma ResetReadsSo()
    ensures Classify(RESET) == Transient
  {
    assert forall i | 0 <= i < |RESET| :: LowerChar(RESET[i]) == RESET[i];
    assert Lower(RESET) == RESET;
    assert TRANSIENT_ERRORS[2] == RESET && RESET[0..|RESET|] == RESET && OccursAt(RESET, RESET, 0);
    assert Contains(Lower(RESET), TRANSIENT_ERRORS[2]);
    ResetIsNoNonceError();
    assert |UNDERPRICED| > |RESET|;
  }

  lemma ResetIsNoNonceError()
    ensures forall i | 0 <= i < |NONCE_ERRORS| :: !Contains(RESET, NONCE_ERRORS[i])
  {
    assert forall p | 0 <= p < |RESET| :: RESET[p] != 'l' && RESET[p] != 'a';
    forall i, p | 0 <= i < |NONCE_ERRORS| && 0 <= p <= |RESET| ensures !OccursAt(NONCE_ERRORS[i], RESET, p) {
      if p + |NONCE_ERRORS[i]| <= |RESET| {
        var found := RESET[p..p + |NONCE_ERRORS[i]|];
        assert found[0] == RESET[p] && found[10] == RESET[p + 10];
      }
    }
  }

  /** Every send fails at once because the connection is reset. */
  function Resetting(): Oracle {
    Oracle(None, k => Ok(k), k => None, k => None, k => Err(Ordinary(RESET)),
           (k, hash) => Err(Ordinary(RESET)), k => None, k => None, (leg: Leg, k) => 0.0)
  }

  lemma ResetTransacts(x: Executor, k: nat, now: real)
    requires !Late(x, now)
    ensures var t := Transact(x, Resetting(), k, k, now);
            if k + 1 < x.maxRetries then t.result.Retry? && t.end == now + 1.0 && Count(Blips, t.log) == 1
            else t.result.Stop? && Count(Blips, t.log) == 0
  {
    ResetReadsSo();
    var o := Resetting();
    var sent, recovery := Send(x, o, k, k, now), Recover(x, o, k, k, Ordinary(RESET), false, now);
    assert Prepare(x, o, k, now).result.None? && Prepare(x, o, k, now).end == now;
    assert sent.result == Err(Ordinary(RESET)) && sent.end == now;
    SendCounts(Blips, x, o, k, k, now);
    OnePause(Blips, Pause(o, k, TRANSIENT_BACKOFF, now).log[0]);
    CountAppend(Blips, sent.log, recovery.log);
  }

  lemma ResetAttempt(x: Executor, k: nat, now: real)
    requires !Late(x, now)
    ensures var t := Attempt(x, Resetting(), k, now);
            if k + 1 < x.maxRetries then t.result.Retry? && t.end == now + 1.0 && Count(Blips, t.log) == 1
            else t.result.Stop? && Count(Blips, t.log) == 0
  {
    var o := Resetting();
    var entry := EntryLog(x, o, k, now) + [Reserved(k)];
    assert EntryTime(o, k, now) == now && ReservedTime(o, k, now) == now;
    ResetTransacts(x, k, now);
    CountNothing(Blips, entry);
    CountAppend(Blips, entry, Transact(x, o, k, k, now).log);
  }

  /** An attempt of a loop of `limit` that blips and is retried, the last one apart. */
  predicate BlipsOnce(limit: nat, k: nat, now: real, t: Try) {
    if k + 1 < limit then t.result.Retry? && t.end == now + 1.0 && Count(Blips, t.log) == 1
    else t.result.Stop? && Count(Blips, t.log) == 0
  }

  lemma {:induction false} LoopBlipsAlways(tries: Tries, limit: nat, k: nat, now: real, d: real)
    requires k < limit && now + limit as real < d + k as real
    requires forall j: nat, t: real | t < d :: BlipsOnce(limit, j, t, tries(j, t))
    ensures Count(Blips, Loop(tries, limit, k, now).log) == limit - k - 1
    decreases limit - k
  {
    assert BlipsOnce(limit, k, now, tries(k, now));
    if k + 1 < limit {
      LoopBlipsAlways(tries, limit, k + 1, now + 1.0, d);
      CountLoop(Blips, tries, limit, k, now);
    }
  }

  /** Early enough for one attempt a second. */
  function InGoodTime(x: Executor): real { x.deadline.GetOr(0.0) - x.maxRetries as real - 1.0 }

  /** With the connection always reset, every attempt but the last is retried. */
  lemma ResetRetriesAlways(x: Executor)
    requires x.maxRetries >= 1
    ensures Count(Blips, LogOf(x, Resetting(), InGoodTime(x))) == x.maxRetries - 1
  {
    var o, tries, d := Resetting(), TriesOf(x, Resetting()), x.deadline.GetOr(0.0);
    assert Connected(o, InGoodTime(x)) == InGoodTime(x);
    forall j: nat, t: real | t < d ensures BlipsOnce(x.maxRetries, j, t, tries(j, t)) {
      ResetAttempt(x, j, t);
    }
    LoopBlipsAlways(tries, x.maxRetries, 0, InGoodTime(x), d);
  }

  /** No execution retries after a transport error more than `n` times. */
  ghost predicate RetriesTransientAtMost(x: Executor, n: int) {
    forall o, start :: Count(Blips, LogOf(x, o, start)) <= n
  }

  /** Transport errors are retried up to the last attempt but one, deadline or not. */
  lemma TransientRetriesExactly(x: Executor, n: int)
    requires x.maxRetries >= 1
    ensures RetriesTransientAtMost(x, n) <==> n >= x.maxRetries - 1
  {
    if n >= x.maxRetries - 1 {
      forall o, start ensures Count(Blips, LogOf(x, o, start)) <= n {
        ExecutionBounded(x, o, start);
      }
    } else {
      ResetRetriesAlways(x);
    }
  }

  /**
   Transport errors are documented to be retried once.  That holds of every execution exactly when
   there are at most two attempts; with the default of three, some execution retries twice.
   */
  lemma TransientRetriedOnceExactly(x: Executor)
    requires x.maxRetries >= 1
    ensures RetriesTransientAtMost(x, 1) <==> x.maxRetries <= 2
    ensures x.maxRetries == 3 ==> exists o, start :: Count(Blips, LogOf(x, o, start)) == 2
  {
    TransientRetriesExactly(x, 1);
    ResetRetriesAlways(x);
  }

  // ----- how late a broadcast may be -----

  /** Every broadcast is handed to the node by then. */
  predicate SentBy(t: real, log: seq<Event>) { forall e | e in log && e.Broadcast? :: e.at <= t }

  lemma SentByAppends(t: real, a: seq<Event>, b: seq<Event>)
    requires SentBy(t, a) && SentBy(t, b)
    ensures SentBy(t, a + b)
  {
  }

  /** An attempt sends within its own legs, and another one follows after them, a pause, and perhaps a wait. */
  predicate Prompt(o: Oracle, patience: real, k: nat, now: real, t: Try) {
    && SentBy(now + AttemptSlack(o, k), t.log)
    && (t.result.Retry? ==> t.end <= now + AttemptSlack(o, k) + 5.0 + patience)
  }

  /** `patience` covers the receipt wait of an attempt that is retried after it, if any is. */
  ghost predicate Covers(x: Executor, o: Oracle, patience: real) {
    patience >= 0.0 && (SomeRecollides(x, o) ==> patience >= x.receiptTimeout)
  }

  lemma SendIsPrompt(x: Executor, o: Oracle, k: nat, nonce: nat, now: real)
    requires Forward(o)
    ensures var sent := Send(x, o, k, nonce, now);
            && SentBy(now + o.took(Building, k) + o.took(Signing, k), sent.log)
            && sent.end <= now + o.took(Building, k) + o.took(Signing, k) + o.took(Sending, k)
  {
    WorkForward(o, k);
  }

  lemma ConfirmIsPrompt(x: Executor, o: Oracle, k: nat, hash: string, now: real)
    requires Forward(o) && Honoured(Confirm(x, o, k, hash, now).log)
    ensures var confirmed := Confirm(x, o, k, hash, now);
            && (forall e | e in confirmed.log :: !e.Broadcast?)
            && confirmed.end <= now + o.took(Noting, k) + x.receiptTimeout + o.took(Wrapping, k)
  {
    WorkForward(o, k);
    var log := WaitLog(x, o, k, hash, now);
    assert log[|log| - 1] in Confirm(x, o, k, hash, now).log;
  }

  lemma RecoverIsPrompt(x: Executor, o: Oracle, k: nat, nonce: nat, exc: Exc, broadcast: bool, now: real)
    requires Honoured(Recover(x, o, k, nonce, exc, broadcast, now).log)
    ensures var t := Recover(x, o, k, nonce, exc, broadcast, now);
            && (forall e | e in t.log :: !e.Broadcast?) && t.end <= now + o.took(Handling, k) + 5.0
  {
    var pause := RecoverShape(x, o, k, nonce, exc, broadcast, now);
    RecoverInTime(x, o, k, nonce, exc, broadcast, now);
  }

  lemma TransactIsPrompt(x: Executor, o: Oracle, patience: real, k: nat, nonce: nat, now: real)
    requires Forward(o) && Covers(x, o, patience) && Honoured(Transact(x, o, k, nonce, now).log)
    ensures var t := Transact(x, o, k, nonce, now);
            && SentBy(now + WorkSlack(o, k), t.log)
            && (t.result.Retry? ==> t.end <= now + WorkSlack(o, k) + 5.0 + patience)
  {
    WorkForward(o, k);
    var sent := Send(x, o, k, nonce, now);
    SendIsPrompt(x, o, k, nonce, now);
    if sent.result.Err? {
      var recovery := Recover(x, o, k, nonce, sent.result.error, false, sent.end);
      HonouredParts(sent.log, recovery.log);
      RecoverIsPrompt(x, o, k, nonce, sent.result.error, false, sent.end);
      SentByAppends(now + WorkSlack(o, k), sent.log, recovery.log);
    } else {
      var hash := sent.result.value;
      var confirmed := Confirm(x, o, k, hash, sent.end);
      if confirmed.result.Err? {
        var recovery := Recover(x, o, k, nonce, confirmed.result.error, true, confirmed.end);
        HonouredParts(sent.log + confirmed.log, recovery.log);
        RecoverIsPrompt(x, o, k, nonce, confirmed.result.error, true, confirmed.end);
        ConfirmFails(x, o, k, nonce, hash, sent.end);
        SentByAppends(now + WorkSlack(o, k), sent.log + confirmed.log, recovery.log);
      }
      HonouredParts(sent.log, confirmed.log);
      ConfirmIsPrompt(x, o, k, hash, sent.end);
    }
  }

  lemma AttemptIsPrompt(x: Executor, o: Oracle, patience: real, k: nat, now: real)
    requires Forward(o) && Covers(x, o, patience) && Honoured(Attempt(x, o, k, now).log)
    ensures Prompt(o, patience, k, now, Attempt(x, o, k, now))
  {
    WorkForward(o, k);
    if Starts(x, o, k, now) {
      var nonce, reserved := o.reserve(k).value, ReservedTime(o, k, now);
      var entry, rest := EntryLog(x, o, k, now) + [Reserved(nonce)], Transact(x, o, k, nonce, reserved);
      HonouredParts(entry, rest.log);
      TransactIsPrompt(x, o, patience, k, nonce, reserved);
      SentByAppends(now + AttemptSlack(o, k), entry, rest.log);
    }
  }

  /** What the attempts before the last may take by pauses and waits, from attempt `k` on. */
  function Delay(limit: nat, k: nat, patience: real): real
    requires k <= limit
    decreases limit - k
  {
    if k + 1 >= limit then 0.0 else 5.0 + patience + Delay(limit, k + 1, patience)
  }

  lemma {:induction false} DelayForward(limit: nat, k: nat, patience: real)
    requires k <= limit && patience >= 0.0
    ensures Delay(limit, k, patience) >= 0.0
    decreases limit - k
  {
    if k + 1 < limit {
      DelayForward(limit, k + 1, patience);
    }
  }

  lemma {:induction false} LoopSentBy(o: Oracle, patience: real, tries: Tries, limit: nat, k: nat, now: real)
    requires k <= limit && Forward(o) && patience >= 0.0 && Honoured(Loop(tries, limit, k, now).log)
    requires forall j: nat, t: real | Honoured(tries(j, t).log) :: Prompt(o, patience, j, t, tries(j, t))
    requires forall j: nat, t: real | tries(j, t).result.Retry? :: j + 1 < limit
    ensures SentBy(now + Delay(limit, k, patience) + SlackFrom(o, limit, k), Loop(tries, limit, k, now).log)
    decreases limit - k
  {
    if k < limit {
      var t := tries(k, now);
      WorkForward(o, k);
      SlackForward(o, limit, k + 1);
      DelayForward(limit, k, patience);
      if t.result.Retry? {
        var rest := Loop(tries, limit, k + 1, t.end);
        HonouredParts(t.log, rest.log);
        assert Prompt(o, patience, k, now, t);
        LoopSentBy(o, patience, tries, limit, k + 1, t.end);
        SentByAppends(now + Delay(limit, k, patience) + SlackFrom(o, limit, k), t.log, rest.log);
      } else {
        assert Prompt(o, patience, k, now, t);
      }
    }
  }

  /** No broadcast is later than the pauses, and the waits that are retried after, before the last attempt. */
  lemma BroadcastsInTime(x: Executor, o: Oracle, start: real, patience: real)
    requires Forward(o) && Covers(x, o, patience) && Honoured(LogOf(x, o, start))
    ensures SentBy(start + Delay(x.maxRetries, 0, patience) + Slack(x, o), LogOf(x, o, start))
  {
    assert IsForward(o, Connecting, 0);
    if o.connect.None? {
      var tries := TriesOf(x, o);
      forall j: nat, t: real | Honoured(tries(j, t).log) ensures Prompt(o, patience, j, t, tries(j, t)) {
        AttemptIsPrompt(x, o, patience, j, t);
      }
      forall j: nat, t: real | tries(j, t).result.Retry? ensures j + 1 < x.maxRetries {
        AttemptEndsExactly(x, o, j, t);
      }
      LoopSentBy(o, patience, tries, x.maxRetries, 0, Connected(o, start));
    }
  }

  // ----- that is exact -----

  /** Sends before attempt `last` are rejected as underpriced, later ones go out and are mined at once. */
  function Relenting(last: nat): Oracle {
    Oracle(None, k => Ok(k), k => None, k => None, k => if k < last then Err(Ordinary(UNDERPRICED)) else Ok("tx"),
           (k, hash) => Ok(Web3Receipt(hash, 0, 0, 1)), k => None, k => None, (leg: Leg, k) => 0.0)
  }

  lemma RelentingNeverRecollides(x: Executor, last: nat)
    ensures Instant(Relenting(last)) && !SomeRecollides(x, Relenting(last))
    ensures forall start :: Connected(Relenting(last), start) == start
  {
    var o := Relenting(last);
    assert forall leg, k: nat :: IsForward(o, leg, k) && IsInstant(o, leg, k);
    assert forall k, hash :: AfterBroadcast(o, k, hash).None?;
  }

  lemma RejectedTransact(x: Executor, last: nat, k: nat, now: real)
    requires k < last && last < x.maxRetries && x.deadline.None?
    ensures var t := Transact(x, Relenting(last), k, k, now);
            t.result.Retry? && t.end == now + 5.0 && Honoured(t.log)
  {
    UnderpricedReadsSo();
    var o := Relenting(last);
    assert Prepare(x, o, k, now).result.None?;
    assert Send(x, o, k, k, now).result == Err(Ordinary(UNDERPRICED)) && Send(x, o, k, k, now).end == now;
  }

  lemma RelentingAttempt(x: Executor, last: nat, k: nat, now: real)
    requires k < last && last < x.maxRetries && x.deadline.None?
    ensures var t := Attempt(x, Relenting(last), k, now);
            t.result.Retry? && t.end == now + 5.0 && Honoured(t.log)
  {
    assert EntryTime(Relenting(last), k, now) == now && ReservedTime(Relenting(last), k, now) == now;
    RejectedTransact(x, last, k, now);
  }

  lemma RelentingConfirms(x: Executor, last: nat, now: real)
    requires last < x.maxRetries && x.deadline.None? && x.receiptTimeout >= 0.0
    ensures var t := Transact(x, Relenting(last), last, last, now);
            Broadcast(last, x.call, "tx", now) in t.log && t.result.Stop? && Honoured(t.log)
  {
    var o := Relenting(last);
    var sent := Send(x, o, last, last, now);
    assert Prepare(x, o, last, now).result.None? && Prepare(x, o, last, now).end == now;
    assert sent.result == Ok("tx") && sent.end == now && Honoured(sent.log);
    assert sent.log[|sent.log| - 1] == Broadcast(last, x.call, "tx", now);
    var confirmed := Confirm(x, o, last, "tx", now);
    assert confirmed.result.Ok? && Honoured(confirmed.log);
  }

  /** The first attempt that is not rejected broadcasts as it is entered. */
  lemma RelentingSends(x: Executor, last: nat, now: real)
    requires last < x.maxRetries && x.deadline.None? && x.receiptTimeout >= 0.0
    ensures SendsAtOnce(Attempt(x, Relenting(last), last, now), last, x.call, now)
  {
    var o := Relenting(last);
    assert EntryTime(o, last, now) == now && ReservedTime(o, last, now) == now;
    RelentingConfirms(x, last, now);
  }

  /** Attempts before `last` are retried after five seconds, and attempt `last` broadcasts and is final. */
  ghost predicate Relents(tries: Tries, last: nat, call: Call) {
    && (forall j: nat, t: real | j < last :: PausesFive(tries(j, t), t))
    && (forall t: real :: SendsAtOnce(tries(last, t), last, call, t))
  }

  predicate PausesFive(t: Try, now: real) { t.result.Retry? && t.end == now + 5.0 && Honoured(t.log) }

  predicate SendsAtOnce(t: Try, nonce: nat, call: Call, now: real) {
    t.result.Stop? && Honoured(t.log) && Broadcast(nonce, call, "tx", now) in t.log
  }

  /** The log holds this broadcast. */
  predicate Delivers(log: seq<Event>, nonce: nat, call: Call, at: real) {
    Honoured(log) && Broadcast(nonce, call, "tx", at) in log
  }

  lemma {:induction false} LoopRelents(tries: Tries, limit: nat, k: nat, now: real, last: nat, call: Call, at: real)
    requires k <= last < limit && Relents(tries, last, call) && at == now + 5.0 * (last - k) as real
    ensures Delivers(Loop(tries, limit, k, now).log, last, call, at)
    decreases last - k
  {
    if k < last {
      assert PausesFive(tries(k, now), now);
      assert 5.0 + 5.0 * (last - (k + 1)) as real == 5.0 * (last - k) as real;
      LoopRelents(tries, limit, k + 1, now + 5.0, last, call, at);
    } else {
      assert SendsAtOnce(tries(last, now), last, call, now);
    }
  }

  lemma RelentingRelents(x: Executor, last: nat)
    requires x.deadline.None? && last < x.maxRetries && x.receiptTimeout >= 0.0
    ensures Relents(TriesOf(x, Relenting(last)), last, x.call)
  {
    var tries := TriesOf(x, Relenting(last));
    forall j: nat, t: real | j < last ensures PausesFive(tries(j, t), t) {
      RelentingAttempt(x, last, j, t);
      assert tries(j, t) == Attempt(x, Relenting(last), j, t);
    }
    forall t: real ensures SendsAtOnce(tries(last, t), last, x.call, t) {
      RelentingSends(x, last, t);
      assert tries(last, t) == Attempt(x, Relenting(last), last, t);
    }
  }

  /** The loop of a run that starts at once. */
  lemma RelentingRun(x: Executor, o: Oracle, tries: Tries, start: real, last: nat, at: real)
    requires o.connect.None? && Connected(o, start) == start && tries == TriesOf(x, o)
    requires last < x.maxRetries && Relents(tries, last, x.call) && at == start + 5.0 * last as real
    ensures Delivers(LogOf(x, o, start), last, x.call, at)
  {
    assert last - 0 == last;
    LoopRelents(tries, x.maxRetries, 0, start, last, x.call, at);
  }

  lemma RelentingRuns(x: Executor, start: real) returns (o: Oracle)
    requires x.deadline.None? && x.maxRetries >= 1 && x.receiptTimeout >= 0.0
    ensures Instant(o) && !SomeRecollides(x, o)
    ensures Delivers(LogOf(x, o, start), x.maxRetries - 1, x.call, start + 5.0 * (x.maxRetries - 1) as real)
  {
    var last := x.maxRetries - 1;
    o := Relenting(last);
    RelentingNeverRecollides(x, last);
    RelentingRelents(x, last);
    RelentingRun(x, o, TriesOf(x, o), start, last, start + 5.0 * last as real);
  }

  lemma {:induction false} DelayIsFives(limit: nat, k: nat)
    requires k < limit
    ensures Delay(limit, k, 0.0) == 5.0 * (limit - 1 - k) as real
    decreases limit - k
  {
    if k + 1 < limit {
      DelayIsFives(limit, k + 1);
    }
  }

  /** With instant legs and no mistaken collision, every broadcast comes within `delay` of the start. */
  ghost predicate SendsWithin(x: Executor, delay: real) {
    forall o, start | Instant(o) && !SomeRecollides(x, o) && Honoured(LogOf(x, o, start)) ::
      SentBy(start + delay, LogOf(x, o, start))
  }

  /** Without a deadline, the longest delay of a broadcast is exactly one pause for each attempt but the last. */
  lemma LatestBroadcastExactly(x: Executor, delay: real)
    requires x.deadline.None? && x.maxRetries >= 1 && x.receiptTimeout >= 0.0
    ensures SendsWithin(x, delay) <==> delay >= 5.0 * (x.maxRetries - 1) as real
  {
    if delay >= 5.0 * (x.maxRetries - 1) as real {
      forall o, start | Instant(o) && !SomeRecollides(x, o) && Honoured(LogOf(x, o, start))
        ensures SentBy(start + delay, LogOf(x, o, start))
      {
        BroadcastsInTime(x, o, start, 0.0);
        DelayIsFives(x.maxRetries, 0);
        NoSlackFrom(o, x.maxRetries, 0);
        assert IsInstant(o, Connecting, 0);
      }
    } else {
      var o := RelentingRuns(x, 0.0);
      assert !SentBy(0.0 + delay, LogOf(x, o, 0.0));
    }
  }
}
