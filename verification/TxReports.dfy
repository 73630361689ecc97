/** What an execution shows, reports and takes, spelled out for each way in which an attempt can end. */
module TxReports {
  import opened Prelude
  import opened Errors
  import opened Revert
  import opened TxExecution
  import opened TxProperties
  import opened TxOutcomes

  predicate InTime(x: Executor, t: real) { x.deadline.Some? ==> t < x.deadline.value }

  /** A reading that is taken only to be compared with a deadline. */
  function Checked(x: Executor, t: real): seq<Event> { if x.deadline.Some? then [Clock(t)] else [] }

  /** An attempt entered past the deadline, or refused a nonce, ends there. */
  lemma NoStartReported(x: Executor, o: Oracle, k: nat, now: real)
    ensures var t, entered := Attempt(x, o, k, now), now + o.took(Entering, k);
            if !InTime(x, entered) then
              && t.log == [Clock(entered)] && t.end == entered
              && t.result == Stop(Raised(PublishTimeout(x.budget.GetOr(0.0), "pre-transaction")))
            else
              o.reserve(k).Err? ==>
                t == Stage(Checked(x, entered), Stop(Escaped(o.reserve(k).error)), entered + o.took(Reserving, k))
  {
  }

  /** Attempt `k`, entered at `now` and in time, has got its nonce at `reserved`. */
  predicate Begins(x: Executor, o: Oracle, k: nat, now: real, nonce: nat, reserved: real) {
    && InTime(x, now + o.took(Entering, k)) && o.reserve(k) == Ok(nonce)
    && reserved == now + o.took(Entering, k) + o.took(Reserving, k)
  }

  lemma AttemptBegins(x: Executor, o: Oracle, k: nat, now: real, nonce: nat, reserved: real)
    requires Begins(x, o, k, now, nonce, reserved)
    ensures var t, rest := Attempt(x, o, k, now), Transact(x, o, k, nonce, reserved);
            && t.log == Checked(x, now + o.took(Entering, k)) + [Reserved(nonce)] + rest.log
            && t.result == rest.result && t.end == rest.end
  {
    assert reserved == ReservedTime(o, k, now);
  }

  // ----- up to the send -----

  /** Neither building nor signing fails, and both are over, in time, at `ready`. */
  predicate Prepared(x: Executor, o: Oracle, k: nat, reserved: real, ready: real) {
    && o.build(k).None? && o.sign(k).None? && InTime(x, ready)
    && ready == reserved + o.took(Building, k) + o.took(Signing, k)
  }

  /** With its nonce in hand, attempt `k` fails with `e` at `failed`, before its broadcast, having shown `shown`. */
  predicate FailsUnsent(x: Executor, o: Oracle, k: nat, nonce: nat, reserved: real,
                        shown: seq<Event>, e: Exc, failed: real)
  {
    var built := reserved + o.took(Building, k);
    var ready := built + o.took(Signing, k);
    || (o.build(k) == Some(e) && shown == [Clock(reserved)] && failed == built)
    || (o.build(k).None? && o.sign(k) == Some(e) && shown == [Clock(reserved), Built] && failed == ready)
    || (&& o.build(k).None? && o.sign(k).None? && !InTime(x, ready) && failed == ready
        && e == Typed(PublishTimeout(x.budget.GetOr(0.0), "pre-transaction"))
        && shown == [Clock(reserved), Built, Signed, Clock(ready)])
    || (&& Prepared(x, o, k, reserved, ready) && o.send(k) == Err(e) && failed == ready + o.took(Sending, k)
        && shown == [Clock(reserved), Built, Signed] + Checked(x, ready) + [SendFailed(nonce)])
  }

  lemma UnsentShows(x: Executor, o: Oracle, k: nat, nonce: nat, reserved: real, shown: seq<Event>, e: Exc, failed: real)
    requires FailsUnsent(x, o, k, nonce, reserved, shown, e, failed)
    ensures Send(x, o, k, nonce, reserved) == Stage(shown + [Released(nonce)], Err(e), failed)
  {
  }

  lemma SentShows(x: Executor, o: Oracle, k: nat, nonce: nat, reserved: real, hash: string, ready: real)
    requires Prepared(x, o, k, reserved, ready) && o.send(k) == Ok(hash)
    ensures Send(x, o, k, nonce, reserved)
            == Stage([Clock(reserved), Built, Signed] + Checked(x, ready) + [Broadcast(nonce, x.call, hash, ready)],
                     Ok(hash), ready + o.took(Sending, k))
  {
  }

  /** A failure before the broadcast gives the nonce back and goes to the handlers. */
  lemma UnsentFailureReported(x: Executor, o: Oracle, k: nat, now: real, nonce: nat, reserved: real,
                              shown: seq<Event>, e: Exc, failed: real)
    requires Begins(x, o, k, now, nonce, reserved) && FailsUnsent(x, o, k, nonce, reserved, shown, e, failed)
    ensures var t, handled := Attempt(x, o, k, now), Recover(x, o, k, nonce, e, false, failed);
            && t.log == Checked(x, now + o.took(Entering, k)) + [Reserved(nonce)]
                        + (shown + [Released(nonce)] + handled.log)
            && t.result == handled.result && t.end == handled.end
  {
    AttemptBegins(x, o, k, now, nonce, reserved);
    UnsentShows(x, o, k, nonce, reserved, shown, e, failed);
  }

  // ----- from the broadcast on -----

  /** The receipt timeout, or the time left if that is less, but a second if less than that is left. */
  predicate IsCap(x: Executor, start: real, cap: real) {
    && cap <= x.receiptTimeout && (x.deadline.None? ==> cap == x.receiptTimeout)
    && (x.deadline.Some? ==>
          && (start + cap <= x.deadline.value || cap <= 1.0)
          && (cap == x.receiptTimeout || (start + cap >= x.deadline.value && cap >= 1.0)))
  }

  /** The receipt wait, the transaction being out at `sent`, starts at `start` and may last `cap`. */
  predicate Waits(x: Executor, o: Oracle, k: nat, sent: real, start: real, cap: real) {
    IsCap(x, start, cap) && start == sent + if x.deadline.Some? then o.took(Noting, k) else 0.0
  }

  /** With `hash` out at `sent`, attempt `k` fails with `e` at `failed`, having shown `shown` since. */
  predicate FailsSent(x: Executor, o: Oracle, k: nat, hash: string, sent: real, start: real, cap: real,
                      shown: seq<Event>, e: Exc, failed: real)
  {
    var answer, done := o.wait(k, hash), start + o.took(Waiting, k);
    var log := [Clock(sent)] + Checked(x, start) + [Waited(hash, start, cap, o.took(Waiting, k))];
    Waits(x, o, k, sent, start, cap) &&
    (|| (&& answer.Err? && failed == done && shown == log
         && e == if answer.error.TimeExhausted? then Typed(TxReceiptTimeout(hash, cap)) else answer.error)
     || (&& answer.Ok? && answer.value.status != 1 && failed == done && shown == log + [Clock(done)]
         && e == Typed(TxRevert("Transaction " + hash + " mined but reverted")))
     || (&& answer.Ok? && answer.value.status == 1 && o.wrap(k) == Some(e)
         && failed == done + o.took(Wrapping, k) && shown == log + [Clock(done)]))
  }

  lemma SentFailureShows(x: Executor, o: Oracle, k: nat, hash: string, sent: real, start: real, cap: real,
                         shown: seq<Event>, e: Exc, failed: real)
    requires FailsSent(x, o, k, hash, sent, start, cap, shown, e, failed)
    ensures Confirm(x, o, k, hash, sent) == Stage(shown, Err(e), failed)
  {
  }

  /** A failure after the broadcast keeps the nonce spent and goes to the handlers, which know of the broadcast. */
  lemma SentFailureReported(x: Executor, o: Oracle, k: nat, now: real, nonce: nat, reserved: real, hash: string,
                            ready: real, start: real, cap: real, shown: seq<Event>, e: Exc, failed: real)
    requires Begins(x, o, k, now, nonce, reserved) && Prepared(x, o, k, reserved, ready) && o.send(k) == Ok(hash)
    requires FailsSent(x, o, k, hash, ready + o.took(Sending, k), start, cap, shown, e, failed)
    ensures var t, handled := Attempt(x, o, k, now), Recover(x, o, k, nonce, e, true, failed);
            var sent := [Clock(reserved), Built, Signed] + Checked(x, ready) + [Broadcast(nonce, x.call, hash, ready)];
            && t.log == Checked(x, now + o.took(Entering, k)) + [Reserved(nonce)] + (sent + shown + handled.log)
            && t.result == handled.result && t.end == handled.end
  {
    AttemptBegins(x, o, k, now, nonce, reserved);
    SentShows(x, o, k, nonce, reserved, hash, ready);
    SentFailureShows(x, o, k, hash, ready + o.took(Sending, k), start, cap, shown, e, failed);
  }

  lemma ReceiptShows(x: Executor, o: Oracle, k: nat, hash: string, sent: real, start: real, cap: real)
    requires Waits(x, o, k, sent, start, cap)
    requires o.wait(k, hash).Ok? && o.wait(k, hash).value.status == 1 && o.wrap(k).None?
    ensures var r, done := o.wait(k, hash).value, start + o.took(Waiting, k);
            Confirm(x, o, k, hash, sent)
            == Stage([Clock(sent)] + Checked(x, start) + [Waited(hash, start, cap, o.took(Waiting, k)), Clock(done)],
                     Ok(Receipt(r.txHash, r.blockNumber, r.gasUsed, 1)), done + o.took(Wrapping, k))
  {
  }

  /** The receipt of a mined transaction is returned as the node gives it. */
  lemma ReceiptReported(x: Executor, o: Oracle, k: nat, now: real, nonce: nat, reserved: real, hash: string,
                        ready: real, start: real, cap: real)
    requires Begins(x, o, k, now, nonce, reserved) && Prepared(x, o, k, reserved, ready) && o.send(k) == Ok(hash)
    requires Waits(x, o, k, ready + o.took(Sending, k), start, cap)
    requires o.wait(k, hash).Ok? && o.wait(k, hash).value.status == 1 && o.wrap(k).None?
    ensures var t, r, done := Attempt(x, o, k, now), o.wait(k, hash).value, start + o.took(Waiting, k);
            && t.result == Stop(Returned(Receipt(r.txHash, r.blockNumber, r.gasUsed, 1)))
            && t.end == done + o.took(Wrapping, k)
            && t.log == Checked(x, now + o.took(Entering, k)) + [Reserved(nonce)]
                        + ([Clock(reserved), Built, Signed] + Checked(x, ready)
                           + [Broadcast(nonce, x.call, hash, ready)]
                           + ([Clock(ready + o.took(Sending, k))] + Checked(x, start)
                              + [Waited(hash, start, cap, o.took(Waiting, k)), Clock(done)]))
  {
    AttemptBegins(x, o, k, now, nonce, reserved);
    SentShows(x, o, k, nonce, reserved, hash, ready);
    ReceiptShows(x, o, k, hash, ready + o.took(Sending, k), start, cap);
  }

  // ----- in the handlers -----

  /** How a failure ends its attempt: by what kind of exception it is, and by the class of its message. */
  lemma FailureHandled(x: Executor, o: Oracle, k: nat, nonce: nat, e: Exc, broadcast: bool, failed: real)
    ensures var t, now := Recover(x, o, k, nonce, e, broadcast, failed), failed + o.took(Handling, k);
            var again, cut := k + 1 < x.maxRetries, o.interrupt(k);
            match e
            case ContractLogic(m) => t == Stage([], Stop(Raised(DecodeRevert(m, x.context, x.signer))), now)
            case Typed(error) => t == Stage([], Stop(Raised(error)), now)
            case NotAnException(_) => t == Stage([], Stop(Escaped(e)), now)
            case _ =>
              match Classify(e.message)
              case Nonce =>
                t == Stage([CacheReset], if again then Retry else Stop(Raised(NonceError(x.signer, nonce, -1))), now)
              case Underpriced =>
                t == if !again then Stage([CacheReset], Stop(Raised(GasError(e.message))), now)
                     else if cut.None? then Stage([CacheReset, Slept(now, 5, 5.0)], Retry, now + 5.0)
                     else Stage([CacheReset, Slept(now, 5, cut.value.after)], Stop(Escaped(cut.value.exc)),
                                now + cut.value.after)
              case Transient =>
                t == if !again || broadcast then Stage([], Stop(Raised(TxRpc(e.message))), now)
                     else if cut.None? then Stage([Slept(now, 1, 1.0)], Retry, now + 1.0)
                     else Stage([Slept(now, 1, cut.value.after)], Stop(Escaped(cut.value.exc)), now + cut.value.after)
              case Fatal => t == Stage([], Stop(Raised(TxRpc(e.message))), now)
  {
  }

  // ----- nothing else can happen -----

  /** Each attempt that gets its nonce fails before its broadcast, or fails after it, or returns a receipt. */
  lemma EveryEndIsTold(x: Executor, o: Oracle, k: nat, now: real, nonce: nat, reserved: real)
    returns (shown: seq<Event>, e: Exc, failed: real, ready: real, start: real, cap: real)
    requires Begins(x, o, k, now, nonce, reserved)
    ensures || FailsUnsent(x, o, k, nonce, reserved, shown, e, failed)
            || (&& Prepared(x, o, k, reserved, ready) && o.send(k).Ok?
                && var hash := o.send(k).value;
                   || FailsSent(x, o, k, hash, ready + o.took(Sending, k), start, cap, shown, e, failed)
                   || (&& Waits(x, o, k, ready + o.took(Sending, k), start, cap)
                       && o.wait(k, hash).Ok? && o.wait(k, hash).value.status == 1 && o.wrap(k).None?))
  {
    var sent := Send(x, o, k, nonce, reserved);
    ready := reserved + o.took(Building, k) + o.took(Signing, k);
    start := WaitStart(x, o, k, ready + o.took(Sending, k));
    cap := WaitCap(x, start);
    e, failed := NotAnException(""), 0.0;
    if sent.result.Err? {
      shown, e, failed := sent.log[..|sent.log| - 1], sent.result.error, sent.end;
    } else {
      var confirmed := Confirm(x, o, k, sent.result.value, sent.end);
      shown, failed := confirmed.log, confirmed.end;
      if confirmed.result.Err? {
        e := confirmed.result.error;
      }
    }
  }

  // ----- the execution is its attempts -----

  /** The logs of the first `n` attempts, each entered when the one before it ended. */
  function Joined(tries: Tries, start: real, n: nat): seq<Event> {
    if n == 0 then [] else Joined(tries, start, n - 1) + tries(n - 1, Entered(tries, start, n - 1)).log
  }

  /** Attempts before `n` are retried, and attempt `n` is the last one, with this outcome and end. */
  ghost predicate EndsWithAttempt(tries: Tries, start: real, n: nat, outcome: Outcome, end: real) {
    && (forall j | 0 <= j < n :: tries(j, Entered(tries, start, j)).result.Retry?)
    && tries(n, Entered(tries, start, n)).result == Stop(outcome) && tries(n, Entered(tries, start, n)).end == end
  }

  lemma {:induction false} LoopEndsWithAttempt(tries: Tries, limit: nat, k: nat, start: real) returns (n: nat)
    requires k < limit && forall j: nat, t: real :: tries(j, t).result.Retry? ==> j + 1 < limit
    requires forall j | 0 <= j < k :: tries(j, Entered(tries, start, j)).result.Retry?
    ensures k <= n < limit
    ensures var run := Loop(tries, limit, k, Entered(tries, start, k));
            EndsWithAttempt(tries, start, n, run.result, run.end)
            && Joined(tries, start, k) + run.log == Joined(tries, start, n + 1)
    decreases limit - k
  {
    var t := tries(k, Entered(tries, start, k));
    n := k;
    if t.result.Retry? {
      assert Entered(tries, start, k + 1) == t.end;
      n := LoopEndsWithAttempt(tries, limit, k + 1, start);
      ConcatAssociates(Joined(tries, start, k), t.log, Loop(tries, limit, k + 1, t.end).log);
    }
  }

  /**
   An execution is its attempts from the first on, each entered when the one before it ended: all but
   the last are retried, and the last gives the outcome and the end.
   */
  lemma RunIsItsAttempts(x: Executor, o: Oracle, start: real) returns (n: nat)
    requires x.maxRetries >= 1
    ensures var connected := start + o.took(Connecting, 0);
            if o.connect.Some? then Run(x, o, start) == Stage([], Escaped(o.connect.value), connected)
            else
              var tries, run := TriesOf(x, o), Run(x, o, start);
              && n < x.maxRetries && EndsWithAttempt(tries, connected, n, run.result, run.end)
              && run.log == Joined(tries, connected, n + 1)
  {
    n := 0;
    if o.connect.None? {
      forall j: nat, t: real | TriesOf(x, o)(j, t).result.Retry? ensures j + 1 < x.maxRetries {
        AttemptCounts(Reserves, x, o, j, t);
      }
      n := LoopEndsWithAttempt(TriesOf(x, o), x.maxRetries, 0, start + o.took(Connecting, 0));
      assert [] + Run(x, o, start).log == Run(x, o, start).log;
    }
  }
}
