/** How one attempt ends, told from the answers it gets and the time at which it is entered. */
module TxAnswers {
  import opened Prelude
  import opened Errors
  import opened TxExecution
  import opened TxProperties
  import R = Revert

  /** When the signed transaction of attempt `k` is ready to go, the nonce having been reserved at `reserved`. */
  function ReadyTime(o: Oracle, k: nat, reserved: real): real {
    reserved + o.took(Building, k) + o.took(Signing, k)
  }

  /** Nothing keeps attempt `k` from its send. */
  predicate Ready(x: Executor, o: Oracle, k: nat, reserved: real) {
    o.build(k).None? && o.sign(k).None? && !Late(x, ReadyTime(o, k, reserved))
  }

  predicate SendsOut(x: Executor, o: Oracle, k: nat, reserved: real) {
    Ready(x, o, k, reserved) && o.send(k).Ok?
  }

  /** The exception from outside, if any, that strikes attempt `k` after its reservation. */
  function Struck(x: Executor, o: Oracle, k: nat, reserved: real): Option<Exc> {
    if o.build(k).Some? then o.build(k)
    else if o.sign(k).Some? then o.sign(k)
    else if !Ready(x, o, k, reserved) then None
    else if o.send(k).Err? then Some(o.send(k).error)
    else AfterBroadcast(o, k, o.send(k).value)
  }

  /** What comes before the handlers: no reset, no pause. */
  predicate NoPreparation(log: seq<Event>) { CacheReset !in log && Count(Sleeping, log) == 0 }

  lemma SendByAnswers(x: Executor, o: Oracle, k: nat, nonce: nat, reserved: real)
    ensures var sent := Send(x, o, k, nonce, reserved);
            && (sent.result.Ok? <==> SendsOut(x, o, k, reserved))
            && (sent.result.Ok? ==> sent.result == o.send(k))
            && (sent.result.Err? && Ready(x, o, k, reserved) ==> sent.result.error == o.send(k).error)
            && (sent.result.Err? && !Ready(x, o, k, reserved) ==>
                  sent.result.error == Struck(x, o, k, reserved).GetOr(Typed(BudgetSpent(x))))
            && NoPreparation(sent.log)
  {
    SendCounts(Sleeping, x, o, k, nonce, reserved);
  }

  lemma ConfirmByAnswers(x: Executor, o: Oracle, k: nat, hash: string, now: real)
    ensures var confirmed := Confirm(x, o, k, hash, now);
            && (match AfterBroadcast(o, k, hash)
                case Some(e) => confirmed.result == Err(e)
                case None => confirmed.result.Err? ==> confirmed.result.error.Typed?)
            && (confirmed.result.Ok? ==> confirmed.result.value.status == 1)
            && NoPreparation(confirmed.log)
  {
    CountNothing(Sleeping, Confirm(x, o, k, hash, now).log);
  }

  /** With an exception from outside an attempt ends in the handlers; without one, in a result of its own. */
  lemma TransactByAnswers(x: Executor, o: Oracle, k: nat, nonce: nat, reserved: real)
    returns (before: seq<Event>, now: real)
    ensures var t := Transact(x, o, k, nonce, reserved);
            match Struck(x, o, k, reserved)
            case Some(e) =>
              var recovery := Recover(x, o, k, nonce, e, SendsOut(x, o, k, reserved), now);
              NoPreparation(before) && t == Stage(before + recovery.log, recovery.result, recovery.end)
            case None =>
              t.result.Stop? && if t.result.outcome.Returned? then t.result.outcome.receipt.status == 1
                                else t.result.outcome.Raised?
  {
    var sent := Send(x, o, k, nonce, reserved);
    SendByAnswers(x, o, k, nonce, reserved);
    before, now := sent.log, sent.end;
    if sent.result.Ok? {
      var confirmed := Confirm(x, o, k, sent.result.value, sent.end);
      ConfirmByAnswers(x, o, k, sent.result.value, sent.end);
      CountAppend(Sleeping, sent.log, confirmed.log);
      before, now := sent.log + confirmed.log, confirmed.end;
    }
  }

  // ----- when there is another attempt, and when something escapes -----

  predicate Wanted(x: Executor, o: Oracle, k: nat, reserved: real, e: Exc) {
    k + 1 < x.maxRetries && (TakenForCollision(e) || (TakenForBlip(e) && !SendsOut(x, o, k, reserved)))
  }

  /** Attempt `k`, entered at `now`, gets its nonce. */
  predicate Starts(x: Executor, o: Oracle, k: nat, now: real) {
    !Late(x, EntryTime(o, k, now)) && o.reserve(k).Ok?
  }

  predicate Retried(x: Executor, o: Oracle, k: nat, now: real) {
    var reserved := ReservedTime(o, k, now);
    var struck := Struck(x, o, k, reserved);
    Starts(x, o, k, now) && struck.Some? && Wanted(x, o, k, reserved, struck.value) && Undisturbed(o, k, struck.value)
  }

  /** A failed reservation, an exception the handlers do not catch, or an interrupted pause. */
  predicate Escapes(x: Executor, o: Oracle, k: nat, now: real) {
    var reserved := ReservedTime(o, k, now);
    var struck := Struck(x, o, k, reserved);
    !Late(x, EntryTime(o, k, now)) &&
    (o.reserve(k).Err?
     || (struck.Some? && (struck.value.NotAnException?
                          || (Wanted(x, o, k, reserved, struck.value) && !Undisturbed(o, k, struck.value)))))
  }

  lemma RecoverByAnswers(x: Executor, o: Oracle, k: nat, nonce: nat, e: Exc, broadcast: bool, now: real)
    ensures var t := Recover(x, o, k, nonce, e, broadcast, now).result;
            var wanted := k + 1 < x.maxRetries && (TakenForCollision(e) || (TakenForBlip(e) && !broadcast));
            && (t.Retry? <==> wanted && Undisturbed(o, k, e))
            && ((t.Stop? && t.outcome.Escaped?) <==> e.NotAnException? || (wanted && !Undisturbed(o, k, e)))
            && (t.Stop? ==> !t.outcome.Returned?)
  {
  }

  /**
   There is another attempt exactly when one is left, the failure was taken for a collision or was
   a transport blip from before the broadcast, and no interrupt struck the pause.  A raw exception
   gets out exactly when the reservation fails, no handler catches the failure, or the pause is
   interrupted.
   */
  lemma AttemptEndsExactly(x: Executor, o: Oracle, k: nat, now: real)
    ensures var v := Attempt(x, o, k, now).result;
            && (v.Retry? <==> Retried(x, o, k, now))
            && ((v.Stop? && v.outcome.Escaped?) <==> Escapes(x, o, k, now))
            && (v.Stop? && v.outcome.Returned? ==> v.outcome.receipt.status == 1)
  {
    if Starts(x, o, k, now) {
      var nonce, reserved := o.reserve(k).value, ReservedTime(o, k, now);
      var before, t := TransactByAnswers(x, o, k, nonce, reserved);
      var struck := Struck(x, o, k, reserved);
      if struck.Some? {
        RecoverByAnswers(x, o, k, nonce, struck.value, SendsOut(x, o, k, reserved), t);
      }
    }
  }

  // ----- what precedes a retry, and what an attempt that is not retried reports -----

  /** The failure of attempt `k`, once it has started. */
  predicate FailsWith(x: Executor, o: Oracle, k: nat, now: real, e: Exc) {
    Starts(x, o, k, now) && Struck(x, o, k, ReservedTime(o, k, now)) == Some(e)
  }

  // ----- giving a reservation up -----

  lemma SendHandsBack(x: Executor, o: Oracle, k: nat, nonce: nat, reserved: real)
    ensures var sent := Send(x, o, k, nonce, reserved);
            (Released(nonce) in sent.log <==> !SendsOut(x, o, k, reserved)) && CacheReset !in sent.log
  {
    var sent := Send(x, o, k, nonce, reserved);
    SendByAnswers(x, o, k, nonce, reserved);
    assert sent.result.Err? ==> sent.log[|sent.log| - 1] == Released(nonce);
  }

  lemma RecoverResetsExactly(x: Executor, o: Oracle, k: nat, nonce: nat, e: Exc, broadcast: bool, now: real)
    ensures var log := Recover(x, o, k, nonce, e, broadcast, now).log;
            (CacheReset in log <==> TakenForCollision(e)) && Released(nonce) !in log
  {
  }

  lemma TransactGivesUp(x: Executor, o: Oracle, k: nat, nonce: nat, reserved: real)
    ensures var log, struck := Transact(x, o, k, nonce, reserved).log, Struck(x, o, k, reserved);
            && (Released(nonce) in log <==> !SendsOut(x, o, k, reserved))
            && (CacheReset in log <==> struck.Some? && TakenForCollision(struck.value))
  {
    var sent := Send(x, o, k, nonce, reserved);
    SendByAnswers(x, o, k, nonce, reserved);
    SendHandsBack(x, o, k, nonce, reserved);
    if sent.result.Err? {
      RecoverResetsExactly(x, o, k, nonce, sent.result.error, false, sent.end);
    } else {
      var confirmed := Confirm(x, o, k, sent.result.value, sent.end);
      ConfirmByAnswers(x, o, k, sent.result.value, sent.end);
      assert Released(nonce) !in confirmed.log;
      if confirmed.result.Err? {
        RecoverResetsExactly(x, o, k, nonce, confirmed.result.error, true, confirmed.end);
      }
    }
  }

  /**
   An attempt that got a nonce hands it back exactly when it does not broadcast it, and drops the
   cache entry exactly when its failure is taken for a collision, on the last attempt as on any other.
   */
  lemma GivesUpExactly(x: Executor, o: Oracle, k: nat, now: real)
    requires Starts(x, o, k, now)
    ensures var log, struck := Attempt(x, o, k, now).log, Struck(x, o, k, ReservedTime(o, k, now));
            && (Released(o.reserve(k).value) in log <==> !SendsOut(x, o, k, ReservedTime(o, k, now)))
            && (CacheReset in log <==> struck.Some? && TakenForCollision(struck.value))
  {
    TransactGivesUp(x, o, k, o.reserve(k).value, ReservedTime(o, k, now));
  }

  // ----- pauses and errors -----

  lemma RecoverPrepares(x: Executor, o: Oracle, k: nat, nonce: nat, e: Exc, broadcast: bool, now: real)
    requires Recover(x, o, k, nonce, e, broadcast, now).result.Retry?
    ensures var log := Recover(x, o, k, nonce, e, broadcast, now).log;
            Count(Sleeping, log) == match Classify(e.Message())
                                    case Nonce => 0
                                    case Underpriced => 5
                                    case _ => 1
  {
    var handled := now + o.took(Handling, k);
    OnePause(Sleeping, Pause(o, k, UNDERPRICED_BACKOFF, handled).log[0]);
    OnePause(Sleeping, Pause(o, k, TRANSIENT_BACKOFF, handled).log[0]);
  }

  /** The pause before another attempt depends on the class of the failure: none, five seconds, or one. */
  lemma RetryPreparation(x: Executor, o: Oracle, k: nat, now: real, e: Exc)
    requires FailsWith(x, o, k, now, e) && Attempt(x, o, k, now).result.Retry?
    ensures var log := Attempt(x, o, k, now).log;
            Count(Sleeping, log) == match Classify(e.Message())
                                    case Nonce => 0
                                    case Underpriced => 5
                                    case _ => 1
  {
    var nonce, reserved := o.reserve(k).value, ReservedTime(o, k, now);
    var before, t := TransactByAnswers(x, o, k, nonce, reserved);
    var recovery := Recover(x, o, k, nonce, e, SendsOut(x, o, k, reserved), t);
    RecoverPrepares(x, o, k, nonce, e, SendsOut(x, o, k, reserved), t);
    var entry := EntryLog(x, o, k, now) + [Reserved(nonce)];
    CountNothing(Sleeping, entry);
    CountAppend(Sleeping, before, recovery.log);
    CountAppend(Sleeping, entry, before + recovery.log);
  }

  /** A failure that is neither retried nor interrupted surfaces as the error of its class, in the node's own words. */
  lemma UnretriedFailureSurfaces(x: Executor, o: Oracle, k: nat, now: real, message: string)
    requires FailsWith(x, o, k, now, Ordinary(message)) && !Retried(x, o, k, now) && !Escapes(x, o, k, now)
    ensures Attempt(x, o, k, now).result == Stop(Raised(
              match Classify(message)
              case Nonce => NonceError(x.signer, o.reserve(k).value, -1)
              case Underpriced => GasError(message)
              case _ => TxRpc(message)))
  {
    AttemptEndsExactly(x, o, k, now);
    var before, t := TransactByAnswers(x, o, k, o.reserve(k).value, ReservedTime(o, k, now));
  }

  /** A known revert in the node's usual format surfaces as its own error, attributed to context and signer. */
  lemma KnownRevertSurfaces(x: Executor, o: Oracle, k: nat, now: real, i: nat)
    requires i < |R.KEYS| && FailsWith(x, o, k, now, ContractLogic("execution reverted: " + R.KEYS[i]))
    ensures Attempt(x, o, k, now).result == Stop(Raised(R.Handle(i, x.context, x.signer)))
  {
    var before, t := TransactByAnswers(x, o, k, o.reserve(k).value, ReservedTime(o, k, now));
    R.KnownReasonDecodes(i, x.context, x.signer);
  }
}
