/** How the caller's deadline binds sending and waiting. */
module TxDeadline {
  import opened Prelude
  import opened TxExecution

  predicate IsSend(e: Event) { e.Broadcast? || e.SendFailed? }

  /** Event `j` directly follows a clock reading. */
  predicate FollowsReading(log: seq<Event>, j: nat) {
    0 < j < |log| && log[j - 1].Clock?
  }

  /** Every send directly follows a reading before the deadline. */
  predicate SendsChecked(d: real, log: seq<Event>) {
    forall j | 0 <= j < |log| && IsSend(log[j]) :: FollowsReading(log, j) && log[j - 1].time < d
  }

  /** Every receipt wait starts at the reading it directly follows, and is capped by what that left. */
  predicate WaitsCapped(x: Executor, log: seq<Event>) {
    forall j | 0 <= j < |log| && log[j].Waited? ::
      FollowsReading(log, j) && log[j].start == log[j - 1].time && log[j].timeout == WaitCap(x, log[j].start)
  }

  /** Pauses know nothing of the deadline: they last five seconds, or one. */
  predicate PausesFixed(log: seq<Event>) {
    forall e | e in log && e.Slept? :: e.seconds == 5 || e.seconds == 1
  }

  predicate Disciplined(x: Executor, log: seq<Event>) {
    WaitsCapped(x, log) && PausesFixed(log) && (x.deadline.Some? ==> SendsChecked(x.deadline.value, log))
  }

  lemma DisciplineAppends(x: Executor, a: seq<Event>, b: seq<Event>)
    requires Disciplined(x, a) && Disciplined(x, b)
    ensures Disciplined(x, a + b)
  {
  }

  /** The event may come next: a send or a wait needs the reading it depends on. */
  predicate MayFollow(x: Executor, log: seq<Event>, e: Event) {
    var last := if log == [] then None else Some(log[|log| - 1]);
    && (IsSend(e) && x.deadline.Some? ==> last.Some? && last.value.Clock? && last.value.time < x.deadline.value)
    && (e.Waited? ==> last.Some? && last.value.Clock? && e.start == last.value.time && e.timeout == WaitCap(x, e.start))
    && !e.Slept?
  }

  lemma DisciplineExtends(x: Executor, log: seq<Event>, e: Event)
    requires Disciplined(x, log) && MayFollow(x, log, e)
    ensures Disciplined(x, log + [e])
  {
    assert forall j | 0 <= j < |log| && FollowsReading(log, j) :: FollowsReading(log + [e], j);
  }

  lemma PrepareDisciplined(x: Executor, o: Oracle, k: nat, now: real)
    ensures var ready := Prepare(x, o, k, now);
            Disciplined(x, ready.log) && (ready.result.None? ==> MayFollow(x, ready.log, SendFailed(0)))
  {
  }

  lemma SendDisciplined(x: Executor, o: Oracle, k: nat, nonce: nat, now: real)
    ensures Disciplined(x, Send(x, o, k, nonce, now).log)
  {
    var ready := Prepare(x, o, k, now);
    PrepareDisciplined(x, o, k, now);
    if ready.result.Some? {
      DisciplineExtends(x, ready.log, Released(nonce));
    } else if o.send(k).Ok? {
      DisciplineExtends(x, ready.log, Broadcast(nonce, x.call, o.send(k).value, ready.end));
    } else {
      DisciplineExtends(x, ready.log, SendFailed(nonce));
      DisciplineExtends(x, ready.log + [SendFailed(nonce)], Released(nonce));
    }
  }

  lemma WaitDisciplined(x: Executor, o: Oracle, k: nat, hash: string, now: real)
    ensures Disciplined(x, WaitLog(x, o, k, hash, now))
  {
    var start := WaitStart(x, o, k, now);
    var clocks := if x.deadline.None? then [Clock(now)] else [Clock(now)] + [Clock(start)];
    assert Disciplined(x, clocks);
    DisciplineExtends(x, clocks, Waited(hash, start, WaitCap(x, start), o.took(Waiting, k)));
  }

  lemma ConfirmDisciplined(x: Executor, o: Oracle, k: nat, hash: string, now: real)
    ensures Disciplined(x, Confirm(x, o, k, hash, now).log)
  {
    var log, done := WaitLog(x, o, k, hash, now), Clock(WaitStart(x, o, k, now) + o.took(Waiting, k));
    WaitDisciplined(x, o, k, hash, now);
    DisciplineExtends(x, log, done);
    assert Confirm(x, o, k, hash, now).log in [log, log + [done]];
  }

  lemma RecoverDisciplined(x: Executor, o: Oracle, k: nat, nonce: nat, exc: Exc, broadcast: bool, now: real)
    ensures Disciplined(x, Recover(x, o, k, nonce, exc, broadcast, now).log)
  {
  }

  lemma TransactDisciplined(x: Executor, o: Oracle, k: nat, nonce: nat, now: real)
    ensures Disciplined(x, Transact(x, o, k, nonce, now).log)
  {
    var sent := Send(x, o, k, nonce, now);
    SendDisciplined(x, o, k, nonce, now);
    if sent.result.Err? {
      RecoverDisciplined(x, o, k, nonce, sent.result.error, false, sent.end);
      DisciplineAppends(x, sent.log, Recover(x, o, k, nonce, sent.result.error, false, sent.end).log);
    } else {
      var confirmed := Confirm(x, o, k, sent.result.value, sent.end);
      ConfirmDisciplined(x, o, k, sent.result.value, sent.end);
      DisciplineAppends(x, sent.log, confirmed.log);
      if confirmed.result.Err? {
        RecoverDisciplined(x, o, k, nonce, confirmed.result.error, true, confirmed.end);
        DisciplineAppends(x, sent.log + confirmed.log,
                          Recover(x, o, k, nonce, confirmed.result.error, true, confirmed.end).log);
      }
    }
  }

  lemma AttemptDisciplined(x: Executor, o: Oracle, k: nat, now: real)
    ensures Disciplined(x, Attempt(x, o, k, now).log)
  {
    var entry := EntryLog(x, o, k, now);
    if !Late(x, EntryTime(o, k, now)) && o.reserve(k).Ok? {
      var nonce, reserved := o.reserve(k).value, ReservedTime(o, k, now);
      TransactDisciplined(x, o, k, nonce, reserved);
      assert Disciplined(x, entry + [Reserved(nonce)]);
      DisciplineAppends(x, entry + [Reserved(nonce)], Transact(x, o, k, nonce, reserved).log);
    }
  }

  lemma {:induction false} LoopDisciplined(x: Executor, tries: Tries, limit: nat, k: nat, now: real)
    requires k <= limit && forall j: nat, t: real :: Disciplined(x, tries(j, t).log)
    ensures Disciplined(x, Loop(tries, limit, k, now).log)
    decreases limit - k
  {
    if k < limit {
      assert Disciplined(x, tries(k, now).log);
      if tries(k, now).result.Retry? {
        var end := tries(k, now).end;
        LoopDisciplined(x, tries, limit, k + 1, end);
        DisciplineAppends(x, tries(k, now).log, Loop(tries, limit, k + 1, end).log);
      }
    }
  }

  lemma ExecutionDisciplined(x: Executor, o: Oracle, start: real)
    ensures Disciplined(x, LogOf(x, o, start))
  {
    if o.connect.None? {
      forall j: nat, t: real ensures Disciplined(x, TriesOf(x, o)(j, t).log) {
        AttemptDisciplined(x, o, j, t);
      }
      LoopDisciplined(x, TriesOf(x, o), x.maxRetries, 0, Connected(o, start));
    }
  }

  // ----- time goes forward -----

  predicate IsForward(o: Oracle, leg: Leg, k: nat) {
    o.took(leg, k) >= 0.0 && (o.interrupt(k).Some? ==> o.interrupt(k).value.after >= 0.0)
  }

  ghost predicate Forward(o: Oracle) { forall leg, k: nat :: IsForward(o, leg, k) }

  /** The readings of a stage, in order, between its start and its end. */
  predicate Between(now: real, log: seq<Event>, end: real) {
    && now <= end
    && (forall i | 0 <= i < |log| && log[i].Clock? :: now <= log[i].time <= end)
    && (forall i, j | 0 <= i < j < |log| && log[i].Clock? && log[j].Clock? :: log[i].time <= log[j].time)
  }

  lemma BetweenAppends(now: real, a: seq<Event>, middle: real, b: seq<Event>, end: real)
    requires Between(now, a, middle) && Between(middle, b, end)
    ensures Between(now, a + b, end)
  {
  }

  lemma SendBetween(x: Executor, o: Oracle, k: nat, nonce: nat, now: real)
    requires Forward(o)
    ensures Between(now, Send(x, o, k, nonce, now).log, Send(x, o, k, nonce, now).end)
  {
    assert IsForward(o, Building, k) && IsForward(o, Signing, k) && IsForward(o, Sending, k);
    var ready := Prepare(x, o, k, now);
    assert Between(now, ready.log, ready.end);
    var sent := Send(x, o, k, nonce, now);
    assert sent.log == ready.log + sent.log[|ready.log|..];
    BetweenAppends(now, ready.log, ready.end, sent.log[|ready.log|..], sent.end);
  }

  lemma ConfirmBetween(x: Executor, o: Oracle, k: nat, hash: string, now: real)
    requires Forward(o)
    ensures Between(now, Confirm(x, o, k, hash, now).log, Confirm(x, o, k, hash, now).end)
  {
    assert IsForward(o, Noting, k) && IsForward(o, Waiting, k) && IsForward(o, Wrapping, k);
  }

  lemma RecoverBetween(x: Executor, o: Oracle, k: nat, nonce: nat, exc: Exc, broadcast: bool, now: real)
    requires Forward(o)
    ensures var t := Recover(x, o, k, nonce, exc, broadcast, now); Between(now, t.log, t.end)
  {
    assert IsForward(o, Handling, k);
  }

  lemma TransactBetween(x: Executor, o: Oracle, k: nat, nonce: nat, now: real)
    requires Forward(o)
    ensures Between(now, Transact(x, o, k, nonce, now).log, Transact(x, o, k, nonce, now).end)
  {
    var sent := Send(x, o, k, nonce, now);
    SendBetween(x, o, k, nonce, now);
    if sent.result.Err? {
      var recovery := Recover(x, o, k, nonce, sent.result.error, false, sent.end);
      RecoverBetween(x, o, k, nonce, sent.result.error, false, sent.end);
      BetweenAppends(now, sent.log, sent.end, recovery.log, recovery.end);
    } else {
      var confirmed := Confirm(x, o, k, sent.result.value, sent.end);
      ConfirmBetween(x, o, k, sent.result.value, sent.end);
      BetweenAppends(now, sent.log, sent.end, confirmed.log, confirmed.end);
      if confirmed.result.Err? {
        var recovery := Recover(x, o, k, nonce, confirmed.result.error, true, confirmed.end);
        RecoverBetween(x, o, k, nonce, confirmed.result.error, true, confirmed.end);
        BetweenAppends(now, sent.log + confirmed.log, confirmed.end, recovery.log, recovery.end);
      }
    }
  }

  lemma AttemptBetween(x: Executor, o: Oracle, k: nat, now: real)
    requires Forward(o)
    ensures Between(now, Attempt(x, o, k, now).log, Attempt(x, o, k, now).end)
  {
    assert IsForward(o, Entering, k) && IsForward(o, Reserving, k);
    var entry := EntryLog(x, o, k, now);
    assert Between(now, entry, EntryTime(o, k, now));
    if !Late(x, EntryTime(o, k, now)) && o.reserve(k).Ok? {
      var nonce, reserved := o.reserve(k).value, ReservedTime(o, k, now);
      var rest := Transact(x, o, k, nonce, reserved);
      assert Between(now, entry + [Reserved(nonce)], reserved);
      TransactBetween(x, o, k, nonce, reserved);
      BetweenAppends(now, entry + [Reserved(nonce)], reserved, rest.log, rest.end);
    }
  }

  lemma {:induction false} LoopBetween(tries: Tries, limit: nat, k: nat, now: real)
    requires k <= limit && forall j: nat, t: real :: Between(t, tries(j, t).log, tries(j, t).end)
    ensures Between(now, Loop(tries, limit, k, now).log, Loop(tries, limit, k, now).end)
    decreases limit - k
  {
    if k < limit {
      var t := tries(k, now);
      assert Between(now, t.log, t.end);
      if t.result.Retry? {
        LoopBetween(tries, limit, k + 1, t.end);
        BetweenAppends(now, t.log, t.end, Loop(tries, limit, k + 1, t.end).log, Loop(tries, limit, k + 1, t.end).end);
      }
    }
  }

  /** The clock readings of an execution never go back. */
  lemma ReadingsInOrder(x: Executor, o: Oracle, start: real)
    requires Forward(o)
    ensures Between(start, LogOf(x, o, start), Run(x, o, start).end)
  {
    assert IsForward(o, Connecting, 0);
    if o.connect.None? {
      forall j: nat, t: real ensures Between(t, TriesOf(x, o)(j, t).log, TriesOf(x, o)(j, t).end) {
        AttemptBetween(x, o, j, t);
      }
      LoopBetween(TriesOf(x, o), x.maxRetries, 0, Connected(o, start));
    }
  }

  /**
   Once any reading is at or past the deadline, nothing is sent any more: in no later attempt, and
   after no backoff.
   */
  lemma NoSendPastDeadline(x: Executor, o: Oracle, start: real, i: nat, j: nat)
    requires x.deadline.Some? && Forward(o) && i < j < |LogOf(x, o, start)|
    requires LogOf(x, o, start)[i].Clock? && LogOf(x, o, start)[i].time >= x.deadline.value
    ensures !IsSend(LogOf(x, o, start)[j])
  {
    ExecutionDisciplined(x, o, start);
    ReadingsInOrder(x, o, start);
    assert IsSend(LogOf(x, o, start)[j]) ==> FollowsReading(LogOf(x, o, start), j);
  }

  /**
   A receipt wait that starts at reading `t` may last the receipt timeout, or, if that is less, what
   is left until the deadline, and a second if less than that is left.
   */
  lemma WaitEndsInTime(x: Executor, o: Oracle, start: real, j: nat)
    requires j < |LogOf(x, o, start)| && LogOf(x, o, start)[j].Waited?
    ensures FollowsReading(LogOf(x, o, start), j) && LogOf(x, o, start)[j].start == LogOf(x, o, start)[j - 1].time
    ensures var e := LogOf(x, o, start)[j];
            && e.timeout <= x.receiptTimeout
            && (x.deadline.None? ==> e.timeout == x.receiptTimeout)
            && (x.deadline.Some? ==>
                  && (e.start + e.timeout <= x.deadline.value || e.timeout <= 1.0)
                  && (e.timeout == x.receiptTimeout
                      || (e.start + e.timeout >= x.deadline.value && e.timeout >= 1.0)))
  {
    ExecutionDisciplined(x, o, start);
  }
}
