/** What every execution guarantees, for every answer of the node, the clock and the other threads. */
module TxProperties {
  import opened Prelude
  import opened TxExecution

  // ----- reservations are conserved -----

  /** What an execution owns: nothing, one unresolved reservation, or it broke the discipline. */
  datatype Hold = Free | Owns(nonce: nat) | Broken

  /** Reserve only when free; broadcast or release only what is owned; reset only when free. */
  function NextHold(h: Hold, e: Event): Hold {
    match e
    case Reserved(n) => if h.Free? then Owns(n) else Broken
    case Released(n) => if h == Owns(n) then Free else Broken
    case Broadcast(n, _, _, _) => if h == Owns(n) then Free else Broken
    case SendFailed(n) => if h == Owns(n) then h else Broken
    case CacheReset => if h.Free? then Free else Broken
    case _ => h
  }

  function Track(h: Hold, log: seq<Event>): Hold
    decreases |log|
  {
    if log == [] then h else Track(NextHold(h, log[0]), log[1..])
  }

  lemma {:induction false} TrackAppend(h: Hold, a: seq<Event>, b: seq<Event>)
    ensures Track(h, a + b) == Track(Track(h, a), b)
    decreases |a|
  {
    if a == [] {
      assert a + b == b;
    } else {
      assert (a + b)[1..] == a[1..] + b;
      TrackAppend(NextHold(h, a[0]), a[1..], b);
    }
  }

  lemma TrackSnoc(h: Hold, a: seq<Event>, e: Event)
    ensures Track(h, a + [e]) == NextHold(Track(h, a), e)
  {
    TrackAppend(h, a, [e]);
  }

  predicate Neutral(e: Event) { e.Clock? || e.Built? || e.Signed? || e.Waited? || e.Slept? }

  predicate AllNeutral(log: seq<Event>) { forall e | e in log :: Neutral(e) }

  lemma {:induction false} TrackNeutral(h: Hold, log: seq<Event>)
    requires AllNeutral(log)
    ensures Track(h, log) == h
    decreases |log|
  {
    if log != [] {
      assert log[0] in log;
      TrackNeutral(h, log[1..]);
    }
  }

  lemma SendTracks(x: Executor, o: Oracle, k: nat, nonce: nat, now: real)
    ensures Track(Owns(nonce), Send(x, o, k, nonce, now).log) == Free
  {
    var ready := Prepare(x, o, k, now);
    TrackNeutral(Owns(nonce), ready.log);
    if ready.result.Some? {
      TrackSnoc(Owns(nonce), ready.log, Released(nonce));
    } else if o.send(k).Ok? {
      TrackSnoc(Owns(nonce), ready.log, Broadcast(nonce, x.call, o.send(k).value, ready.end));
    } else {
      TrackSnoc(Owns(nonce), ready.log, SendFailed(nonce));
      TrackSnoc(Owns(nonce), ready.log + [SendFailed(nonce)], Released(nonce));
    }
  }

  lemma ConfirmNeutral(x: Executor, o: Oracle, k: nat, hash: string, now: real)
    ensures AllNeutral(Confirm(x, o, k, hash, now).log)
  {
  }

  /** The handlers reset the entry at most once and pause at most once, the latter only for another attempt. */
  lemma RecoverShape(x: Executor, o: Oracle, k: nat, nonce: nat, exc: Exc, broadcast: bool, now: real)
    returns (pause: Event)
    ensures pause.Slept? && pause.seconds <= UNDERPRICED_BACKOFF
    ensures var t := Recover(x, o, k, nonce, exc, broadcast, now);
            && (t.log == [] || t.log == [CacheReset]
                || (k + 1 < x.maxRetries && (t.log == [pause] || t.log == [CacheReset] + [pause])))
            && (t.result.Retry? ==> k + 1 < x.maxRetries)
  {
    var seconds := if Classify(exc.Message()).Underpriced? then UNDERPRICED_BACKOFF else TRANSIENT_BACKOFF;
    pause := Pause(o, k, seconds, now + o.took(Handling, k)).log[0];
  }

  lemma RecoverTracks(x: Executor, o: Oracle, k: nat, nonce: nat, exc: Exc, broadcast: bool, now: real)
    ensures Track(Free, Recover(x, o, k, nonce, exc, broadcast, now).log) == Free
  {
    var pause := RecoverShape(x, o, k, nonce, exc, broadcast, now);
    TrackSnoc(Free, [], CacheReset);
    TrackSnoc(Free, [CacheReset], pause);
    TrackNeutral(Free, [pause]);
    assert [] + [CacheReset] == [CacheReset];
  }

  lemma TransactTracks(x: Executor, o: Oracle, k: nat, nonce: nat, now: real)
    ensures Track(Owns(nonce), Transact(x, o, k, nonce, now).log) == Free
  {
    var sent := Send(x, o, k, nonce, now);
    SendTracks(x, o, k, nonce, now);
    if sent.result.Err? {
      RecoverTracks(x, o, k, nonce, sent.result.error, false, sent.end);
      TrackAppend(Owns(nonce), sent.log, Recover(x, o, k, nonce, sent.result.error, false, sent.end).log);
    } else {
      var confirmed := Confirm(x, o, k, sent.result.value, sent.end);
      ConfirmNeutral(x, o, k, sent.result.value, sent.end);
      TrackNeutral(Free, confirmed.log);
      TrackAppend(Owns(nonce), sent.log, confirmed.log);
      if confirmed.result.Err? {
        RecoverTracks(x, o, k, nonce, confirmed.result.error, true, confirmed.end);
        TrackAppend(Owns(nonce), sent.log + confirmed.log,
                    Recover(x, o, k, nonce, confirmed.result.error, true, confirmed.end).log);
      }
    }
  }

  lemma AttemptTracks(x: Executor, o: Oracle, k: nat, now: real)
    ensures Track(Free, Attempt(x, o, k, now).log) == Free
  {
    var entry := EntryLog(x, o, k, now);
    TrackNeutral(Free, entry);
    if !Late(x, EntryTime(o, k, now)) && o.reserve(k).Ok? {
      var nonce := o.reserve(k).value;
      TrackSnoc(Free, entry, Reserved(nonce));
      TransactTracks(x, o, k, nonce, ReservedTime(o, k, now));
      TrackAppend(Free, entry + [Reserved(nonce)], Transact(x, o, k, nonce, ReservedTime(o, k, now)).log);
    }
  }

  lemma {:induction false} LoopTracks(tries: Tries, limit: nat, k: nat, now: real)
    requires k <= limit && forall j: nat, t: real :: Track(Free, tries(j, t).log) == Free
    ensures Track(Free, Loop(tries, limit, k, now).log) == Free
    decreases limit - k
  {
    if k < limit && tries(k, now).result.Retry? {
      var end := tries(k, now).end;
      LoopTracks(tries, limit, k + 1, end);
      TrackAppend(Free, tries(k, now).log, Loop(tries, limit, k + 1, end).log);
    }
  }

  /**
   On every path, interrupts included: each reservation is broadcast or handed back
   before the next one is taken, resets happen only in between, and nothing is owned at the end.
   */
  lemma ReservationsConserved(x: Executor, o: Oracle, start: real)
    ensures Track(Free, LogOf(x, o, start)) == Free
  {
    if o.connect.None? {
      var tries := TriesOf(x, o);
      forall j: nat, t: real ensures Track(Free, tries(j, t).log) == Free {
        AttemptTracks(x, o, j, t);
      }
      LoopTracks(tries, x.maxRetries, 0, Connected(o, start));
    }
  }

  lemma {:induction false} BrokenStays(log: seq<Event>)
    ensures Track(Broken, log) == Broken
    decreases |log|
  {
    if log != [] {
      BrokenStays(log[1..]);
    }
  }

  /** At no moment does an execution own more than one reservation. */
  lemma NeverBroken(x: Executor, o: Oracle, start: real, i: nat)
    requires i <= |LogOf(x, o, start)|
    ensures !Track(Free, LogOf(x, o, start)[..i]).Broken?
  {
    var log := LogOf(x, o, start);
    ReservationsConserved(x, o, start);
    TrackAppend(Free, log[..i], log[i..]);
    assert log[..i] + log[i..] == log;
    if Track(Free, log[..i]).Broken? {
      BrokenStays(log[i..]);
    }
  }

  // ----- counting -----

  /** What is being counted; sleeping counts seconds, blips the one-second pauses after transport errors. */
  datatype Kind = Reserves | Broadcasts | Releases | Sleeping | Blips

  function Weight(kind: Kind, e: Event): nat {
    match kind
    case Reserves => if e.Reserved? then 1 else 0
    case Broadcasts => if e.Broadcast? then 1 else 0
    case Releases => if e.Released? then 1 else 0
    case Sleeping => if e.Slept? then e.seconds else 0
    case Blips => if e.Slept? && e.seconds == TRANSIENT_BACKOFF then 1 else 0
  }

  function Count(kind: Kind, log: seq<Event>): nat
    decreases |log|
  {
    if log == [] then 0 else Weight(kind, log[0]) + Count(kind, log[1..])
  }

  lemma {:induction false} CountAppend(kind: Kind, a: seq<Event>, b: seq<Event>)
    ensures Count(kind, a + b) == Count(kind, a) + Count(kind, b)
    decreases |a|
  {
    if a == [] {
      assert a + b == b;
    } else {
      assert (a + b)[1..] == a[1..] + b;
      CountAppend(kind, a[1..], b);
    }
  }

  lemma CountSnoc(kind: Kind, a: seq<Event>, e: Event)
    ensures Count(kind, a + [e]) == Count(kind, a) + Weight(kind, e)
  {
    CountAppend(kind, a, [e]);
    assert [e][1..] == [];
  }

  lemma {:induction false} CountNothing(kind: Kind, log: seq<Event>)
    requires forall e | e in log :: Weight(kind, e) == 0
    ensures Count(kind, log) == 0
    decreases |log|
  {
    if log != [] {
      assert log[0] in log;
      CountNothing(kind, log[1..]);
    }
  }

  /** A log that keeps the reservation discipline balances. */
  lemma {:induction false} TrackBalances(h: Hold, log: seq<Event>)
    requires Track(h, log) == Free
    ensures Count(Reserves, log) + (if h.Owns? then 1 else 0) == Count(Broadcasts, log) + Count(Releases, log)
    decreases |log|
  {
    if log == [] {
    } else {
      var h' := NextHold(h, log[0]);
      if h'.Broken? {
        BrokenStays(log[1..]);
      }
      TrackBalances(h', log[1..]);
    }
  }

  /** Reserves equal broadcasts plus releases. */
  lemma ReservationsBalance(x: Executor, o: Oracle, start: real)
    ensures var log := LogOf(x, o, start);
            Count(Reserves, log) == Count(Broadcasts, log) + Count(Releases, log)
  {
    ReservationsConserved(x, o, start);
    TrackBalances(Free, LogOf(x, o, start));
  }

  lemma SendCounts(kind: Kind, x: Executor, o: Oracle, k: nat, nonce: nat, now: real)
    requires !kind.Releases?
    ensures var sent := Send(x, o, k, nonce, now);
            Count(kind, sent.log) == if sent.result.Ok? && kind.Broadcasts? then 1 else 0
  {
    var ready := Prepare(x, o, k, now);
    CountNothing(kind, ready.log);
    if ready.result.Some? {
      CountSnoc(kind, ready.log, Released(nonce));
    } else if o.send(k).Ok? {
      CountSnoc(kind, ready.log, Broadcast(nonce, x.call, o.send(k).value, ready.end));
    } else {
      CountSnoc(kind, ready.log, SendFailed(nonce));
      CountSnoc(kind, ready.log + [SendFailed(nonce)], Released(nonce));
    }
  }

  lemma OnePause(kind: Kind, pause: Event)
    requires pause.Slept?
    ensures Count(kind, [CacheReset]) == 0
    ensures Count(kind, [pause]) == Count(kind, [CacheReset] + [pause]) == Weight(kind, pause)
  {
    CountNothing(kind, [CacheReset]);
    CountSnoc(kind, [CacheReset], pause);
    assert [pause][1..] == [];
  }

  /** The most one pause can add to a count. */
  function PauseWeight(kind: Kind): nat {
    if kind.Sleeping? then UNDERPRICED_BACKOFF else if kind.Blips? then 1 else 0
  }

  lemma RecoverCounts(kind: Kind, x: Executor, o: Oracle, k: nat, nonce: nat, exc: Exc, broadcast: bool, now: real)
    ensures var t := Recover(x, o, k, nonce, exc, broadcast, now);
            && Count(kind, t.log) <= (if k + 1 < x.maxRetries then PauseWeight(kind) else 0)
            && (t.result.Retry? ==> k + 1 < x.maxRetries)
  {
    var pause := RecoverShape(x, o, k, nonce, exc, broadcast, now);
    OnePause(kind, pause);
  }

  // ----- broadcasting twice -----

  /** The exception, if any, that strikes attempt `k` once its transaction is out under this hash. */
  function AfterBroadcast(o: Oracle, k: nat, hash: string): Option<Exc> {
    match o.wait(k, hash)
    case Err(e) => if e.TimeExhausted? then None else Some(e)
    case Ok(r) => if r.status != 1 then None else o.wrap(k)
  }

  /** An error that the handler takes for a nonce or gas price problem. */
  predicate TakenForCollision(e: Exc) {
    (e.Ordinary? || e.TimeExhausted?) && (Classify(e.Message()).Nonce? || Classify(e.Message()).Underpriced?)
  }

  predicate TakenForBlip(e: Exc) {
    (e.Ordinary? || e.TimeExhausted?) && Classify(e.Message()).Transient?
  }

  /** Attempt `k`, having broadcast under this hash, would be taken for one that had not. */
  predicate Recollides(o: Oracle, k: nat, hash: string) {
    AfterBroadcast(o, k, hash).Some? && TakenForCollision(AfterBroadcast(o, k, hash).value)
  }

  /** The handler comes to a pause, or to none, that is not interrupted. */
  predicate Undisturbed(o: Oracle, k: nat, e: Exc) {
    Classify(e.Message()).Nonce? || o.interrupt(k).None?
  }

  lemma RecoverRetriesExactly(x: Executor, o: Oracle, k: nat, nonce: nat, exc: Exc, broadcast: bool, now: real)
    ensures Recover(x, o, k, nonce, exc, broadcast, now).result.Retry?
            <==> && k + 1 < x.maxRetries && (TakenForCollision(exc) || (TakenForBlip(exc) && !broadcast))
                 && Undisturbed(o, k, exc)
  {
  }

  /** A failure after the broadcast is retried exactly when it reads as a collision and an attempt is left. */
  lemma ConfirmFails(x: Executor, o: Oracle, k: nat, nonce: nat, hash: string, now: real)
    requires Confirm(x, o, k, hash, now).result.Err?
    ensures var confirmed := Confirm(x, o, k, hash, now);
            Recover(x, o, k, nonce, confirmed.result.error, true, confirmed.end).result.Retry?
            <==> && Recollides(o, k, hash) && k + 1 < x.maxRetries
                 && Undisturbed(o, k, AfterBroadcast(o, k, hash).value)
  {
    var confirmed := Confirm(x, o, k, hash, now);
    RecoverRetriesExactly(x, o, k, nonce, confirmed.result.error, true, confirmed.end);
  }

  /** The most an attempt can add to a count. */
  function Allowance(kind: Kind, another: bool): nat {
    if kind.Sleeping? || kind.Blips? then (if another then PauseWeight(kind) else 0) else 1
  }

  lemma TransactCounts(kind: Kind, x: Executor, o: Oracle, k: nat, nonce: nat, now: real)
    requires !kind.Releases?
    ensures var t := Transact(x, o, k, nonce, now);
            && Count(kind, t.log) <= (if kind.Reserves? then 0 else Allowance(kind, k + 1 < x.maxRetries))
            && (t.result.Retry? ==> k + 1 < x.maxRetries)
            && (t.result.Retry? && kind.Broadcasts? && Count(kind, t.log) == 1 ==>
                  o.send(k).Ok? && Recollides(o, k, o.send(k).value))
  {
    var sent := Send(x, o, k, nonce, now);
    SendCounts(kind, x, o, k, nonce, now);
    if sent.result.Err? {
      RecoverCounts(kind, x, o, k, nonce, sent.result.error, false, sent.end);
      CountAppend(kind, sent.log, Recover(x, o, k, nonce, sent.result.error, false, sent.end).log);
    } else {
      var confirmed := Confirm(x, o, k, sent.result.value, sent.end);
      CountNothing(kind, confirmed.log);
      CountAppend(kind, sent.log, confirmed.log);
      if confirmed.result.Err? {
        RecoverCounts(kind, x, o, k, nonce, confirmed.result.error, true, confirmed.end);
        ConfirmFails(x, o, k, nonce, sent.result.value, sent.end);
        CountAppend(kind, sent.log + confirmed.log,
                    Recover(x, o, k, nonce, confirmed.result.error, true, confirmed.end).log);
      }
    }
  }

  /** An attempt reserves at most once, and is retried after a broadcast only on a mistaken collision. */
  lemma AttemptCounts(kind: Kind, x: Executor, o: Oracle, k: nat, now: real)
    requires !kind.Releases?
    ensures var t := Attempt(x, o, k, now);
            && Count(kind, t.log) <= Allowance(kind, k + 1 < x.maxRetries)
            && (t.result.Retry? ==> k + 1 < x.maxRetries)
            && (t.result.Retry? && kind.Reserves? ==> Count(kind, t.log) == 1)
            && (t.result.Retry? && kind.Broadcasts? && Count(kind, t.log) == 1 ==>
                  o.send(k).Ok? && Recollides(o, k, o.send(k).value))
  {
    var entry := EntryLog(x, o, k, now);
    CountNothing(kind, entry);
    if !Late(x, EntryTime(o, k, now)) && o.reserve(k).Ok? {
      var nonce, reserved := o.reserve(k).value, ReservedTime(o, k, now);
      CountSnoc(kind, entry, Reserved(nonce));
      TransactCounts(kind, x, o, k, nonce, reserved);
      CountAppend(kind, entry + [Reserved(nonce)], Transact(x, o, k, nonce, reserved).log);
    }
  }

  /** A retried attempt adds its own count to that of the rest of the loop. */
  lemma CountLoop(kind: Kind, tries: Tries, limit: nat, k: nat, now: real)
    requires k < limit && tries(k, now).result.Retry?
    ensures var rest := Loop(tries, limit, k + 1, tries(k, now).end);
            && Count(kind, Loop(tries, limit, k, now).log) == Count(kind, tries(k, now).log) + Count(kind, rest.log)
            && Loop(tries, limit, k, now).result == rest.result
  {
    CountAppend(kind, tries(k, now).log, Loop(tries, limit, k + 1, tries(k, now).end).log);
  }

  /** Attempts that stay within their allowance, and retry only if there is another attempt. */
  predicate Modest(kind: Kind, limit: nat, k: nat, t: Try) {
    && Count(kind, t.log) <= Allowance(kind, k + 1 < limit)
    && (t.result.Retry? ==> k + 1 < limit)
    && t.result != Stop(FellThrough)
  }

  lemma {:induction false} LoopReserves(tries: Tries, limit: nat, k: nat, now: real)
    requires k <= limit && forall j: nat, t: real :: Modest(Reserves, limit, j, tries(j, t))
    ensures Count(Reserves, Loop(tries, limit, k, now).log) <= limit - k
    decreases limit - k
  {
    if k < limit {
      assert Modest(Reserves, limit, k, tries(k, now));
      if tries(k, now).result.Retry? {
        LoopReserves(tries, limit, k + 1, tries(k, now).end);
        CountLoop(Reserves, tries, limit, k, now);
      }
    }
  }

  lemma {:induction false} LoopSleeps(tries: Tries, limit: nat, k: nat, now: real)
    requires k < limit && forall j: nat, t: real :: Modest(Sleeping, limit, j, tries(j, t))
    ensures Count(Sleeping, Loop(tries, limit, k, now).log) <= UNDERPRICED_BACKOFF * (limit - k - 1)
    decreases limit - k
  {
    assert Modest(Sleeping, limit, k, tries(k, now));
    if tries(k, now).result.Retry? {
      LoopSleeps(tries, limit, k + 1, tries(k, now).end);
      CountLoop(Sleeping, tries, limit, k, now);
    }
  }

  lemma {:induction false} LoopBlips(tries: Tries, limit: nat, k: nat, now: real)
    requires k < limit && forall j: nat, t: real :: Modest(Blips, limit, j, tries(j, t))
    ensures Count(Blips, Loop(tries, limit, k, now).log) <= limit - k - 1
    decreases limit - k
  {
    assert Modest(Blips, limit, k, tries(k, now));
    if tries(k, now).result.Retry? {
      LoopBlips(tries, limit, k + 1, tries(k, now).end);
      CountLoop(Blips, tries, limit, k, now);
    }
  }

  lemma {:induction false} LoopEnds(tries: Tries, limit: nat, k: nat, now: real)
    requires k < limit && forall j: nat, t: real :: Modest(Reserves, limit, j, tries(j, t))
    ensures !Loop(tries, limit, k, now).result.FellThrough?
    decreases limit - k
  {
    assert Modest(Reserves, limit, k, tries(k, now));
    if tries(k, now).result.Retry? {
      LoopEnds(tries, limit, k + 1, tries(k, now).end);
    }
  }

  lemma AttemptsModest(kind: Kind, x: Executor, o: Oracle)
    requires !kind.Releases?
    ensures forall j: nat, t: real :: Modest(kind, x.maxRetries, j, TriesOf(x, o)(j, t))
  {
    forall j: nat, t: real ensures Modest(kind, x.maxRetries, j, TriesOf(x, o)(j, t)) {
      AttemptCounts(kind, x, o, j, t);
      AttemptNeverFallsThrough(x, o, j, t);
    }
  }

  lemma AttemptNeverFallsThrough(x: Executor, o: Oracle, k: nat, now: real)
    ensures Attempt(x, o, k, now).result != Stop(FellThrough)
  {
  }

  /**
   At most `maxRetries` reservations, at most five seconds of sleep between two attempts, at most one
   blip before each further attempt, and the code after the loop is never reached.
   */
  lemma ExecutionBounded(x: Executor, o: Oracle, start: real)
    requires x.maxRetries >= 1
    ensures Count(Reserves, LogOf(x, o, start)) <= x.maxRetries
    ensures Count(Sleeping, LogOf(x, o, start)) <= 5 * (x.maxRetries - 1)
    ensures Count(Blips, LogOf(x, o, start)) <= x.maxRetries - 1
    ensures !OutcomeOf(x, o, start).FellThrough?
  {
    if o.connect.None? {
      var tries, now := TriesOf(x, o), Connected(o, start);
      AttemptsModest(Reserves, x, o);
      AttemptsModest(Sleeping, x, o);
      AttemptsModest(Blips, x, o);
      LoopReserves(tries, x.maxRetries, 0, now);
      LoopSleeps(tries, x.maxRetries, 0, now);
      LoopBlips(tries, x.maxRetries, 0, now);
      LoopEnds(tries, x.maxRetries, 0, now);
    }
  }

  /** An attempt that may broadcast, but is not retried after it did. */
  predicate Final(t: Try) {
    Count(Broadcasts, t.log) <= if t.result.Retry? then 0 else 1
  }

  lemma {:induction false} LoopBroadcastsOnce(tries: Tries, limit: nat, k: nat, now: real)
    requires k <= limit && forall j, t: real | k <= j < limit :: Final(tries(j, t))
    ensures Count(Broadcasts, Loop(tries, limit, k, now).log) <= 1
    decreases limit - k
  {
    if k < limit {
      assert Final(tries(k, now));
      if tries(k, now).result.Retry? {
        LoopBroadcastsOnce(tries, limit, k + 1, tries(k, now).end);
        CountLoop(Broadcasts, tries, limit, k, now);
      }
    }
  }

  /** Some attempt with another one to come would, having broadcast, be taken for one that had not. */
  ghost predicate SomeRecollides(x: Executor, o: Oracle) {
    exists k, hash | 0 <= k < x.maxRetries - 1 :: Recollides(o, k, hash)
  }

  /** Without an error mistaken for a collision, one execution puts at most one transaction on the wire. */
  lemma BroadcastsAtMostOnce(x: Executor, o: Oracle, start: real)
    requires forall k | 0 <= k < x.maxRetries - 1 && o.send(k).Ok? :: !Recollides(o, k, o.send(k).value)
    ensures Count(Broadcasts, LogOf(x, o, start)) <= 1
  {
    if o.connect.None? {
      forall j, t: real | 0 <= j < x.maxRetries ensures Final(TriesOf(x, o)(j, t)) {
        AttemptCounts(Broadcasts, x, o, j, t);
      }
      LoopBroadcastsOnce(TriesOf(x, o), x.maxRetries, 0, Connected(o, start));
    }
  }
}
