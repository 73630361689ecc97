/**
 `client.publish_task`: resolve the signer, refuse an expired task, pin its configuration, refuse
 again, and run the transaction with the pin's link in it, all under one optional budget.
 */
module PublishTask {
  import opened Prelude
  import opened Errors
  import TxBudget
  import Ipfs = IpfsPublish
  import Tx = TxExecution
  import TxProperties
  import TxDeadline
  import TxOutcomes
  import TxResults
  import TxRetries

  datatype TaskInfo = TaskInfo(source: string, expiryTime: int, payment: int)

  datatype TaskParams = TaskParams(source: string, config: string, expiryTime: int, payment: int) {
    function ToTuple(): seq<Tx.Arg> {
      [Tx.Text(source), Tx.Text(config), Tx.Number(expiryTime), Tx.Number(payment)]
    }
  }

  datatype Settings = Settings(ipfsTimeout: real, ipfsRetries: int, ipfsBackoff: real,
                               receiptTimeout: real, totalTimeout: Option<real>)

  /** What one call meets: signer and contract lookups, wall-clock readings, the endpoint, the node. */
  datatype World = World(
    called: real,                    // time.monotonic() on entry
    resolve: Result<string, Tx.Exc>, // the signer's address
    resolveTook: real,
    wallAtStart: int,                // int(time.time()) at the first expiry check
    config: Option<Tx.Exc>,          // the task input's own dump
    encodeTook: real,
    network: Ipfs.Network,
    validate: Option<Tx.Exc>,        // the checks of the on-chain parameters
    wallAfterPin: int,               // int(time.time()) at the second expiry check
    load: Option<Tx.Exc>,            // the controller's own lookups
    loadTook: real,
    contract: string,
    oracle: Tx.Oracle,
    extract: Tx.Receipt -> Result<string, Tx.Exc>, // the task a receipt yields
    extractTook: real)

  datatype Event =
    | ExpiryChecked(wall: int)
    | PinCalled(run: Ipfs.PinRun)
    | TxRun(executor: Tx.Executor, start: real, log: seq<Tx.Event>)

  datatype Outcome = Published(task: string) | Raised(error: OgpuError) | Escaped(exc: Tx.Exc)

  datatype Call = Call(outcome: Outcome, log: seq<Event>, end: real)

  function DeadlineOf(st: Settings, w: World): Option<real> {
    if st.totalTimeout.Some? then Some(w.called + st.totalTimeout.value) else None
  }

  function PinOf(st: Settings, w: World): Ipfs.Pin {
    Ipfs.Pin(st.ipfsTimeout, st.ipfsRetries, st.ipfsBackoff, DeadlineOf(st, w))
  }

  const DEFAULT_RETRIES: int := 3

  function ExecutorOf(params: TaskParams, st: Settings, w: World, signer: string): Tx.Executor {
    Tx.NewExecutor(w.contract, Tx.Call("publishTask", params.ToTuple(), 0), signer, Some("Controller.publishTask"),
                   DEFAULT_RETRIES, st.receiptTimeout, DeadlineOf(st, w), st.totalTimeout)
  }

  function Expired(info: TaskInfo): Outcome { Raised(TaskExpired("(not published)", info.expiryTime)) }

  function FromExc(e: Tx.Exc): Outcome { if e.Typed? then Raised(e.error) else Escaped(e) }

  function FromTx(out: Tx.Outcome, w: World): Outcome {
    match out
    case Raised(error) => Raised(error)
    case Escaped(exc) => Escaped(exc)
    case FellThrough => Escaped(Tx.Ordinary("after the loop"))
    case Returned(receipt) =>
      var task := w.extract(receipt);
      if task.Ok? then Published(task.value) else FromExc(task.error)
  }

  /** The parameters that go on chain, given the pin's link. */
  function ParamsOf(info: TaskInfo, link: string): TaskParams {
    TaskParams(info.source, link, info.expiryTime, info.payment)
  }

  function Resolved(w: World): real { w.called + w.resolveTook }

  function PinStart(w: World): real { Resolved(w) + w.encodeTook }

  function PinRunOf(st: Settings, w: World): Ipfs.PinRun { Ipfs.PinAt(PinOf(st, w), w.network, PinStart(w)) }

  /** When the executor would start. */
  function TxStart(st: Settings, w: World): real { PinRunOf(st, w).end + w.loadTook }

  /** The executor the call would use, given the pin's link. */
  function ExecutorFor(info: TaskInfo, st: Settings, w: World, link: string, signer: string): Tx.Executor {
    ExecutorOf(ParamsOf(info, link), st, w, signer)
  }

  /** The whole call as a function of what it meets. */
  function Run(info: TaskInfo, st: Settings, w: World): Call {
    if w.resolve.Err? then Call(FromExc(w.resolve.error), [], Resolved(w))
    else if info.expiryTime <= w.wallAtStart then Call(Expired(info), [ExpiryChecked(w.wallAtStart)], Resolved(w))
    else if w.config.Some? then Call(FromExc(w.config.value), [ExpiryChecked(w.wallAtStart)], PinStart(w))
    else
      var pin := PinRunOf(st, w);
      var log := [ExpiryChecked(w.wallAtStart), PinCalled(pin)];
      match pin.result
      case Failed(error) => Call(Raised(error), log, pin.end)
      case Escaped(name) => Call(Escaped(Tx.Ordinary(name)), log, pin.end)
      case Pinned(link) => AfterPin(info, st, w, link, log)
  }

  /** The call from a successful pin on. */
  function AfterPin(info: TaskInfo, st: Settings, w: World, link: string, before: seq<Event>): Call
    requires w.resolve.Ok?
  {
    var end, log := PinRunOf(st, w).end, before + [ExpiryChecked(w.wallAfterPin)];
    if w.validate.Some? then Call(FromExc(w.validate.value), before, end)
    else if info.expiryTime <= w.wallAfterPin then Call(Expired(info), log, end)
    else if w.load.Some? then Call(FromExc(w.load.value), log, TxStart(st, w))
    else
      var x := ExecutorFor(info, st, w, link, w.resolve.value);
      var run := Tx.Run(x, w.oracle, TxStart(st, w));
      Call(FromTx(run.result, w), log + [TxRun(x, TxStart(st, w), run.log)],
           if run.result.Returned? then run.end + w.extractTook else run.end)
  }

  function LogOf(info: TaskInfo, st: Settings, w: World): seq<Event> { Run(info, st, w).log }

  method Publish(info: TaskInfo, st: Settings, w: World) returns (outcome: Outcome, log: seq<Event>, now: real)
    ensures Call(outcome, log, now) == Run(info, st, w)
  {
    var deadline := DeadlineOf(st, w);
    now := w.called + w.resolveTook;
    if w.resolve.Err? {
      return FromExc(w.resolve.error), [], now;
    }
    var account := w.resolve.value;
    log := [ExpiryChecked(w.wallAtStart)];
    if info.expiryTime <= w.wallAtStart {
      return Expired(info), log, now;
    }
    now := now + w.encodeTook;
    if w.config.Some? {
      return FromExc(w.config.value), log, now;
    }
    var pin := Ipfs.Pin(st.ipfsTimeout, st.ipfsRetries, st.ipfsBackoff, deadline);
    var pinned, pinLog, pinEnd := Ipfs.PublishToIpfs(pin, w.network, now);
    log, now := log + [PinCalled(Ipfs.PinRun(pinLog, pinned, pinEnd))], pinEnd;
    if pinned.Failed? {
      return Raised(pinned.error), log, now;
    }
    if pinned.Escaped? {
      return Escaped(Tx.Ordinary(pinned.name)), log, now;
    }
    if w.validate.Some? {
      return FromExc(w.validate.value), log, now;
    }
    var params := TaskParams(info.source, pinned.link, info.expiryTime, info.payment);
    log := log + [ExpiryChecked(w.wallAfterPin)];
    if info.expiryTime <= w.wallAfterPin {
      return Expired(info), log, now;
    }
    now := now + w.loadTook;
    if w.load.Some? {
      return FromExc(w.load.value), log, now;
    }
    var executor := ExecutorOf(params, st, w, account);
    assert now == TxStart(st, w);
    var sent, txLog, end := Tx.Execute(executor, w.oracle, now);
    outcome, log := FromTx(sent, w), log + [TxRun(executor, now, txLog)];
    now := if sent.Returned? then end + w.extractTook else end;
  }

  // ----- what the pipeline promises -----

  /** The task was still alive at a wall-clock reading. */
  predicate AliveAt(info: TaskInfo, wall: int) { wall < info.expiryTime }

  /**
   A pin and an executor run only directly after an expiry reading that found the task alive; the
   executor only as the last thing, after exactly one pin, with the link that pin yielded.
   */
  lemma EffectsNeedLife(info: TaskInfo, st: Settings, w: World, j: nat)
    requires j < |LogOf(info, st, w)| && !LogOf(info, st, w)[j].ExpiryChecked?
    ensures var log := LogOf(info, st, w);
            && j > 0 && log[j - 1].ExpiryChecked? && AliveAt(info, log[j - 1].wall)
            && (log[j].PinCalled? <==> j == 1)
            && (log[j].TxRun? ==>
                  && |log| == 4 && j == 3
                  && log[1].PinCalled? && log[1].run.result.Pinned?
                  && log[3].executor == ExecutorFor(info, st, w, log[1].run.result.link, w.resolve.value)
                  && log[3].start == log[1].run.end + w.loadTook
                  && log[3].log == Tx.LogOf(log[3].executor, w.oracle, log[3].start))
  {
  }

  /** Every transaction put on the wire, by any of the executor's retries, carries the one pinned link. */
  lemma EverySendCarriesTheLink(info: TaskInfo, st: Settings, w: World, j: nat, i: nat)
    requires j < |LogOf(info, st, w)| && LogOf(info, st, w)[j].TxRun?
    requires i < |LogOf(info, st, w)[j].log| && LogOf(info, st, w)[j].log[i].Broadcast?
    ensures |LogOf(info, st, w)| == 4 && LogOf(info, st, w)[1].PinCalled? && LogOf(info, st, w)[1].run.result.Pinned?
    ensures LogOf(info, st, w)[j].log[i].call.args
            == [Tx.Text(info.source), Tx.Text(LogOf(info, st, w)[1].run.result.link),
                Tx.Number(info.expiryTime), Tx.Number(info.payment)]
  {
    EffectsNeedLife(info, st, w, j);
    BroadcastsCarryTheCall(LogOf(info, st, w)[3].executor, w.oracle, LogOf(info, st, w)[3].start, i);
  }

  /** Every broadcast of an execution carries the executor's own call. */
  predicate CarriesCall(call: Tx.Call, log: seq<Tx.Event>) {
    forall e | e in log && e.Broadcast? :: e.call == call
  }

  lemma SendCarriesCall(x: Tx.Executor, o: Tx.Oracle, k: nat, nonce: nat, now: real)
    ensures CarriesCall(x.call, Tx.Send(x, o, k, nonce, now).log)
  {
  }

  lemma TransactCarriesCall(x: Tx.Executor, o: Tx.Oracle, k: nat, nonce: nat, now: real)
    ensures CarriesCall(x.call, Tx.Transact(x, o, k, nonce, now).log)
  {
    var sent := Tx.Send(x, o, k, nonce, now);
    SendCarriesCall(x, o, k, nonce, now);
    if sent.result.Err? {
      var pause := TxProperties.RecoverShape(x, o, k, nonce, sent.result.error, false, sent.end);
    } else {
      var confirmed := Tx.Confirm(x, o, k, sent.result.value, sent.end);
      TxProperties.ConfirmNeutral(x, o, k, sent.result.value, sent.end);
      if confirmed.result.Err? {
        var pause := TxProperties.RecoverShape(x, o, k, nonce, confirmed.result.error, true, confirmed.end);
      }
    }
  }

  lemma AttemptCarriesCall(x: Tx.Executor, o: Tx.Oracle, k: nat, now: real)
    ensures CarriesCall(x.call, Tx.Attempt(x, o, k, now).log)
  {
    if o.reserve(k).Ok? {
      TransactCarriesCall(x, o, k, o.reserve(k).value, Tx.ReservedTime(o, k, now));
    }
  }

  lemma {:induction false} LoopCarriesCall(call: Tx.Call, tries: Tx.Tries, limit: nat, k: nat, now: real)
    requires k <= limit && forall j: nat, t: real :: CarriesCall(call, tries(j, t).log)
    ensures CarriesCall(call, Tx.Loop(tries, limit, k, now).log)
    decreases limit - k
  {
    if k < limit {
      assert CarriesCall(call, tries(k, now).log);
      if tries(k, now).result.Retry? {
        LoopCarriesCall(call, tries, limit, k + 1, tries(k, now).end);
      }
    }
  }

  lemma BroadcastsCarryTheCall(x: Tx.Executor, o: Tx.Oracle, start: real, i: nat)
    requires i < |Tx.LogOf(x, o, start)| && Tx.LogOf(x, o, start)[i].Broadcast?
    ensures Tx.LogOf(x, o, start)[i].call == x.call
  {
    if o.connect.None? {
      forall j: nat, t: real ensures CarriesCall(x.call, Tx.TriesOf(x, o)(j, t).log) {
        AttemptCarriesCall(x, o, j, t);
      }
      LoopCarriesCall(x.call, Tx.TriesOf(x, o), x.maxRetries, 0, Tx.Connected(o, start));
    }
    assert Tx.LogOf(x, o, start)[i] in Tx.LogOf(x, o, start);
  }

  /**
   A call that yields a task got its address out of a receipt, and the receipt from the node, as its
   status-1 answer to the wait for a transaction that this very call sent.
   */
  lemma PublishedTaskWasMined(info: TaskInfo, st: Settings, w: World)
    requires Run(info, st, w).outcome.Published? && TxOutcomes.NodeErrorsOnly(w.oracle)
    ensures |LogOf(info, st, w)| == 4 && LogOf(info, st, w)[3].TxRun?
    ensures var e := LogOf(info, st, w)[3];
            var out := Tx.OutcomeOf(e.executor, w.oracle, e.start);
            && out.Returned? && w.extract(out.receipt) == Ok(Run(info, st, w).outcome.task)
            && exists n | 0 <= n < e.executor.maxRetries :: TxResults.ReceiptFrom(w.oracle, n, out.receipt)
  {
    var e := LogOf(info, st, w)[3];
    var out := Tx.OutcomeOf(e.executor, w.oracle, e.start);
    TxResults.ResultsNameSentTransactions(e.executor, w.oracle, e.start);
    var n :| 0 <= n < e.executor.maxRetries && TxResults.Traceable(e.executor, w.oracle, n, Tx.Stop(out));
    assert TxResults.ReceiptFrom(w.oracle, n, out.receipt);
  }

  // ----- raw exceptions -----

  predicate Raw(e: Tx.Exc) { !e.Typed? }

  /** The call gets to its payload, to its pin, past it, and to the executor. */
  predicate GetsToPayload(info: TaskInfo, w: World) { w.resolve.Ok? && AliveAt(info, w.wallAtStart) }

  predicate GetsToPin(info: TaskInfo, w: World) { GetsToPayload(info, w) && w.config.None? }

  predicate GetsALink(info: TaskInfo, st: Settings, w: World) { GetsToPin(info, w) && PinRunOf(st, w).result.Pinned? }

  predicate GetsPastPin(info: TaskInfo, st: Settings, w: World) {
    GetsALink(info, st, w) && w.validate.None? && AliveAt(info, w.wallAfterPin)
  }

  predicate GetsToExecutor(info: TaskInfo, st: Settings, w: World) { GetsPastPin(info, st, w) && w.load.None? }

  function ExecutorAt(info: TaskInfo, st: Settings, w: World): Tx.Executor
    requires GetsToExecutor(info, st, w)
  {
    ExecutorFor(info, st, w, PinRunOf(st, w).result.link, w.resolve.value)
  }

  /** The payload does not serialise, or the answers lead the pin to let an exception out. */
  ghost predicate PinAnswersEscape(st: Settings, w: World) {
    w.network.encode.Some?
    || exists k: Ipfs.Turn | k <= Ipfs.Attempts(PinOf(st, w)) ::
         Ipfs.AnswersEscape(PinOf(st, w), w.network, PinStart(w), k)
  }

  /** The node cannot be reached, or the answers lead the executor to let an exception out. */
  ghost predicate ExecutorAnswersEscape(info: TaskInfo, st: Settings, w: World)
    requires GetsToExecutor(info, st, w)
  {
    var x := ExecutorAt(info, st, w);
    w.oracle.connect.Some?
    || exists k | 0 <= k < x.maxRetries :: TxOutcomes.AnswersEscape(x, w.oracle, TxStart(st, w), k)
  }

  /** The executor returns a receipt that yields no task address. */
  predicate ReceiptIsRaw(info: TaskInfo, st: Settings, w: World)
    requires GetsToExecutor(info, st, w)
  {
    var out := Tx.OutcomeOf(ExecutorAt(info, st, w), w.oracle, TxStart(st, w));
    out.Returned? && w.extract(out.receipt).Err? && Raw(w.extract(out.receipt).error)
  }

  /**
   The SDK promises that no raw exception escapes a publish.  One does exactly when the signer lookup
   raises one, the task input does not dump or serialise, the pin ends on an answer it does not catch
   or on an interrupted sleep, the parameters are refused, the contract lookup raises one, the executor
   lets one out, or the receipt breaks the extraction of the task address.
   */
  lemma RawExceptionExactly(info: TaskInfo, st: Settings, w: World)
    ensures Run(info, st, w).outcome.Escaped?
            <==> || (w.resolve.Err? && Raw(w.resolve.error))
                 || (GetsToPayload(info, w) && w.config.Some? && Raw(w.config.value))
                 || (GetsToPin(info, w) && PinAnswersEscape(st, w))
                 || (GetsALink(info, st, w) && w.validate.Some? && Raw(w.validate.value))
                 || (GetsPastPin(info, st, w) && w.load.Some? && Raw(w.load.value))
                 || (GetsToExecutor(info, st, w)
                     && (ExecutorAnswersEscape(info, st, w) || ReceiptIsRaw(info, st, w)))
  {
    Ipfs.PinEscapesExactly(PinOf(st, w), w.network, PinStart(w));
    if GetsToExecutor(info, st, w) {
      var x := ExecutorAt(info, st, w);
      TxOutcomes.RawExceptionExactly(x, w.oracle, TxStart(st, w));
      TxProperties.ExecutionBounded(x, w.oracle, TxStart(st, w));
    }
  }

  // ----- what a call reports -----

  predicate Reports(out: Outcome, e: Tx.Exc) { out == if e.Typed? then Raised(e.error) else Escaped(e) }

  /** Without a signer, past the expiry, or with a task input that does not dump, the call ends before its pin. */
  lemma EarlyEndReported(info: TaskInfo, st: Settings, w: World)
    ensures var run, checked := Run(info, st, w), [ExpiryChecked(w.wallAtStart)];
            && (w.resolve.Err? ==>
                  Reports(run.outcome, w.resolve.error) && run.log == [] && run.end == w.called + w.resolveTook)
            && (w.resolve.Ok? && info.expiryTime <= w.wallAtStart ==>
                  && run.outcome == Raised(TaskExpired("(not published)", info.expiryTime))
                  && run.log == checked && run.end == w.called + w.resolveTook)
            && (GetsToPayload(info, w) && w.config.Some? ==>
                  && Reports(run.outcome, w.config.value) && run.log == checked
                  && run.end == w.called + w.resolveTook + w.encodeTook)
  {
  }

  /** The pin gets the caller's settings and what is left of the budget; an error out of it is the call's. */
  lemma PinFailureReported(info: TaskInfo, st: Settings, w: World)
    requires GetsToPin(info, w)
    ensures var deadline := if st.totalTimeout.Some? then Some(w.called + st.totalTimeout.value) else None;
            var pin := Ipfs.PinAt(Ipfs.Pin(st.ipfsTimeout, st.ipfsRetries, st.ipfsBackoff, deadline), w.network,
                                  w.called + w.resolveTook + w.encodeTook);
            var run, log := Run(info, st, w), [ExpiryChecked(w.wallAtStart), PinCalled(pin)];
            match pin.result
            case Failed(e) => run == Call(Raised(e), log, pin.end)
            case Escaped(name) => run == Call(Escaped(Tx.Ordinary(name)), log, pin.end)
            case Pinned(_) => GetsALink(info, st, w) && pin == PinRunOf(st, w) && log <= run.log
  {
  }

  /** With a link, refused parameters, a passed expiry or a failed lookup end the call before its executor. */
  lemma LateEndReported(info: TaskInfo, st: Settings, w: World)
    requires GetsALink(info, st, w)
    ensures var run, pin := Run(info, st, w), PinRunOf(st, w);
            var checked := [ExpiryChecked(w.wallAtStart), PinCalled(pin), ExpiryChecked(w.wallAfterPin)];
            && (w.validate.Some? ==>
                  && Reports(run.outcome, w.validate.value) && run.end == pin.end
                  && run.log == [ExpiryChecked(w.wallAtStart), PinCalled(pin)])
            && (w.validate.None? && info.expiryTime <= w.wallAfterPin ==>
                  run == Call(Raised(TaskExpired("(not published)", info.expiryTime)), checked, pin.end))
            && (GetsPastPin(info, st, w) && w.load.Some? ==>
                  Reports(run.outcome, w.load.value) && run.log == checked && run.end == pin.end + w.loadTook)
  {
  }

  /** The executor gets the task, its link, the signer, three attempts and the caller's deadline. */
  lemma ExecutorIsBuilt(info: TaskInfo, st: Settings, w: World)
    requires GetsToExecutor(info, st, w)
    ensures var args := [Tx.Text(info.source), Tx.Text(PinRunOf(st, w).result.link), Tx.Number(info.expiryTime),
                         Tx.Number(info.payment)];
            ExecutorAt(info, st, w)
            == Tx.Executor(Tx.Call("publishTask", args, 0), w.resolve.value, "Controller.publishTask", 3,
                           st.receiptTimeout,
                           if st.totalTimeout.Some? then Some(w.called + st.totalTimeout.value) else None,
                           st.totalTimeout)
  {
  }

  /** The executor runs last, and its errors are the call's, unchanged; its receipt is looked into for the task. */
  lemma ExecutionReported(info: TaskInfo, st: Settings, w: World)
    requires GetsToExecutor(info, st, w)
    ensures var run, pin, x := Run(info, st, w), PinRunOf(st, w), ExecutorAt(info, st, w);
            var sent := Tx.Run(x, w.oracle, pin.end + w.loadTook);
            && run.log == [ExpiryChecked(w.wallAtStart), PinCalled(pin), ExpiryChecked(w.wallAfterPin),
                           TxRun(x, pin.end + w.loadTook, sent.log)]
            && run.end == sent.end + (if sent.result.Returned? then w.extractTook else 0.0)
            && match sent.result
               case Raised(e) => run.outcome == Raised(e)
               case Escaped(e) => run.outcome == Escaped(e)
               case FellThrough => false
               case Returned(receipt) =>
                 match w.extract(receipt)
                 case Ok(task) => run.outcome == Published(task)
                 case Err(e) => Reports(run.outcome, e)
  {
    TxProperties.ExecutionBounded(ExecutorAt(info, st, w), w.oracle, TxStart(st, w));
  }

  // ----- the budget -----

  /** The pin and the transaction share one deadline, the caller's budget from the moment of the call. */
  lemma OneBudgetBindsBoth(info: TaskInfo, st: Settings, w: World, budget: real, j: nat)
    requires st.totalTimeout == Some(budget) && j < |LogOf(info, st, w)|
    ensures var e := LogOf(info, st, w)[j];
            && (e.PinCalled? ==> Ipfs.EndsBy(w.called + budget, e.run.log))
            && (e.TxRun? ==> TxDeadline.SendsChecked(w.called + budget, e.log))
  {
    var e := LogOf(info, st, w)[j];
    if e.PinCalled? {
      Ipfs.PinKeepsDeadline(PinOf(st, w), w.network, PinStart(w));
      assert e.run == PinRunOf(st, w);
    } else if e.TxRun? {
      EffectsNeedLife(info, st, w, j);
      TxDeadline.ExecutionDisciplined(e.executor, w.oracle, e.start);
    }
  }

  /**
   At most three reservations and ten seconds of backoff per call, whatever the settings, and no
   receipt wait longer than the caller's receipt timeout.
   */
  lemma PublishBounded(info: TaskInfo, st: Settings, w: World, j: nat)
    requires j < |LogOf(info, st, w)| && LogOf(info, st, w)[j].TxRun?
    ensures var log := LogOf(info, st, w)[j].log;
            && TxProperties.Count(TxProperties.Reserves, log) <= 3
            && TxProperties.Count(TxProperties.Sleeping, log) <= 10
            && forall i | 0 <= i < |log| && log[i].Waited? :: log[i].timeout <= st.receiptTimeout
  {
    EffectsNeedLife(info, st, w, j);
    var x, start := LogOf(info, st, w)[j].executor, LogOf(info, st, w)[j].start;
    TxProperties.ExecutionBounded(x, w.oracle, start);
    forall i | 0 <= i < |Tx.LogOf(x, w.oracle, start)| && Tx.LogOf(x, w.oracle, start)[i].Waited?
      ensures Tx.LogOf(x, w.oracle, start)[i].timeout <= st.receiptTimeout
    {
      TxDeadline.WaitEndsInTime(x, w.oracle, start, i);
    }
  }

  /** Lookups, posts and waits take no negative time; posts and waits keep to their timeouts. */
  ghost predicate Timely(st: Settings, w: World, log: seq<Event>) {
    && w.resolveTook >= 0.0 && w.encodeTook >= 0.0 && w.loadTook >= 0.0 && w.extractTook >= 0.0
    && (forall i: nat :: Ipfs.Forward(w.network, i)) && TxDeadline.Forward(w.oracle)
    && (forall e | e in log && e.PinCalled? :: Ipfs.HonoursTimeouts(e.run.log))
    && (forall e | e in log && e.TxRun? :: TxBudget.Honoured(e.log))
  }

  /** The granted receipt wait, and the pause before another attempt. */
  function Overrun(st: Settings): real { MinReal(st.receiptTimeout, 1.0) + 5.0 }

  /** The time a call spends outside posts, receipt waits and pauses. */
  function Slack(st: Settings, w: World): real {
    w.resolveTook + w.encodeTook + Ipfs.Slack(PinOf(st, w), w.network, 1) + w.loadTook
    + w.oracle.took(Tx.Connecting, 0) + TxBudget.SlackFrom(w.oracle, DEFAULT_RETRIES, 0) + w.extractTook
  }

  lemma PinEndsInBudget(info: TaskInfo, st: Settings, w: World, budget: real)
    requires st.totalTimeout == Some(budget) && budget >= 0.0 && GetsToPin(info, w)
    requires Timely(st, w, LogOf(info, st, w))
    ensures PinRunOf(st, w).end
            <= w.called + budget + w.resolveTook + w.encodeTook + Ipfs.Slack(PinOf(st, w), w.network, 1)
  {
    var e := LogOf(info, st, w)[1];
    assert e in LogOf(info, st, w) && e == PinCalled(PinRunOf(st, w));
    Ipfs.PinEndsInTime(PinOf(st, w), w.network, PinStart(w));
  }

  lemma ExecutorEndsInBudget(info: TaskInfo, st: Settings, w: World, budget: real)
    requires st.totalTimeout == Some(budget) && st.receiptTimeout >= 0.0 && GetsToExecutor(info, st, w)
    requires Timely(st, w, LogOf(info, st, w))
    ensures Tx.Run(ExecutorAt(info, st, w), w.oracle, TxStart(st, w)).end
            <= MaxReal(TxStart(st, w), w.called + budget) + Overrun(st)
               + w.oracle.took(Tx.Connecting, 0) + TxBudget.SlackFrom(w.oracle, DEFAULT_RETRIES, 0)
  {
    var e := LogOf(info, st, w)[3];
    assert e in LogOf(info, st, w) && e.TxRun?;
    TxBudget.OverrunBounded(ExecutorAt(info, st, w), w.oracle, TxStart(st, w));
  }

  lemma SlackParts(st: Settings, w: World, log: seq<Event>)
    requires Timely(st, w, log)
    ensures Ipfs.Slack(PinOf(st, w), w.network, 1) >= 0.0
    ensures w.oracle.took(Tx.Connecting, 0) >= 0.0 && TxBudget.SlackFrom(w.oracle, DEFAULT_RETRIES, 0) >= 0.0
  {
    Ipfs.SlackNonnegative(PinOf(st, w), w.network, 1);
    TxBudget.SlackForward(w.oracle, DEFAULT_RETRIES, 0);
    assert TxDeadline.IsForward(w.oracle, Tx.Connecting, 0);
  }

  /**
   With a total budget the whole call ends within it, one granted receipt wait of at most a second,
   one five second pause, and the time it spends outside posts, waits and pauses.
   */
  lemma CallEndsInBudget(info: TaskInfo, st: Settings, w: World, budget: real)
    requires st.totalTimeout == Some(budget) && budget >= 0.0 && st.receiptTimeout >= 0.0
    requires Timely(st, w, LogOf(info, st, w))
    ensures Run(info, st, w).end <= w.called + budget + Overrun(st) + Slack(st, w)
  {
    SlackParts(st, w, LogOf(info, st, w));
    if GetsToPin(info, w) {
      PinEndsInBudget(info, st, w, budget);
      if GetsToExecutor(info, st, w) {
        ExecutorEndsInBudget(info, st, w, budget);
      }
    }
  }

  // ----- that bound is exact -----

  /** The call gets to its executor by the deadline, and then only waits and pauses take time. */
  ghost predicate InstantFromExecutor(info: TaskInfo, st: Settings, w: World, deadline: real) {
    && GetsToExecutor(info, st, w) && TxStart(st, w) <= deadline
    && TxBudget.Instant(w.oracle) && w.extractTook == 0.0
  }

  /** Every such call ends by `overrun` past the budget. */
  ghost predicate CallsStayWithin(st: Settings, budget: real, overrun: real) {
    forall info: TaskInfo, w: World
      | InstantFromExecutor(info, st, w, w.called + budget) && Timely(st, w, LogOf(info, st, w)) ::
      Run(info, st, w).end <= w.called + budget + overrun
  }

  const ALIVE: TaskInfo := TaskInfo("source", 1, 0)

  /** The pin answers at once, the lookups take `loadTook`, and the executor meets `o`. */
  function FastPin(loadTook: real, o: Tx.Oracle): World {
    World(0.0, Ok("signer"), 0.0, 0, None, 0.0,
          Ipfs.Network(None, k => Ipfs.Response(200, Ipfs.Link("link")), k => 0.0, k => 0.0, k => 0.0, k => None),
          None, 0, None, loadTook, "contract", o, receipt => Ok("task"), 0.0)
  }

  lemma FastPinPins(st: Settings, loadTook: real, o: Tx.Oracle)
    requires st.totalTimeout.None? || st.totalTimeout.value > 0.0
    requires st.ipfsTimeout >= 0.0
    ensures var w := FastPin(loadTook, o);
            && PinRunOf(st, w).result == Ipfs.Pinned("link") && PinRunOf(st, w).end == 0.0
            && Ipfs.HonoursTimeouts(PinRunOf(st, w).log) && (forall i: nat :: Ipfs.Forward(w.network, i))
            && GetsToExecutor(ALIVE, st, w) && TxStart(st, w) == loadTook
  {
    var w := FastPin(loadTook, o);
    var p := PinOf(st, w);
    assert Ipfs.TriesOf(p, w.network)(1, 0.0)
        == Ipfs.Try([Ipfs.Posted(0.0, Ipfs.PostTimeout(p, 0.0), 0.0, w.network.answer(1))],
                    Ipfs.Decided(Ipfs.Pinned("link")), 0.0);
  }

  /** What makes a call that gets to its executor a timely one. */
  lemma TimelyCall(info: TaskInfo, st: Settings, w: World)
    requires GetsToExecutor(info, st, w) && TxDeadline.Forward(w.oracle) && forall i: nat :: Ipfs.Forward(w.network, i)
    requires w.resolveTook >= 0.0 && w.encodeTook >= 0.0 && w.loadTook >= 0.0 && w.extractTook >= 0.0
    requires Ipfs.HonoursTimeouts(PinRunOf(st, w).log)
    requires TxBudget.Honoured(Tx.LogOf(ExecutorAt(info, st, w), w.oracle, TxStart(st, w)))
    ensures Timely(st, w, LogOf(info, st, w))
  {
    ExecutionReported(info, st, w);
  }

  /** The lookups leave `early` seconds, and the executor overruns as far as it can. */
  function SlowLookup(st: Settings, budget: real, early: real): World {
    FastPin(budget - early, TxBudget.Overrunning(MinReal(st.receiptTimeout, 1.0)))
  }

  lemma SlowLookupOverruns(st: Settings, budget: real, early: real)
    requires st.totalTimeout == Some(budget) && 0.0 < early <= budget && early <= 1.0
    requires st.ipfsTimeout >= 0.0 && st.receiptTimeout >= 0.0
    ensures var w := SlowLookup(st, budget, early);
            && InstantFromExecutor(ALIVE, st, w, w.called + budget) && Timely(st, w, LogOf(ALIVE, st, w))
            && Run(ALIVE, st, w).end == w.called + budget - early + Overrun(st)
  {
    var w := SlowLookup(st, budget, early);
    FastPinPins(st, budget - early, w.oracle);
    TxBudget.OverrunRuns(ExecutorAt(ALIVE, st, w), TxStart(st, w));
    TimelyCall(ALIVE, st, w);
    ExecutionReported(ALIVE, st, w);
  }

  /**
   `publish_task` is documented to return or raise within its total timeout.  The least overrun that
   bounds every call is the granted receipt wait plus the five second pause.
   */
  lemma CallOverrunExactly(st: Settings, budget: real, overrun: real)
    requires st.totalTimeout == Some(budget) && budget > 0.0 && st.ipfsTimeout >= 0.0 && st.receiptTimeout >= 0.0
    ensures CallsStayWithin(st, budget, overrun) <==> overrun >= Overrun(st)
  {
    if overrun >= Overrun(st) {
      forall info: TaskInfo, w: World
        | InstantFromExecutor(info, st, w, w.called + budget) && Timely(st, w, LogOf(info, st, w))
        ensures Run(info, st, w).end <= w.called + budget + overrun
      {
        ExecutorEndsInBudget(info, st, w, budget);
        TxBudget.NoSlackFrom(w.oracle, DEFAULT_RETRIES, 0);
        assert TxBudget.IsInstant(w.oracle, Tx.Connecting, 0);
      }
    } else {
      var early := MinReal(MinReal(1.0, budget), (Overrun(st) - overrun) / 2.0);
      SlowLookupOverruns(st, budget, early);
      assert Run(ALIVE, st, SlowLookup(st, budget, early)).end > budget + overrun;
    }
  }

  // ----- how late past its expiry a task may be sent -----

  /** The second expiry check reads a wall clock that keeps step with the monotonic one. */
  predicate WallFollows(st: Settings, w: World, epoch: real) {
    w.wallAfterPin == (epoch + PinRunOf(st, w).end).Floor
  }

  /** What the executor did. */
  function TxLogOf(info: TaskInfo, st: Settings, w: World): seq<Tx.Event>
    requires GetsToExecutor(info, st, w)
  {
    Tx.LogOf(ExecutorAt(info, st, w), w.oracle, TxStart(st, w))
  }

  /** The time from the second expiry check to the end of the executor's last send, pauses and waits apart. */
  function SendSlack(st: Settings, w: World): real {
    w.loadTook + w.oracle.took(Tx.Connecting, 0) + TxBudget.SlackFrom(w.oracle, DEFAULT_RETRIES, 0)
  }

  /**
   Expiry is checked once before the executor and not before its retries: a broadcast may come past it,
   but by no more than two pauses, two waits that are retried after, and the time of the other legs.
   */
  lemma SentSoonAfterExpiry(info: TaskInfo, st: Settings, w: World, epoch: real, patience: real)
    requires GetsToExecutor(info, st, w) && WallFollows(st, w, epoch) && TxDeadline.Forward(w.oracle)
    requires TxRetries.Covers(ExecutorAt(info, st, w), w.oracle, patience)
    requires TxBudget.Honoured(TxLogOf(info, st, w))
    ensures forall e | e in TxLogOf(info, st, w) && e.Broadcast? ::
              epoch + e.at < info.expiryTime as real + 2.0 * (5.0 + patience) + SendSlack(st, w)
  {
    var x := ExecutorAt(info, st, w);
    TxRetries.BroadcastsInTime(x, w.oracle, TxStart(st, w), patience);
    assert TxRetries.Delay(3, 0, patience) == 2.0 * (5.0 + patience) by {
      assert TxRetries.Delay(3, 2, patience) == 0.0;
    }
    assert epoch + PinRunOf(st, w).end < w.wallAfterPin as real + 1.0 <= info.expiryTime as real;
  }

  /** Without a budget, with instant legs and no mistaken collision, no broadcast is `delay` past the expiry. */
  ghost predicate SendsWithinExpiry(st: Settings, delay: real) {
    forall info: TaskInfo, w: World, epoch: real
      | && GetsToExecutor(info, st, w) && WallFollows(st, w, epoch) && w.loadTook == 0.0
        && TxBudget.Instant(w.oracle) && !TxProperties.SomeRecollides(ExecutorAt(info, st, w), w.oracle)
        && TxBudget.Honoured(TxLogOf(info, st, w)) ::
      TxRetries.SentBy(info.expiryTime as real - epoch + delay, TxLogOf(info, st, w))
  }

  /** The least delay past the expiry that bounds every broadcast is ten seconds: two pauses. */
  lemma SentAfterExpiryExactly(st: Settings, delay: real)
    requires st.totalTimeout.None? && st.ipfsTimeout >= 0.0 && st.receiptTimeout >= 0.0
    ensures SendsWithinExpiry(st, delay) <==> delay >= 10.0
  {
    if delay >= 10.0 {
      forall info: TaskInfo, w: World, epoch: real
        | && GetsToExecutor(info, st, w) && WallFollows(st, w, epoch) && w.loadTook == 0.0
          && TxBudget.Instant(w.oracle) && !TxProperties.SomeRecollides(ExecutorAt(info, st, w), w.oracle)
          && TxBudget.Honoured(TxLogOf(info, st, w))
        ensures TxRetries.SentBy(info.expiryTime as real - epoch + delay, TxLogOf(info, st, w))
      {
        SentSoonAfterExpiry(info, st, w, epoch, 0.0);
        TxBudget.NoSlackFrom(w.oracle, DEFAULT_RETRIES, 0);
        assert TxBudget.IsInstant(w.oracle, Tx.Connecting, 0);
      }
    } else {
      SentTooLate(st, delay);
    }
  }

  lemma SentTooLate(st: Settings, delay: real)
    requires st.totalTimeout.None? && st.ipfsTimeout >= 0.0 && st.receiptTimeout >= 0.0 && delay < 10.0
    ensures !SendsWithinExpiry(st, delay)
  {
    var o := TxRetries.Relenting(2);
    FastPinPins(st, 0.0, o);
    var x := ExecutorAt(ALIVE, st, FastPin(0.0, o));
    o := TxRetries.RelentingRuns(x, 0.0);
    var w := FastPin(0.0, o);
    FastPinPins(st, 0.0, o);
    assert ExecutorAt(ALIVE, st, w) == x;
    var epoch := MaxReal(0.0, delay / 10.0);
    assert epoch + 10.0 > 1.0 + delay;
    assert epoch.Floor == 0 && WallFollows(st, w, epoch);
    assert !TxRetries.SentBy(ALIVE.expiryTime as real - epoch + delay, TxLogOf(ALIVE, st, w));
  }
}
