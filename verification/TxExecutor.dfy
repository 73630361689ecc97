/**
 `TxExecutor.execute`: reserve a nonce, build, sign, check the deadline, send, wait for the
 receipt, and retry on recoverable errors.  Whatever the node, the scheduler and the other threads
 do is an `Oracle`: an answer, and a duration, for each leg of each attempt.
 */
module TxExecution {
  import opened Prelude
  import opened Strings
  import opened Errors
  import opened Revert

  // ----- exceptions -----

  /** A Python exception, by the handler that would catch it. */
  datatype Exc =
    | ContractLogic(message: string)
    | Typed(error: OgpuError)
    | TimeExhausted(message: string)
    | Ordinary(message: string)
    | NotAnException(name: string) // KeyboardInterrupt, SystemExit: outside `except Exception`
  {
    function Message(): string {
      if ContractLogic? || TimeExhausted? || Ordinary? then message else ""
    }
  }

  datatype ErrorClass = Nonce | Underpriced | Transient | Fatal

  const NONCE_ERRORS: seq<string> := ["nonce too low", "known transaction", "already known"]
  const UNDERPRICED := "replacement transaction underpriced"
  const TRANSIENT_ERRORS: seq<string> :=
    ["connection aborted", "remote end closed connection", "connection reset", "read timed out"]
  const UNDERPRICED_BACKOFF: nat := 5
  const TRANSIENT_BACKOFF: nat := 1

  predicate AllBlank(s: string, i: nat, j: nat) {
    i <= j <= |s| && forall m | i <= m < j :: IsSpace(s[m])
  }

  predicate NoBlank(s: string, i: nat, j: nat) {
    i <= j <= |s| && forall m | i <= m < j :: !IsSpace(s[m])
  }

  /** "block" at `i`, blanks up to `j`, a word up to `k`, blanks up to `l`, then "not found". */
  predicate BlockNotFoundAt(s: string, i: nat, j: nat, k: nat, l: nat) {
    && OccursAt("block", s, i) && i + 5 < j && AllBlank(s, i + 5, j)
    && NoBlank(s, j, k) && AllBlank(s, k, l) && OccursAt("not found", s, l)
  }

  /** The pattern `block\s+\S*\s*not found`. */
  predicate BlockNotFound(s: string) {
    exists i, j, k, l | 0 <= i < j <= k <= l <= |s| :: BlockNotFoundAt(s, i, j, k, l)
  }

  predicate IsNonceError(message: string) {
    exists i | 0 <= i < |NONCE_ERRORS| :: Contains(Lower(message), NONCE_ERRORS[i])
  }

  predicate IsUnderpriced(message: string) { Contains(Lower(message), UNDERPRICED) }

  predicate IsTransientRpc(message: string) {
    || BlockNotFound(Lower(message))
    || exists i | 0 <= i < |TRANSIENT_ERRORS| :: Contains(Lower(message), TRANSIENT_ERRORS[i])
  }

  /** The first test that a message passes decides. */
  function Classify(message: string): ErrorClass {
    if IsNonceError(message) then Nonce
    else if IsUnderpriced(message) then Underpriced
    else if IsTransientRpc(message) then Transient
    else Fatal
  }

  // ----- the executor and its surroundings -----

  datatype Arg = Text(text: string) | Number(number: int)

  datatype Call = Call(functionName: string, args: seq<Arg>, value: nat)

  datatype Executor = Executor(call: Call, signer: string, context: string, maxRetries: nat,
                               receiptTimeout: real, deadline: Option<real>, budget: Option<real>)

  /** The constructor: at least one attempt, and a context derived from the contract if none is given. */
  function NewExecutor(contract: string, call: Call, signer: string, context: Option<string>, maxRetries: int,
                       receiptTimeout: real, deadline: Option<real>, budget: Option<real>): (x: Executor)
    ensures x.maxRetries >= 1 && x.maxRetries >= maxRetries && (x.maxRetries == maxRetries || x.maxRetries == 1)
    ensures x == Executor(call, signer, x.context, x.maxRetries, receiptTimeout, deadline, budget)
    ensures if context.GetOr("") != "" then Some(x.context) == context
            else x.context == contract + "." + call.functionName
  {
    var ctx := if context.Some? && context.value != "" then context.value else contract + "." + call.functionName;
    Executor(call, signer, ctx, Max(1, maxRetries), receiptTimeout, deadline, budget)
  }

  datatype Web3Receipt = Web3Receipt(txHash: string, blockNumber: nat, gasUsed: nat, status: int)

  datatype Receipt = Receipt(txHash: string, blockNumber: nat, gasUsed: nat, status: int)

  /** Where the time of an attempt goes, its pause apart. */
  datatype Leg =
    | Connecting | Entering | Reserving | Building | Signing | Sending | Noting | Waiting | Wrapping | Handling

  /** An exception out of a pause, which it cuts short. */
  datatype Interrupt = Interrupt(after: real, exc: Exc)

  /** The answers an execution gets, by attempt number, and how long its legs take. */
  datatype Oracle = Oracle(
    connect: Option<Exc>,
    reserve: nat -> Result<nat, Exc>,
    build: nat -> Option<Exc>,
    sign: nat -> Option<Exc>,
    send: nat -> Result<string, Exc>,
    wait: (nat, string) -> Result<Web3Receipt, Exc>, // the answer about the transaction with this hash
    wrap: nat -> Option<Exc>,
    interrupt: nat -> Option<Interrupt>,
    took: (Leg, nat) -> real)

  /** What an execution does, in order. */
  datatype Event =
    | Clock(time: real)
    | Reserved(nonce: nat)
    | Released(nonce: nat)
    | Built
    | Signed
    | Broadcast(nonce: nat, call: Call, hash: string, at: real)
    | SendFailed(nonce: nat)
    | Waited(hash: string, start: real, timeout: real, took: real)
    | CacheReset
    | Slept(start: real, seconds: nat, took: real)

  datatype Outcome =
    | Returned(receipt: Receipt)
    | Raised(error: OgpuError)
    | Escaped(exc: Exc)
    | FellThrough // the code after the loop

  datatype Verdict = Retry | Stop(outcome: Outcome)

  /** A stretch of an execution: what happened, what came of it, and when it ended. */
  datatype Stage<T> = Stage(log: seq<Event>, result: T, end: real)

  type Try = Stage<Verdict>

  type Execution = Stage<Outcome>

  // ----- one attempt, as a function of its answers -----

  function Late(x: Executor, now: real): bool {
    x.deadline.Some? && now >= x.deadline.value
  }

  function BudgetSpent(x: Executor): OgpuError {
    PublishTimeout(x.budget.GetOr(0.0), "pre-transaction")
  }

  /** From the start of the inner block up to, not including, the send. */
  function Prepare(x: Executor, o: Oracle, k: nat, now: real): Stage<Option<Exc>> {
    var built := now + o.took(Building, k);
    var signed := built + o.took(Signing, k);
    if o.build(k).Some? then Stage([Clock(now)], o.build(k), built)
    else if o.sign(k).Some? then Stage([Clock(now)] + [Built], o.sign(k), signed)
    else if x.deadline.None? then Stage([Clock(now)] + [Built] + [Signed], None, signed)
    else
      var log := [Clock(now)] + [Built] + [Signed] + [Clock(signed)];
      Stage(log, if Late(x, signed) then Some(Typed(BudgetSpent(x))) else None, signed)
  }

  /** The inner block: the nonce is either broadcast or handed back. */
  function Send(x: Executor, o: Oracle, k: nat, nonce: nat, now: real): Stage<Result<string, Exc>> {
    var ready := Prepare(x, o, k, now);
    var sent := ready.end + o.took(Sending, k);
    if ready.result.Some? then Stage(ready.log + [Released(nonce)], Err(ready.result.value), ready.end)
    else
      match o.send(k)
      case Ok(hash) => Stage(ready.log + [Broadcast(nonce, x.call, hash, ready.end)], Ok(hash), sent)
      case Err(e) => Stage(ready.log + [SendFailed(nonce)] + [Released(nonce)], Err(e), sent)
  }

  /** The receipt timeout in force at clock reading `now`. */
  function WaitCap(x: Executor, now: real): real {
    if x.deadline.None? then x.receiptTimeout
    else MinReal(x.receiptTimeout, MaxReal(x.deadline.value - now, 1.0))
  }

  /** When the receipt wait starts, the transaction having been sent at `now`. */
  function WaitStart(x: Executor, o: Oracle, k: nat, now: real): real {
    if x.deadline.None? then now else now + o.took(Noting, k)
  }

  /** The readings before the receipt wait, and the wait. */
  function WaitLog(x: Executor, o: Oracle, k: nat, hash: string, now: real): seq<Event> {
    var start := WaitStart(x, o, k, now);
    (if x.deadline.None? then [Clock(now)] else [Clock(now)] + [Clock(start)])
    + [Waited(hash, start, WaitCap(x, start), o.took(Waiting, k))]
  }

  /** From the broadcast to the returned receipt. */
  function Confirm(x: Executor, o: Oracle, k: nat, hash: string, now: real): Stage<Result<Receipt, Exc>> {
    var start := WaitStart(x, o, k, now);
    var done := start + o.took(Waiting, k);
    var log := WaitLog(x, o, k, hash, now);
    match o.wait(k, hash)
    case Err(TimeExhausted(_)) => Stage(log, Err(Typed(TxReceiptTimeout(hash, WaitCap(x, start)))), done)
    case Err(e) => Stage(log, Err(e), done)
    case Ok(r) =>
      var log := log + [Clock(done)];
      if r.status != 1 then
        Stage(log, Err(Typed(TxRevert("Transaction " + hash + " mined but reverted"))), done)
      else if o.wrap(k).Some? then Stage(log, Err(o.wrap(k).value), done + o.took(Wrapping, k))
      else Stage(log, Ok(Receipt(r.txHash, r.blockNumber, r.gasUsed, r.status)), done + o.took(Wrapping, k))
  }

  /** The pause before another attempt. */
  function Pause(o: Oracle, k: nat, seconds: nat, now: real): Try {
    match o.interrupt(k)
    case None => Stage([Slept(now, seconds, seconds as real)], Retry, now + seconds as real)
    case Some(i) => Stage([Slept(now, seconds, i.after)], Stop(Escaped(i.exc)), now + i.after)
  }

  /** The exception handlers around an attempt. */
  function Recover(x: Executor, o: Oracle, k: nat, nonce: nat, exc: Exc, broadcast: bool, now: real): Try {
    var now := now + o.took(Handling, k);
    match exc
    case ContractLogic(message) => Stage([], Stop(Raised(DecodeRevert(message, x.context, x.signer))), now)
    case Typed(error) => Stage([], Stop(Raised(error)), now)
    case NotAnException(_) => Stage([], Stop(Escaped(exc)), now)
    case _ =>
      var again := k + 1 < x.maxRetries;
      match Classify(exc.Message())
      case Nonce =>
        Stage([CacheReset], if again then Retry else Stop(Raised(NonceError(x.signer, nonce, -1))), now)
      case Underpriced =>
        if again then
          var pause := Pause(o, k, UNDERPRICED_BACKOFF, now);
          Stage([CacheReset] + pause.log, pause.result, pause.end)
        else Stage([CacheReset], Stop(Raised(GasError(exc.Message()))), now)
      case Transient =>
        if again && !broadcast then Pause(o, k, TRANSIENT_BACKOFF, now)
        else Stage([], Stop(Raised(TxRpc(exc.Message()))), now)
      case Fatal => Stage([], Stop(Raised(TxRpc(exc.Message()))), now)
  }

  /** An attempt that got its nonce. */
  function Transact(x: Executor, o: Oracle, k: nat, nonce: nat, now: real): Try {
    var sent := Send(x, o, k, nonce, now);
    match sent.result
    case Err(e) =>
      var recovery := Recover(x, o, k, nonce, e, false, sent.end);
      Stage(sent.log + recovery.log, recovery.result, recovery.end)
    case Ok(hash) =>
      var confirmed := Confirm(x, o, k, hash, sent.end);
      match confirmed.result
      case Ok(receipt) => Stage(sent.log + confirmed.log, Stop(Returned(receipt)), confirmed.end)
      case Err(e) =>
        var recovery := Recover(x, o, k, nonce, e, true, confirmed.end);
        Stage(sent.log + confirmed.log + recovery.log, recovery.result, recovery.end)
  }

  /** The reading at the top of attempt `k`, entered at `now`. */
  function EntryTime(o: Oracle, k: nat, now: real): real { now + o.took(Entering, k) }

  function ReservedTime(o: Oracle, k: nat, now: real): real { EntryTime(o, k, now) + o.took(Reserving, k) }

  function EntryLog(x: Executor, o: Oracle, k: nat, now: real): seq<Event> {
    if x.deadline.Some? then [Clock(EntryTime(o, k, now))] else []
  }

  function Attempt(x: Executor, o: Oracle, k: nat, now: real): Try {
    var entry := EntryLog(x, o, k, now);
    if Late(x, EntryTime(o, k, now)) then Stage(entry, Stop(Raised(BudgetSpent(x))), EntryTime(o, k, now))
    else
      match o.reserve(k)
      case Err(e) => Stage(entry, Stop(Escaped(e)), ReservedTime(o, k, now))
      case Ok(nonce) =>
        var rest := Transact(x, o, k, nonce, ReservedTime(o, k, now));
        Stage(entry + [Reserved(nonce)] + rest.log, rest.result, rest.end)
  }

  /** The attempts of a loop, by number and time of entry. */
  type Tries = (nat, real) -> Try

  /** The loop over at most `limit` attempts, entered at attempt `k` and time `now`. */
  function Loop(tries: Tries, limit: nat, k: nat, now: real): Execution
    requires k <= limit
    decreases limit - k
  {
    if k == limit then Stage([], FellThrough, now)
    else
      var t := tries(k, now);
      match t.result
      case Stop(outcome) => Stage(t.log, outcome, t.end)
      case Retry => Resumed(t.log, Loop(tries, limit, k + 1, t.end))
  }

  /** What has happened before, followed by the rest of the loop. */
  function Resumed(before: seq<Event>, rest: Execution): Execution {
    Stage(before + rest.log, rest.result, rest.end)
  }

  function TriesOf(x: Executor, o: Oracle): Tries {
    (k: nat, now: real) => Attempt(x, o, k, now)
  }

  /** The time at which the loop starts. */
  function Connected(o: Oracle, start: real): real { start + o.took(Connecting, 0) }

  function Run(x: Executor, o: Oracle, start: real): Execution {
    if o.connect.Some? then Stage([], Escaped(o.connect.value), Connected(o, start))
    else Loop(TriesOf(x, o), x.maxRetries, 0, Connected(o, start))
  }

  function LogOf(x: Executor, o: Oracle, start: real): seq<Event> { Run(x, o, start).log }

  function OutcomeOf(x: Executor, o: Oracle, start: real): Outcome { Run(x, o, start).result }

  // ----- the loop as the source runs it -----

  method Execute(x: Executor, o: Oracle, start: real) returns (outcome: Outcome, log: seq<Event>, now: real)
    ensures Stage(log, outcome, now) == Run(x, o, start)
  {
    log, now := [], start + o.took(Connecting, 0);
    if o.connect.Some? {
      return Escaped(o.connect.value), log, now;
    }
    ghost var tries := TriesOf(x, o);
    NothingBefore(Loop(tries, x.maxRetries, 0, now));
    for attempt := 0 to x.maxRetries
      invariant Run(x, o, start) == Resumed(log, Loop(tries, x.maxRetries, attempt, now))
    {
      LoopUnfolds(tries, x.maxRetries, attempt, now, log);
      assert tries(attempt, now) == Attempt(x, o, attempt, now);
      var t := AttemptOnce(x, o, attempt, now);
      log, now := log + t.log, t.end;
      if t.result.Stop? {
        return t.result.outcome, log, now;
      }
    }
    assert log + [] == log;
    return FellThrough, log, now;
  }

  lemma NothingBefore(rest: Execution)
    ensures Resumed([], rest) == rest
  {
    assert [] + rest.log == rest.log;
  }

  lemma LoopUnfolds(tries: Tries, limit: nat, k: nat, now: real, before: seq<Event>)
    requires k < limit
    ensures var t := tries(k, now);
            Resumed(before, Loop(tries, limit, k, now))
            == match t.result
               case Stop(outcome) => Stage(before + t.log, outcome, t.end)
               case Retry => Resumed(before + t.log, Loop(tries, limit, k + 1, t.end))
  {
    var t := tries(k, now);
    if t.result.Retry? {
      ConcatAssociates(before, t.log, Loop(tries, limit, k + 1, t.end).log);
    }
  }

  /** The body of the loop: deadline check, reservation, transaction. */
  method AttemptOnce(x: Executor, o: Oracle, k: nat, start: real) returns (t: Try)
    ensures t == Attempt(x, o, k, start)
  {
    var log: seq<Event>, now := [], start + o.took(Entering, k);
    if x.deadline.Some? {
      log := [Clock(now)];
      if now >= x.deadline.value {
        return Stage(log, Stop(Raised(PublishTimeout(x.budget.GetOr(0.0), "pre-transaction"))), now);
      }
    }
    var reserved := o.reserve(k);
    now := now + o.took(Reserving, k);
    if reserved.Err? {
      return Stage(log, Stop(Escaped(reserved.error)), now);
    }
    assert log == EntryLog(x, o, k, start) && now == ReservedTime(o, k, start);
    var rest := TransactOnce(x, o, k, reserved.value, now);
    t := Stage(log + [Reserved(reserved.value)] + rest.log, rest.result, rest.end);
  }

  /** The outer `try`, with its handlers. */
  method TransactOnce(x: Executor, o: Oracle, k: nat, nonce: nat, start: real) returns (t: Try)
    ensures t == Transact(x, o, k, nonce, start)
  {
    var sent := SendOnce(x, o, k, nonce, start);
    var log, now := sent.log, sent.end;
    var failure: Exc;
    if sent.result.Ok? {
      var confirmed := ConfirmOnce(x, o, k, sent.result.value, now);
      log, now := log + confirmed.log, confirmed.end;
      if confirmed.result.Ok? {
        return Stage(log, Stop(Returned(confirmed.result.value)), now);
      }
      failure := confirmed.result.error;
    } else {
      failure := sent.result.error;
    }
    var recovery := RecoverOnce(x, o, k, nonce, failure, sent.result.Ok?, now);
    t := Stage(log + recovery.log, recovery.result, recovery.end);
  }

  /** The handlers, in the order they are tried. */
  method RecoverOnce(x: Executor, o: Oracle, k: nat, nonce: nat, exc: Exc, broadcast: bool, start: real)
    returns (t: Try)
    ensures t == Recover(x, o, k, nonce, exc, broadcast, start)
  {
    var now := start + o.took(Handling, k);
    if exc.ContractLogic? {
      return Stage([], Stop(Raised(DecodeRevert(exc.message, x.context, x.signer))), now);
    }
    if exc.Typed? {
      return Stage([], Stop(Raised(exc.error)), now);
    }
    if exc.NotAnException? {
      return Stage([], Stop(Escaped(exc)), now);
    }
    if IsNonceError(exc.message) {
      if k + 1 < x.maxRetries {
        return Stage([CacheReset], Retry, now);
      }
      return Stage([CacheReset], Stop(Raised(NonceError(x.signer, nonce, -1))), now);
    }
    if IsUnderpriced(exc.message) {
      if k + 1 < x.maxRetries {
        t := Pause(o, k, UNDERPRICED_BACKOFF, now);
        return Stage([CacheReset] + t.log, t.result, t.end);
      }
      return Stage([CacheReset], Stop(Raised(GasError(exc.message))), now);
    }
    if IsTransientRpc(exc.message) && !broadcast && k + 1 < x.maxRetries {
      return Pause(o, k, TRANSIENT_BACKOFF, now);
    }
    t := Stage([], Stop(Raised(TxRpc(exc.message))), now);
  }

  /** The inner `try` with its release-on-anything handler. */
  method SendOnce(x: Executor, o: Oracle, k: nat, nonce: nat, start: real) returns (sent: Stage<Result<string, Exc>>)
    ensures sent == Send(x, o, k, nonce, start)
  {
    var log := [Clock(start)];
    var now := start + o.took(Building, k);
    var exc := o.build(k);
    if exc.None? {
      log := log + [Built];
      now := now + o.took(Signing, k);
      exc := o.sign(k);
    }
    if exc.None? {
      log := log + [Signed];
      if x.deadline.Some? {
        log := log + [Clock(now)];
        if now >= x.deadline.value {
          exc := Some(Typed(PublishTimeout(x.budget.GetOr(0.0), "pre-transaction")));
        }
      }
    }
    if exc.Some? {
      return Stage(log + [Released(nonce)], Err(exc.value), now);
    }
    var ready, hash := now, o.send(k);
    now := now + o.took(Sending, k);
    if hash.Err? {
      return Stage(log + [SendFailed(nonce)] + [Released(nonce)], hash, now);
    }
    sent := Stage(log + [Broadcast(nonce, x.call, hash.value, ready)], hash, now);
  }

  /** The receipt wait. */
  method ConfirmOnce(x: Executor, o: Oracle, k: nat, hash: string, start: real)
    returns (confirmed: Stage<Result<Receipt, Exc>>)
    ensures confirmed == Confirm(x, o, k, hash, start)
  {
    var log, now := [Clock(start)], start;
    var timeout := x.receiptTimeout;
    if x.deadline.Some? {
      now := now + o.took(Noting, k);
      log := log + [Clock(now)];
      timeout := MinReal(timeout, MaxReal(x.deadline.value - now, 1.0));
    }
    log := log + [Waited(hash, now, timeout, o.took(Waiting, k))];
    var answer := o.wait(k, hash);
    now := now + o.took(Waiting, k);
    if answer.Err? {
      if answer.error.TimeExhausted? {
        return Stage(log, Err(Typed(TxReceiptTimeout(hash, timeout))), now);
      }
      return Stage(log, Err(answer.error), now);
    }
    log := log + [Clock(now)];
    var r := answer.value;
    if r.status != 1 {
      return Stage(log, Err(Typed(TxRevert("Transaction " + hash + " mined but reverted"))), now);
    }
    now := now + o.took(Wrapping, k);
    if o.wrap(k).Some? {
      return Stage(log, Err(o.wrap(k).value), now);
    }
    confirmed := Stage(log, Ok(Receipt(r.txHash, r.blockNumber, r.gasUsed, r.status)), now);
  }
}
