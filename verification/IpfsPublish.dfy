/** `publish_to_ipfs`: bounded retries with doubling backoff, clipped by an optional deadline. */
module IpfsPublish {
  import opened Prelude
  import opened Errors

  /** Attempts are counted from 1. */
  type Turn = n: nat | n >= 1 witness 1

  /** The body of a success response: a link, something without one, or something that breaks the parser. */
  datatype Body = Link(url: string) | Malformed | Breaks(name: string)

  datatype Answer =
    | NoAnswer(reason: string) // requests.RequestException
    | Response(status: int, body: Body)
    | Unexpected(name: string) // any other exception out of the HTTP library

  /** An exception out of a sleep, which it cuts short. */
  datatype Interrupt = Interrupt(after: real, name: string)

  /** The payload, and the pinning endpoint and the scheduler by attempt number, counting from 1. */
  datatype Network = Network(
    encode: Option<string>, // the exception, if the payload does not serialise
    answer: nat -> Answer, // what the post yields
    took: nat -> real,     // how long it takes
    lag: nat -> real,      // time lost before the attempt's first clock reading
    pause: nat -> real,    // time lost between the answer and the backoff
    interrupt: nat -> Option<Interrupt>)

  datatype Pin = Pin(timeout: real, retries: int, backoff: real, deadline: Option<real>)

  datatype Event =
    | Posted(start: real, timeout: real, took: real, answer: Answer)
    | Slept(start: real, seconds: real, took: real, cut: Option<string>)

  datatype PinResult = Pinned(link: string) | Failed(error: OgpuError) | Escaped(name: string)

  datatype PinRun = PinRun(log: seq<Event>, result: PinResult, end: real)

  function Attempts(p: Pin): (a: nat)
    ensures a >= 1
  {
    Max(1, p.retries)
  }

  function Pow2(n: nat): nat { if n == 0 then 1 else 2 * Pow2(n - 1) }

  /** The full backoff after attempt `k`. */
  function Backoff(p: Pin, k: Turn): real { p.backoff * Pow2(k - 1) as real }

  const NEVER_TRIED := "publish budget exhausted before any attempt"

  /** What an answer decides at once; None for a transient failure. */
  function Decides(a: Answer): Option<PinResult> {
    match a
    case NoAnswer(_) => None
    case Unexpected(name) => Some(Escaped(name))
    case Response(status, body) =>
      if status == 200 || status == 201 then
        Some(match body
             case Link(url) => Pinned(url)
             case Malformed => Failed(IpfsGateway(status))
             case Breaks(name) => Escaped(name))
      else if status < 500 then Some(Failed(IpfsGateway(status)))
      else None
  }

  /** The error a transient failure leaves behind. */
  function Leaves(a: Answer): OgpuError {
    match a
    case NoAnswer(reason) => IpfsFetch(reason)
    case Response(status, _) => IpfsGateway(status)
    case Unexpected(name) => IpfsFetch(name)
  }

  function GiveUp(last: Option<OgpuError>): PinResult {
    Failed(last.GetOr(IpfsFetch(NEVER_TRIED)))
  }

  function PostTimeout(p: Pin, now: real): real {
    if p.deadline.None? then p.timeout else MinReal(p.timeout, p.deadline.value - now)
  }

  function SleepFor(p: Pin, k: Turn, now: real): real {
    if p.deadline.None? then Backoff(p, k) else MinReal(Backoff(p, k), MaxReal(p.deadline.value - now, 0.0))
  }

  /** What an attempt comes to: a result, a spent budget, or an error and another attempt. */
  datatype Verdict = Decided(result: PinResult) | GaveUp | Transient(left: OgpuError)

  datatype Try = Try(log: seq<Event>, verdict: Verdict, end: real)

  /** Attempt `k`, its first clock reading at `start` having found budget left. */
  function Attempt(p: Pin, net: Network, k: Turn, start: real): Try {
    var post := Posted(start, PostTimeout(p, start), net.took(k), net.answer(k));
    var answered := start + net.took(k);
    var left := Transient(Leaves(net.answer(k)));
    if Decides(net.answer(k)).Some? then Try([post], Decided(Decides(net.answer(k)).value), answered)
    else if k >= Attempts(p) then Try([post], left, answered)
    else
      var ready := answered + net.pause(k);
      var sleep := SleepFor(p, k, ready);
      if sleep <= 0.0 then Try([post], left, ready)
      else
        match net.interrupt(k)
        case None => Try([post] + [Slept(ready, sleep, sleep, None)], left, ready + sleep)
        case Some(i) =>
          Try([post] + [Slept(ready, sleep, i.after, Some(i.name))], Decided(Escaped(i.name)), ready + i.after)
  }

  predicate Spent(p: Pin, start: real) { p.deadline.Some? && p.deadline.value <= start }

  /** Attempt `k`, entered at `now`. */
  function TryAt(p: Pin, net: Network, k: Turn, now: real): Try {
    if Spent(p, now + net.lag(k)) then Try([], GaveUp, now + net.lag(k)) else Attempt(p, net, k, now + net.lag(k))
  }

  /** The attempts of a loop, by number and time of entry. */
  type Tries = (Turn, real) -> Try

  function TriesOf(p: Pin, net: Network): Tries {
    (k: Turn, now: real) => TryAt(p, net, k, now)
  }

  /** Attempts `k` and later, entered at time `now` with the last error seen so far. */
  function Loop(tries: Tries, attempts: nat, k: Turn, now: real, last: Option<OgpuError>): PinRun
    requires k <= attempts + 1
    decreases attempts + 1 - k
  {
    if k == attempts + 1 then PinRun([], GiveUp(last), now)
    else
      var t := tries(k, now);
      match t.verdict
      case Decided(result) => PinRun(t.log, result, t.end)
      case GaveUp => PinRun(t.log, GiveUp(last), t.end)
      case Transient(left) => Resumed(t.log, Loop(tries, attempts, k + 1, t.end, Some(left)))
  }

  /** What has happened before, followed by the rest of the loop. */
  function Resumed(before: seq<Event>, rest: PinRun): PinRun {
    PinRun(before + rest.log, rest.result, rest.end)
  }

  /** All the attempts. */
  function PinLoop(p: Pin, net: Network, now: real): PinRun { Loop(TriesOf(p, net), Attempts(p), 1, now, None) }

  function PinAt(p: Pin, net: Network, now: real): PinRun {
    if net.encode.Some? then PinRun([], Escaped(net.encode.value), now) else PinLoop(p, net, now)
  }

  lemma NothingBefore(rest: PinRun)
    ensures Resumed([], rest) == rest
  {
    assert [] + rest.log == rest.log;
  }

  lemma LoopUnfolds(tries: Tries, attempts: nat, k: Turn, now: real, last: Option<OgpuError>, before: seq<Event>)
    requires k <= attempts
    ensures var t := tries(k, now);
            Resumed(before, Loop(tries, attempts, k, now, last))
            == match t.verdict
               case Decided(result) => PinRun(before + t.log, result, t.end)
               case GaveUp => PinRun(before + t.log, GiveUp(last), t.end)
               case Transient(left) => Resumed(before + t.log, Loop(tries, attempts, k + 1, t.end, Some(left)))
  {
    var t := tries(k, now);
    if t.verdict.Transient? {
      ConcatAssociates(before, t.log, Loop(tries, attempts, k + 1, t.end, Some(t.verdict.left)).log);
    }
  }

  method PublishToIpfs(p: Pin, net: Network, start: real) returns (result: PinResult, log: seq<Event>, now: real)
    ensures PinRun(log, result, now) == PinAt(p, net, start)
    ensures if net.encode.Some? then log == [] && result == Escaped(net.encode.value) && now == start
            else EndsAsAnswered(p, net, log, result, now)
  {
    FirstDecisiveAnswerWins(p, net, start);
    if net.encode.Some? {
      return Escaped(net.encode.value), [], start;
    }
    result, log, now := PostUntilDecided(p, net, start);
  }

  /** The loop over the attempts. */
  method PostUntilDecided(p: Pin, net: Network, start: real) returns (result: PinResult, log: seq<Event>, now: real)
    ensures PinRun(log, result, now) == PinLoop(p, net, start)
  {
    log, now := [], start;
    var attempts := Attempts(p);
    var lastError: Option<OgpuError> := None;
    ghost var tries := TriesOf(p, net);
    NothingBefore(Loop(tries, attempts, 1, now, None));
    for attempt := 1 to attempts + 1
      invariant PinLoop(p, net, start) == Resumed(log, Loop(tries, attempts, attempt, now, lastError))
    {
      LoopUnfolds(tries, attempts, attempt, now, lastError, log);
      assert tries(attempt, now) == TryAt(p, net, attempt, now);
      var t := TryOnce(p, net, attempt, now);
      log, now := log + t.log, t.end;
      match t.verdict {
        case Decided(decision) => return decision, log, now;
        case GaveUp => return GiveUp(lastError), log, now;
        case Transient(left) => lastError := Some(left);
      }
    }
    assert log + [] == log;
    return GiveUp(lastError), log, now;
  }

  /** The budget check, the post, what its answer decides, and the sleep before another attempt. */
  method TryOnce(p: Pin, net: Network, attempt: Turn, entered: real) returns (t: Try)
    ensures t == TryAt(p, net, attempt, entered)
  {
    var now := entered + net.lag(attempt);
    var effectiveTimeout := p.timeout;
    if p.deadline.Some? {
      var remaining := p.deadline.value - now;
      if remaining <= 0.0 {
        return Try([], GaveUp, now);
      }
      effectiveTimeout := MinReal(p.timeout, remaining);
    }
    var response := net.answer(attempt);
    var log := [Posted(now, effectiveTimeout, net.took(attempt), response)];
    now := now + net.took(attempt);
    var left: OgpuError;
    match response {
      case NoAnswer(reason) =>
        left := IpfsFetch(reason);
      case Unexpected(name) =>
        return Try(log, Decided(Escaped(name)), now);
      case Response(status, body) =>
        left := IpfsGateway(status);
        if status == 200 || status == 201 {
          match body {
            case Link(url) => return Try(log, Decided(Pinned(url)), now);
            case Malformed => return Try(log, Decided(Failed(IpfsGateway(status))), now);
            case Breaks(name) => return Try(log, Decided(Escaped(name)), now);
          }
        }
        if status < 500 {
          return Try(log, Decided(Failed(IpfsGateway(status))), now);
        }
    }
    if attempt < Attempts(p) {
      now := now + net.pause(attempt);
      var sleepFor := Backoff(p, attempt);
      if p.deadline.Some? {
        sleepFor := MinReal(sleepFor, MaxReal(p.deadline.value - now, 0.0));
      }
      if sleepFor > 0.0 {
        var interrupt := net.interrupt(attempt);
        if interrupt.Some? {
          log := log + [Slept(now, sleepFor, interrupt.value.after, Some(interrupt.value.name))];
          return Try(log, Decided(Escaped(interrupt.value.name)), now + interrupt.value.after);
        }
        log := log + [Slept(now, sleepFor, sleepFor, None)];
        now := now + sleepFor;
      }
    }
    t := Try(log, Transient(left), now);
  }

  // ----- which answer decides -----

  /** The answers to the posts of a log, in order. */
  function Answers(log: seq<Event>): seq<Answer>
    decreases |log|
  {
    if log == [] then []
    else AnswerOf(log[0]) + Answers(log[1..])
  }

  function AnswerOf(e: Event): seq<Answer> { if e.Posted? then [e.answer] else [] }

  lemma {:induction false} AnswersAppend(a: seq<Event>, b: seq<Event>)
    ensures Answers(a + b) == Answers(a) + Answers(b)
    decreases |a|
  {
    if a == [] {
      assert a + b == b;
    } else {
      assert (a + b)[1..] == a[1..] + b;
      AnswersAppend(a[1..], b);
      ConcatAssociates(AnswerOf(a[0]), Answers(a[1..]), Answers(b));
    }
  }

  /** The interrupt that ends a log, if one does. */
  function Cut(log: seq<Event>): Option<string> {
    if log != [] && log[|log| - 1].Slept? then log[|log| - 1].cut else None
  }

  /** The result that a sequence of observed answers, and perhaps an interrupt, stands for. */
  function ResultOf(seen: seq<Answer>, cut: Option<string>, last: Option<OgpuError>): PinResult {
    if cut.Some? then Escaped(cut.value)
    else if seen == [] then GiveUp(last)
    else
      var final := seen[|seen| - 1];
      if Decides(final).Some? then Decides(final).value else GiveUp(Some(Leaves(final)))
  }

  /** The answers the endpoint gives to `count` posts from attempt `k` on. */
  function Given(net: Network, k: nat, count: nat): (s: seq<Answer>)
    ensures |s| == count && forall i | 0 <= i < count :: s[i] == net.answer(k + i)
  {
    seq(count, i requires 0 <= i < count => net.answer(k + i))
  }

  /** Posting stops on used up attempts, a decisive answer, an interrupt, or a spent budget. */
  predicate Stops(p: Pin, k: Turn, seen: seq<Answer>, cut: Option<string>, end: real) {
    || |seen| == Attempts(p) + 1 - k
    || (seen != [] && Decides(seen[|seen| - 1]).Some?)
    || cut.Some?
    || Spent(p, end)
  }

  /** A result, explained by the answers seen from attempt `k` on: all but the last are transient. */
  predicate Explains(p: Pin, net: Network, k: Turn, last: Option<OgpuError>,
                     seen: seq<Answer>, cut: Option<string>, result: PinResult, end: real)
  {
    && |seen| <= Attempts(p) + 1 - k
    && seen == Given(net, k, |seen|)
    && result == ResultOf(seen, cut, last)
    && (forall i | 0 <= i < |seen| - 1 :: Decides(seen[i]).None?)
    && (cut.Some? ==> 0 < |seen| < Attempts(p) + 1 - k && Decides(seen[|seen| - 1]).None?)
    && Stops(p, k, seen, cut, end)
  }

  predicate RunExplained(p: Pin, net: Network, k: Turn, last: Option<OgpuError>, run: PinRun) {
    Explains(p, net, k, last, Answers(run.log), Cut(run.log), run.result, run.end)
  }

  /** What an attempt shows of its answer. */
  predicate TryExplained(p: Pin, net: Network, k: Turn, t: Try) {
    match t.verdict
    case GaveUp => t.log == [] && Spent(p, t.end)
    case Decided(result) =>
      Answers(t.log) == [net.answer(k)]
      && if Cut(t.log).Some? then Decides(net.answer(k)).None? && k < Attempts(p) && result == Escaped(Cut(t.log).value)
         else Decides(net.answer(k)) == Some(result)
    case Transient(left) =>
      Answers(t.log) == [net.answer(k)] && Cut(t.log).None?
      && Decides(net.answer(k)).None? && left == Leaves(net.answer(k))
  }

  lemma AnswersOfTry(p: Pin, net: Network, k: Turn, now: real)
    ensures TryExplained(p, net, k, TryAt(p, net, k, now))
  {
    var log := TryAt(p, net, k, now).log;
    if log != [] {
      assert log == [log[0]] + log[1..];
      assert log[1..] != [] ==> log[1..] == [log[1]] && log[1..][1..] == [];
      AnswersAppend([log[0]], log[1..]);
      assert [log[0]][1..] == [];
    }
  }

  lemma LaterAnswersExplain(p: Pin, net: Network, k: Turn, last: Option<OgpuError>,
                            seen: seq<Answer>, cut: Option<string>, result: PinResult, end: real)
    requires k <= Attempts(p) && Decides(net.answer(k)).None?
    requires Explains(p, net, k + 1, Some(Leaves(net.answer(k))), seen, cut, result, end)
    ensures Explains(p, net, k, last, [net.answer(k)] + seen, cut, result, end)
  {
    var all := [net.answer(k)] + seen;
    assert forall i | 0 < i < |all| :: all[i] == seen[i - 1];
    assert all == Given(net, k, |all|);
  }

  lemma TryThenRest(p: Pin, net: Network, k: Turn, last: Option<OgpuError>, t: Try, rest: PinRun)
    requires k <= Attempts(p) && TryExplained(p, net, k, t) && t.verdict.Transient?
    requires RunExplained(p, net, k + 1, Some(t.verdict.left), rest)
    ensures RunExplained(p, net, k, last, Resumed(t.log, rest))
  {
    AnswersAppend(t.log, rest.log);
    assert Cut(t.log + rest.log) == Cut(rest.log);
    LaterAnswersExplain(p, net, k, last, Answers(rest.log), Cut(rest.log), rest.result, rest.end);
  }

  lemma LastTryExplains(p: Pin, net: Network, k: Turn, last: Option<OgpuError>, t: Try)
    requires k <= Attempts(p) && TryExplained(p, net, k, t)
    ensures t.verdict.Decided? ==> RunExplained(p, net, k, last, PinRun(t.log, t.verdict.result, t.end))
    ensures t.verdict.GaveUp? ==> RunExplained(p, net, k, last, PinRun(t.log, GiveUp(last), t.end))
  {
  }

  lemma {:induction false} LoopExplained(p: Pin, net: Network, tries: Tries, k: Turn, now: real,
                                         last: Option<OgpuError>)
    requires k <= Attempts(p) + 1 && forall j: Turn, t: real :: TryExplained(p, net, j, tries(j, t))
    ensures RunExplained(p, net, k, last, Loop(tries, Attempts(p), k, now, last))
    decreases Attempts(p) + 1 - k
  {
    if k <= Attempts(p) {
      var t := tries(k, now);
      assert TryExplained(p, net, k, t);
      if t.verdict.Transient? {
        LoopExplained(p, net, tries, k + 1, t.end, Some(t.verdict.left));
        TryThenRest(p, net, k, last, t, Loop(tries, Attempts(p), k + 1, t.end, Some(t.verdict.left)));
      } else {
        LastTryExplains(p, net, k, last, t);
      }
    }
  }

  /** An answer after which another post may follow: none at all, or a server error. */
  predicate MayFollow(a: Answer) { a.NoAnswer? || (a.Response? && a.status >= 500) }

  /** What the last answer of a call makes of it. */
  predicate EndsOn(a: Answer, result: PinResult) {
    match a
    case NoAnswer(reason) => result == Failed(IpfsFetch(reason))
    case Unexpected(name) => result == Escaped(name)
    case Response(status, body) =>
      if status != 200 && status != 201 then result == Failed(IpfsGateway(status))
      else match body
           case Link(url) => result == Pinned(url)
           case Malformed => result == Failed(IpfsGateway(status))
           case Breaks(name) => result == Escaped(name)
  }

  /**
   Posts go out for the first answers in turn, each but the last following a transient one.  The call
   ends on an interrupted sleep, else as its last answer says, else without having tried; and it
   stops only when that answer is not transient, the posts or the budget are used up, or a sleep is cut.
   */
  predicate EndsAsAnswered(p: Pin, net: Network, log: seq<Event>, result: PinResult, end: real) {
    var seen, cut, most := Answers(log), Cut(log), if p.retries > 1 then p.retries else 1;
    && |seen| <= most
    && (forall i | 0 <= i < |seen| :: seen[i] == net.answer(i + 1))
    && (forall i | 0 <= i < |seen| - 1 :: MayFollow(seen[i]))
    && (cut.Some? ==> 0 < |seen| < most && MayFollow(seen[|seen| - 1]) && result == Escaped(cut.value))
    && (cut.None? ==> if seen != [] then EndsOn(seen[|seen| - 1], result)
                      else result == Failed(IpfsFetch("publish budget exhausted before any attempt")))
    && (|seen| == most || cut.Some? || (seen != [] && !MayFollow(seen[|seen| - 1]))
        || (p.deadline.Some? && p.deadline.value <= end))
  }

  /**
   The first answer that is not a transient failure decides; if there is none, the last failure
   does; an interrupted backoff escapes; and posting stops early only on one of these or when the
   budget is spent.
   */
  lemma FirstDecisiveAnswerWins(p: Pin, net: Network, now: real)
    ensures var run := PinAt(p, net, now);
            if net.encode.Some? then run == PinRun([], Escaped(net.encode.value), now)
            else EndsAsAnswered(p, net, run.log, run.result, run.end)
  {
    if net.encode.None? {
      forall j: Turn, t: real ensures TryExplained(p, net, j, TriesOf(p, net)(j, t)) {
        AnswersOfTry(p, net, j, t);
      }
      LoopExplained(p, net, TriesOf(p, net), 1, now, None);
      ExplainedEnds(p, net, PinAt(p, net, now));
    }
  }

  lemma ExplainedEnds(p: Pin, net: Network, run: PinRun)
    requires RunExplained(p, net, 1, None, run)
    ensures EndsAsAnswered(p, net, run.log, run.result, run.end)
  {
    var seen := Answers(run.log);
    assert forall i | 0 <= i < |seen| :: seen[i] == net.answer(1 + i);
  }

  /** Two attempts that show the same answer and come to the same. */
  predicate SameTry(t: Try, t': Try) { t.verdict == t'.verdict && Answers(t.log) == Answers(t'.log) }

  predicate SameRun(run: PinRun, run': PinRun) {
    run.result == run'.result && Answers(run.log) == Answers(run'.log)
  }

  lemma SameThroughout(before: seq<Event>, before': seq<Event>, rest: PinRun, rest': PinRun)
    requires Answers(before) == Answers(before') && SameRun(rest, rest')
    ensures SameRun(Resumed(before, rest), Resumed(before', rest'))
  {
    AnswersAppend(before, rest.log);
    AnswersAppend(before', rest'.log);
  }

  lemma {:induction false} LoopIgnoresClock(tries: Tries, tries': Tries, attempts: nat, k: Turn,
                                            now: real, now': real, last: Option<OgpuError>)
    requires k <= attempts + 1 && forall j: Turn, t: real, t': real :: SameTry(tries(j, t), tries'(j, t'))
    ensures SameRun(Loop(tries, attempts, k, now, last), Loop(tries', attempts, k, now', last))
    decreases attempts + 1 - k
  {
    if k <= attempts {
      var t, t' := tries(k, now), tries'(k, now');
      assert SameTry(t, t');
      if t.verdict.Transient? {
        var left := Some(t.verdict.left);
        LoopIgnoresClock(tries, tries', attempts, k + 1, t.end, t'.end, left);
        SameThroughout(t.log, t'.log, Loop(tries, attempts, k + 1, t.end, left),
                       Loop(tries', attempts, k + 1, t'.end, left));
      }
    }
  }

  /** Without a deadline neither the result nor the posts depend on the clock. */
  lemma ClockIrrelevantWithoutDeadline(p: Pin, net: Network, net': Network, now: real, now': real)
    requires p.deadline.None?
    requires net'.answer == net.answer && net'.interrupt == net.interrupt && net'.encode == net.encode
    ensures PinAt(p, net, now).result == PinAt(p, net', now').result
    ensures Answers(PinAt(p, net, now).log) == Answers(PinAt(p, net', now').log)
  {
    forall j: Turn, t: real, t': real ensures SameTry(TriesOf(p, net)(j, t), TriesOf(p, net')(j, t')) {
      AnswersOfTry(p, net, j, t);
      AnswersOfTry(p, net', j, t');
    }
    LoopIgnoresClock(TriesOf(p, net), TriesOf(p, net'), Attempts(p), 1, now, now', None);
  }

  // ----- raw exceptions -----

  /** An answer that comes out as an exception no handler of the pin catches. */
  predicate IsRaw(a: Answer) {
    a.Unexpected? || (a.Response? && (a.status == 200 || a.status == 201) && a.body.Breaks?)
  }

  /** The sleep after attempt `k`, its first reading at `start`, is cut short. */
  predicate CutsShort(p: Pin, net: Network, k: Turn, start: real) {
    && Decides(net.answer(k)).None? && k < Attempts(p)
    && SleepFor(p, k, start + net.took(k) + net.pause(k)) > 0.0 && net.interrupt(k).Some?
  }

  /** Attempt `k`, entered at `now`, posts, and its answer and its sleep lead to another attempt. */
  predicate LeadsOn(p: Pin, net: Network, k: Turn, now: real) {
    var start := now + net.lag(k);
    !Spent(p, start) && Decides(net.answer(k)).None? && !CutsShort(p, net, k, start)
  }

  /** Attempt `k`, entered at `now`, posts and lets an exception out. */
  predicate Escapes(p: Pin, net: Network, k: Turn, now: real) {
    var start := now + net.lag(k);
    !Spent(p, start) && (IsRaw(net.answer(k)) || CutsShort(p, net, k, start))
  }

  /** The time at which attempt `k` is entered, if all before it lead on. */
  function Entered(tries: Tries, start: real, k: Turn): real {
    if k == 1 then start else tries(k - 1, Entered(tries, start, k - 1)).end
  }

  /** What an attempt does, as two tests tell it. */
  predicate Told(t: Try, leadsOn: bool, escapes: bool) {
    (t.verdict.Transient? <==> leadsOn) && ((t.verdict.Decided? && t.verdict.result.Escaped?) <==> escapes)
  }

  /** Attempts before `k` lead on, and attempt `k` lets an exception out, each at its time of entry. */
  ghost predicate EscapesFirstAt(tries: Tries, leadsOn: (Turn, real) -> bool, escapes: (Turn, real) -> bool,
                                 start: real, k: Turn)
  {
    && escapes(k, Entered(tries, start, k))
    && forall j: Turn | j < k :: leadsOn(j, Entered(tries, start, j))
  }

  lemma {:induction false} LoopEscapesExactly(tries: Tries, leadsOn: (Turn, real) -> bool,
                                              escapes: (Turn, real) -> bool,
                                              attempts: nat, start: real, k: Turn, last: Option<OgpuError>)
    requires k <= attempts + 1 && forall j: Turn, t: real :: Told(tries(j, t), leadsOn(j, t), escapes(j, t))
    requires forall j: Turn | j < k :: leadsOn(j, Entered(tries, start, j))
    ensures Loop(tries, attempts, k, Entered(tries, start, k), last).result.Escaped?
            <==> exists n: Turn | k <= n <= attempts :: EscapesFirstAt(tries, leadsOn, escapes, start, n)
    decreases attempts + 1 - k
  {
    if k <= attempts {
      var now := Entered(tries, start, k);
      var t := tries(k, now);
      assert Told(t, leadsOn(k, now), escapes(k, now));
      if t.verdict.Transient? {
        assert Entered(tries, start, k + 1) == t.end;
        LoopEscapesExactly(tries, leadsOn, escapes, attempts, start, k + 1, Some(t.verdict.left));
        assert !EscapesFirstAt(tries, leadsOn, escapes, start, k);
      } else {
        assert forall n: Turn | k < n <= attempts :: !EscapesFirstAt(tries, leadsOn, escapes, start, n);
        assert EscapesFirstAt(tries, leadsOn, escapes, start, k) <==> escapes(k, now);
      }
    }
  }

  /** The answers, each at its attempt's time of entry, lead to attempt `k` and let an exception out there. */
  ghost predicate AnswersEscape(p: Pin, net: Network, start: real, k: Turn) {
    var tries := TriesOf(p, net);
    && Escapes(p, net, k, Entered(tries, start, k))
    && forall j: Turn | j < k :: LeadsOn(p, net, j, Entered(tries, start, j))
  }

  /**
   A raw exception escapes exactly when the payload does not serialise, or transient answers and
   whole sleeps lead to an answer that no handler catches or to a sleep that is interrupted.
   */
  lemma PinEscapesExactly(p: Pin, net: Network, now: real)
    ensures PinAt(p, net, now).result.Escaped?
            <==> net.encode.Some? || exists k: Turn | k <= Attempts(p) :: AnswersEscape(p, net, now, k)
  {
    var tries := TriesOf(p, net);
    var leadsOn := (k: Turn, t: real) => LeadsOn(p, net, k, t);
    var escapes := (k: Turn, t: real) => Escapes(p, net, k, t);
    LoopEscapesExactly(tries, leadsOn, escapes, Attempts(p), now, 1, None);
    forall k: Turn ensures AnswersEscape(p, net, now, k) <==> EscapesFirstAt(tries, leadsOn, escapes, now, k) {
    }
  }

  // ----- how long it takes -----

  /** Posts take no longer than the timeout they were given, and sleeps than they were asked to. */
  predicate HonoursTimeouts(log: seq<Event>) {
    forall e | e in log :: 0.0 <= e.took <= if e.Posted? then e.timeout else e.seconds
  }

  lemma HonoursParts(a: seq<Event>, b: seq<Event>)
    requires HonoursTimeouts(a + b)
    ensures HonoursTimeouts(a) && HonoursTimeouts(b)
  {
    assert forall e | e in a || e in b :: e in a + b;
  }

  predicate Forward(net: Network, k: nat) { 0.0 <= net.lag(k) && 0.0 <= net.pause(k) }

  /** Time lost outside posts and sleeps from attempt `k` on. */
  function Slack(p: Pin, net: Network, k: Turn): real
    requires k <= Attempts(p) + 1
    decreases Attempts(p) + 1 - k
  {
    if k > Attempts(p) then 0.0 else net.lag(k) + net.pause(k) + Slack(p, net, k + 1)
  }

  /** The time attempts `k` and later may take by themselves. */
  function Allowed(p: Pin, k: Turn): real
    requires k <= Attempts(p)
    decreases Attempts(p) - k
  {
    if k == Attempts(p) then p.timeout else p.timeout + Backoff(p, k) + Allowed(p, k + 1)
  }

  /** The sum, over the number of attempts left and the powers of two in it. */
  lemma {:induction false} AllowedSum(p: Pin, k: Turn, left: real, last: real, power: real)
    requires k <= Attempts(p) && left == (Attempts(p) - k + 1) as real
    requires last == Pow2(Attempts(p) - 1) as real && power == Pow2(k - 1) as real
    ensures Allowed(p, k) == left * p.timeout + p.backoff * (last - power)
    decreases Attempts(p) - k
  {
    if k < Attempts(p) {
      AllowedSum(p, k + 1, left - 1.0, last, 2.0 * power);
      assert Allowed(p, k) == p.timeout + p.backoff * power + Allowed(p, k + 1);
    } else {
      assert left == 1.0 && last == power;
    }
  }

  /** The backoffs form a geometric sum. */
  lemma AllowedIsGeometric(p: Pin, k: Turn)
    requires k <= Attempts(p)
    ensures Allowed(p, k) == (Attempts(p) - k + 1) as real * p.timeout
                             + p.backoff * (Pow2(Attempts(p) - 1) as real - Pow2(k - 1) as real)
  {
    AllowedSum(p, k, (Attempts(p) - k + 1) as real, Pow2(Attempts(p) - 1) as real, Pow2(k - 1) as real);
  }

  lemma AllowedInAll(p: Pin)
    ensures Allowed(p, 1) == Attempts(p) as real * p.timeout + p.backoff * (Pow2(Attempts(p) - 1) - 1) as real
  {
    AllowedIsGeometric(p, 1);
    assert Pow2(0) == 1;
    assert Attempts(p) - 1 + 1 == Attempts(p);
    assert (Pow2(Attempts(p) - 1) - 1) as real == Pow2(Attempts(p) - 1) as real - 1.0;
  }

  lemma Pow2Positive(n: nat)
    ensures Pow2(n) >= 1
  {
  }

  lemma BackoffNonnegative(p: Pin, k: Turn)
    requires p.backoff >= 0.0
    ensures Backoff(p, k) >= 0.0
    ensures p.backoff > 0.0 ==> Backoff(p, k) > 0.0
  {
    Pow2Positive(k - 1);
  }

  lemma {:induction false} SlackNonnegative(p: Pin, net: Network, k: Turn)
    requires k <= Attempts(p) + 1 && forall i: nat :: Forward(net, i)
    ensures Slack(p, net, k) >= 0.0
    decreases Attempts(p) + 1 - k
  {
    if k <= Attempts(p) {
      assert Forward(net, k);
      SlackNonnegative(p, net, k + 1);
    }
  }

  lemma {:induction false} AllowedCoversPost(p: Pin, k: Turn)
    requires k <= Attempts(p) && p.timeout >= 0.0 && p.backoff >= 0.0
    ensures Allowed(p, k) >= p.timeout
    ensures k < Attempts(p) ==> Allowed(p, k) >= p.timeout + Backoff(p, k)
    decreases Attempts(p) - k
  {
    if k < Attempts(p) {
      AllowedCoversPost(p, k + 1);
      BackoffNonnegative(p, k);
    }
  }

  /** One attempt and its backoff stay within their own allowance. */
  predicate WithinAllowance(p: Pin, net: Network, k: Turn, now: real, t: Try) {
    t.end <= now + net.lag(k) + p.timeout + net.pause(k) + if k < Attempts(p) then Backoff(p, k) else 0.0
  }

  lemma TryTakes(p: Pin, net: Network, k: Turn, now: real)
    requires k <= Attempts(p) && p.timeout >= 0.0 && p.backoff >= 0.0
    requires Forward(net, k) && HonoursTimeouts(TryAt(p, net, k, now).log)
    ensures WithinAllowance(p, net, k, now, TryAt(p, net, k, now))
  {
    var log := TryAt(p, net, k, now).log;
    BackoffNonnegative(p, k);
    assert log != [] ==> log[0] in log && log[|log| - 1] in log;
  }

  lemma {:induction false} LoopTakes(p: Pin, net: Network, tries: Tries, k: Turn, now: real, last: Option<OgpuError>)
    requires k <= Attempts(p) && p.timeout >= 0.0 && p.backoff >= 0.0
    requires forall i: nat :: Forward(net, i)
    requires forall j: Turn, t: real | j <= Attempts(p) && HonoursTimeouts(tries(j, t).log) ::
               WithinAllowance(p, net, j, t, tries(j, t))
    requires HonoursTimeouts(Loop(tries, Attempts(p), k, now, last).log)
    ensures Loop(tries, Attempts(p), k, now, last).end <= now + Allowed(p, k) + Slack(p, net, k)
    decreases Attempts(p) - k
  {
    var t := tries(k, now);
    AllowedCoversPost(p, k);
    SlackNonnegative(p, net, k + 1);
    if t.verdict.Transient? {
      var rest := Loop(tries, Attempts(p), k + 1, t.end, Some(t.verdict.left));
      HonoursParts(t.log, rest.log);
      assert WithinAllowance(p, net, k, now, t);
      if k < Attempts(p) {
        LoopTakes(p, net, tries, k + 1, t.end, Some(t.verdict.left));
      }
    } else {
      assert WithinAllowance(p, net, k, now, t);
    }
  }

  /**
   With `a` attempts a pin takes at most `a` timeouts, backoffs that add up to
   `backoff * (2^(a-1) - 1)`, and what the scheduler loses.
   */
  lemma PinTimeBound(p: Pin, net: Network, now: real)
    requires p.timeout >= 0.0 && p.backoff >= 0.0
    requires (forall i: nat :: Forward(net, i)) && HonoursTimeouts(PinAt(p, net, now).log)
    ensures PinAt(p, net, now).end - now
            <= Attempts(p) as real * p.timeout + p.backoff * (Pow2(Attempts(p) - 1) - 1) as real + Slack(p, net, 1)
  {
    AllowedInAll(p);
    if net.encode.None? {
      forall j: Turn, t: real | j <= Attempts(p) && HonoursTimeouts(TriesOf(p, net)(j, t).log)
        ensures WithinAllowance(p, net, j, t, TriesOf(p, net)(j, t))
      {
        assert Forward(net, j);
        TryTakes(p, net, j, t);
      }
      LoopTakes(p, net, TriesOf(p, net), 1, now, None);
    } else {
      AllowedCoversPost(p, 1);
      SlackNonnegative(p, net, 1);
    }
  }

  // ----- when posts and sleeps start, and how long they may last -----

  /** When an event is over, and how long one may last that ends by the deadline. */
  function Over(e: Event): real { e.start + e.took }

  function Clipped(p: Pin, length: real, start: real): (r: real)
    ensures p.deadline.None? ==> r == length
    ensures p.deadline.Some? ==> r <= length && start + r <= p.deadline.value
    ensures r == length || (p.deadline.Some? && start + r == p.deadline.value)
  {
    if p.deadline.None? || start + length <= p.deadline.value then length else p.deadline.value - start
  }

  /** Attempt `k` posts once it has been entered, with its timeout clipped. */
  predicate IsPost(p: Pin, net: Network, k: Turn, entered: real, e: Event) {
    var start := entered + net.lag(k);
    && e == Posted(start, Clipped(p, p.timeout, start), net.took(k), net.answer(k))
    && (p.deadline.Some? ==> start < p.deadline.value)
  }

  /** The backoff after attempt `k`, clipped, were it to start at `ready`. */
  function BackoffAt(p: Pin, k: Turn, ready: real): real { Clipped(p, p.backoff * Pow2(k - 1) as real, ready) }

  /** Attempt `k` sleeps its backoff once it is ready to, unless an interrupt cuts it. */
  predicate IsSleep(p: Pin, net: Network, k: Turn, ready: real, e: Event) {
    var seconds := BackoffAt(p, k, ready);
    && seconds > 0.0
    && e == match net.interrupt(k)
            case None => Slept(ready, seconds, seconds, None)
            case Some(i) => Slept(ready, seconds, i.after, Some(i.name))
  }

  /**
   From attempt `k` on, which is entered at `entered`: a post, a sleep if its length is positive, and
   the next post, each starting when the one before it is over.
   */
  predicate TimedLog(p: Pin, net: Network, k: Turn, entered: real, log: seq<Event>)
    decreases |log|
  {
    log != [] ==>
      var ready := Over(log[0]) + net.pause(k);
      && IsPost(p, net, k, entered, log[0])
      && (|log| > 1 ==>
            if log[1].Slept? then
              IsSleep(p, net, k, ready, log[1]) && TimedLog(p, net, k + 1, Over(log[1]), log[2..])
            else BackoffAt(p, k, ready) <= 0.0 && TimedLog(p, net, k + 1, ready, log[1..]))
  }

  /** An attempt that leads on ends with its sleep, or when it has found nothing to sleep. */
  predicate TryTimed(p: Pin, net: Network, k: Turn, now: real, t: Try) {
    && TimedLog(p, net, k, now, t.log)
    && (t.verdict.Transient? && k < Attempts(p) ==>
          || (|t.log| == 2 && t.log[1].Slept? && t.end == Over(t.log[1]))
          || (|t.log| == 1 && t.end == Over(t.log[0]) + net.pause(k) && BackoffAt(p, k, t.end) <= 0.0))
  }

  lemma PostIsTimed(p: Pin, net: Network, k: Turn, now: real)
    requires TryAt(p, net, k, now).log != []
    ensures IsPost(p, net, k, now, TryAt(p, net, k, now).log[0])
  {
  }

  /** The sleep is decided by the sign of its clipped length. */
  lemma SleepsIfPositive(p: Pin, k: Turn, ready: real)
    ensures SleepFor(p, k, ready) > 0.0 <==> BackoffAt(p, k, ready) > 0.0
    ensures SleepFor(p, k, ready) > 0.0 ==> SleepFor(p, k, ready) == BackoffAt(p, k, ready)
  {
    var full := p.backoff * Pow2(k - 1) as real;
    assert Backoff(p, k) == full;
  }

  lemma TryIsTimed(p: Pin, net: Network, k: Turn, now: real)
    ensures TryTimed(p, net, k, now, TryAt(p, net, k, now))
  {
    if TryAt(p, net, k, now).log != [] {
      PostIsTimed(p, net, k, now);
      SleepsIfPositive(p, k, now + net.lag(k) + net.took(k) + net.pause(k));
    }
  }

  lemma TimedAppends(p: Pin, net: Network, k: Turn, entered: real, t: Try, rest: seq<Event>)
    requires TryTimed(p, net, k, entered, t) && t.verdict.Transient? && k < Attempts(p)
    requires TimedLog(p, net, k + 1, t.end, rest)
    ensures TimedLog(p, net, k, entered, t.log + rest)
  {
    assert (t.log + rest)[|t.log|..] == rest;
    assert rest != [] ==> rest[0].Posted?;
    assert rest == [] ==> t.log + rest == t.log;
  }

  lemma {:induction false} LoopTimed(p: Pin, net: Network, tries: Tries, k: Turn, now: real, last: Option<OgpuError>)
    requires k <= Attempts(p) + 1
    requires forall j: Turn, t: real | j <= Attempts(p) :: TryTimed(p, net, j, t, tries(j, t))
    ensures TimedLog(p, net, k, now, Loop(tries, Attempts(p), k, now, last).log)
    decreases Attempts(p) + 1 - k
  {
    if k <= Attempts(p) {
      var t := tries(k, now);
      assert TryTimed(p, net, k, now, t);
      LogUnfolds(tries, Attempts(p), k, now, last);
      if t.verdict.Transient? && k < Attempts(p) {
        LoopTimed(p, net, tries, k + 1, t.end, Some(t.verdict.left));
        TimedAppends(p, net, k, now, t, Loop(tries, Attempts(p), k + 1, t.end, Some(t.verdict.left)).log);
      }
    }
  }

  /** The log of a loop is its first attempt's, and if that leads on and is not the last, the others'. */
  lemma LogUnfolds(tries: Tries, attempts: nat, k: Turn, now: real, last: Option<OgpuError>)
    requires k <= attempts
    ensures var t := tries(k, now);
            Loop(tries, attempts, k, now, last).log
            == if t.verdict.Transient? && k < attempts
               then t.log + Loop(tries, attempts, k + 1, t.end, Some(t.verdict.left)).log else t.log
  {
    assert tries(k, now).log + [] == tries(k, now).log;
  }

  /**
   Posts and sleeps follow one another, each starting when the one before it is over; timeouts are the
   given one and sleeps double, and the deadline, if there is one, clips both.
   */
  lemma SleepsDouble(p: Pin, net: Network, now: real)
    requires net.encode.None?
    ensures TimedLog(p, net, 1, now, PinAt(p, net, now).log)
  {
    forall j: Turn, t: real | j <= Attempts(p) ensures TryTimed(p, net, j, t, TriesOf(p, net)(j, t)) {
      TryIsTimed(p, net, j, t);
    }
    LoopTimed(p, net, TriesOf(p, net), 1, now, None);
  }

  // ----- the deadline -----

  /** Posts and sleeps are planned to end by the deadline. */
  predicate EndsBy(d: real, log: seq<Event>) {
    && (forall e | e in log && e.Posted? :: e.start < d && e.start + e.timeout <= d)
    && (forall e | e in log && e.Slept? :: e.start + e.seconds <= d)
  }

  lemma TryEndsBy(p: Pin, net: Network, k: Turn, now: real)
    requires p.deadline.Some?
    ensures EndsBy(p.deadline.value, TryAt(p, net, k, now).log)
  {
  }

  lemma {:induction false} LoopEndsBy(d: real, tries: Tries, attempts: nat, k: Turn, now: real, last: Option<OgpuError>)
    requires k <= attempts + 1 && forall j: Turn, t: real :: EndsBy(d, tries(j, t).log)
    ensures EndsBy(d, Loop(tries, attempts, k, now, last).log)
    decreases attempts + 1 - k
  {
    if k <= attempts {
      var t := tries(k, now);
      assert EndsBy(d, t.log);
      if t.verdict.Transient? {
        LoopEndsBy(d, tries, attempts, k + 1, t.end, Some(t.verdict.left));
      }
    }
  }

  /** An attempt that keeps to its timeouts overruns the deadline by scheduling alone. */
  predicate InTime(p: Pin, net: Network, k: Turn, now: real, t: Try)
    requires p.deadline.Some?
  {
    t.end <= MaxReal(now, p.deadline.value) + net.lag(k) + net.pause(k)
  }

  lemma TryInTime(p: Pin, net: Network, k: Turn, now: real)
    requires p.deadline.Some? && Forward(net, k) && HonoursTimeouts(TryAt(p, net, k, now).log)
    ensures InTime(p, net, k, now, TryAt(p, net, k, now))
  {
    var log := TryAt(p, net, k, now).log;
    assert log != [] ==> log[0] in log && log[|log| - 1] in log;
  }

  lemma {:induction false} LoopInTime(p: Pin, net: Network, tries: Tries, k: Turn, now: real, last: Option<OgpuError>)
    requires k <= Attempts(p) + 1 && p.deadline.Some? && forall i: nat :: Forward(net, i)
    requires forall j: Turn, t: real | HonoursTimeouts(tries(j, t).log) :: InTime(p, net, j, t, tries(j, t))
    requires HonoursTimeouts(Loop(tries, Attempts(p), k, now, last).log)
    ensures Loop(tries, Attempts(p), k, now, last).end <= MaxReal(now, p.deadline.value) + Slack(p, net, k)
    decreases Attempts(p) + 1 - k
  {
    if k <= Attempts(p) {
      var t := tries(k, now);
      assert Forward(net, k);
      SlackNonnegative(p, net, k + 1);
      if t.verdict.Transient? {
        HonoursParts(t.log, Loop(tries, Attempts(p), k + 1, t.end, Some(t.verdict.left)).log);
        assert InTime(p, net, k, now, t);
        LoopInTime(p, net, tries, k + 1, t.end, Some(t.verdict.left));
      } else {
        assert InTime(p, net, k, now, t);
      }
    }
  }

  /** If posts and sleeps keep to their times, the call ends by the deadline and what the scheduler loses. */
  lemma PinEndsInTime(p: Pin, net: Network, now: real)
    requires p.deadline.Some? && (forall i: nat :: Forward(net, i)) && HonoursTimeouts(PinAt(p, net, now).log)
    ensures PinAt(p, net, now).end <= MaxReal(now, p.deadline.value) + Slack(p, net, 1)
  {
    SlackNonnegative(p, net, 1);
    if net.encode.None? {
      forall j: Turn, t: real | HonoursTimeouts(TriesOf(p, net)(j, t).log)
        ensures InTime(p, net, j, t, TriesOf(p, net)(j, t))
      {
        assert Forward(net, j);
        TryInTime(p, net, j, t);
      }
      LoopInTime(p, net, TriesOf(p, net), 1, now, None);
    }
  }

  /** Every post and every sleep is planned to end by the deadline, and a call that starts past it posts nothing. */
  lemma PinKeepsDeadline(p: Pin, net: Network, now: real)
    requires p.deadline.Some?
    ensures EndsBy(p.deadline.value, PinAt(p, net, now).log)
    ensures p.deadline.value <= now && Forward(net, 1) && net.encode.None? ==>
              PinAt(p, net, now).log == [] && PinAt(p, net, now).result == Failed(IpfsFetch(NEVER_TRIED))
  {
    forall j: Turn, t: real ensures EndsBy(p.deadline.value, TriesOf(p, net)(j, t).log) {
      TryEndsBy(p, net, j, t);
    }
    LoopEndsBy(p.deadline.value, TriesOf(p, net), Attempts(p), 1, now, None);
    if p.deadline.value <= now && Forward(net, 1) {
      assert TriesOf(p, net)(1, now) == Try([], GaveUp, now + net.lag(1));
    }
  }
}
