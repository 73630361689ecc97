/**
 The executor and the nonce cache together: threads that each run any number of executions to the
 end, interleaved in any way, leave the shared counter exactly where the chain expects it.
 */
module Composition {
  import opened NonceOps
  import opened TxExecution
  import opened TxProperties
  import P = NonceProtocol
  import L = LockProtocol

  /**
   What happens to the nonces an execution owns.  A reset by a thread that owns nothing is not among
   it: whoever wants to may drop the entry at any time.
   */
  datatype NonceOp = Took(nonce: nat) | GaveBack(nonce: nat) | Sent(nonce: nat) | GaveUp

  function OpOf(e: Event): seq<NonceOp> {
    match e
    case Reserved(n) => [Took(n)]
    case Released(n) => [GaveBack(n)]
    case Broadcast(n, _, _, _) => [Sent(n)]
    case _ => []
  }

  function OpsOf(log: seq<Event>): seq<NonceOp>
    decreases |log|
  {
    if log == [] then [] else OpOf(log[0]) + OpsOf(log[1..])
  }

  function NextOwn(h: Hold, op: NonceOp): Hold {
    match op
    case Took(n) => if h.Free? then Owns(n) else Broken
    case GaveBack(n) => if h == Owns(n) then Free else Broken
    case Sent(n) => if h == Owns(n) then Free else Broken
    case GaveUp => if h.Owns? then Free else Broken
  }

  function TrackOps(h: Hold, ops: seq<NonceOp>): Hold
    decreases |ops|
  {
    if ops == [] then h else TrackOps(NextOwn(h, ops[0]), ops[1..])
  }

  lemma {:induction false} TrackOpsAppend(h: Hold, a: seq<NonceOp>, b: seq<NonceOp>)
    ensures TrackOps(h, a + b) == TrackOps(TrackOps(h, a), b)
    decreases |a|
  {
    if a == [] {
      assert a + b == b;
    } else {
      assert (a + b)[1..] == a[1..] + b;
      TrackOpsAppend(NextOwn(h, a[0]), a[1..], b);
    }
  }

  /** Dropping the events the cache does not see loses nothing about ownership. */
  lemma {:induction false} OpsTrackTheLog(h: Hold, log: seq<Event>)
    requires !Track(h, log).Broken?
    ensures TrackOps(h, OpsOf(log)) == Track(h, log)
    decreases |log|
  {
    if log != [] {
      var h' := NextHold(h, log[0]);
      if h'.Broken? {
        BrokenStays(log[1..]);
      }
      OpsTrackTheLog(h', log[1..]);
      TrackOpsAppend(h, OpOf(log[0]), OpsOf(log[1..]));
      OneOpTracks(h, log[0]);
    }
  }

  lemma OneOpTracks(h: Hold, e: Event)
    requires !NextHold(h, e).Broken?
    ensures TrackOps(h, OpOf(e)) == NextHold(h, e)
  {
  }

  // ----- a thread's program: executions one after the other -----

  datatype Job = Job(executor: Executor, oracle: Oracle, start: real)

  function LogOfJob(job: Job): seq<Event> { LogOf(job.executor, job.oracle, job.start) }

  function JobOps(jobs: seq<Job>): seq<NonceOp>
    decreases |jobs|
  {
    if jobs == [] then []
    else OpsOf(LogOfJob(jobs[0])) + JobOps(jobs[1..])
  }

  lemma {:induction false} JobsEndFree(jobs: seq<Job>)
    ensures TrackOps(Free, JobOps(jobs)) == Free
    decreases |jobs|
  {
    if jobs != [] {
      var log := LogOfJob(jobs[0]);
      ReservationsConserved(jobs[0].executor, jobs[0].oracle, jobs[0].start);
      OpsTrackTheLog(Free, log);
      JobsEndFree(jobs[1..]);
      TrackOpsAppend(Free, OpsOf(log), JobOps(jobs[1..]));
    }
  }

  // ----- a thread's share of an interleaved run -----

  function OpAt(s: P.State, e: P.Event, t: P.Tid): seq<NonceOp>
    requires P.Enabled(s, e)
  {
    match e
    case Reserve(u, r) => if u == t then [Took(NextNonce(s.cell, r))] else []
    case Release(u) => if u == t then [GaveBack(s.holders[u])] else []
    case Broadcast(u) => if u == t then [Sent(s.holders[u])] else []
    case Reset(u) => if u == t && t in s.holders then [GaveUp] else []
    case _ => []
  }

  function Share(s: P.State, es: seq<P.Event>, t: P.Tid): seq<NonceOp>
    requires P.Runs(s, es)
    decreases |es|
  {
    if es == [] then [] else OpAt(s, es[0], t) + Share(P.Apply(s, es[0]), es[1..], t)
  }

  function HoldOf(s: P.State, t: P.Tid): Hold {
    if t in s.holders then Owns(s.holders[t]) else Free
  }

  /** What a thread did is what it owns. */
  lemma {:induction false} ShareTracks(s: P.State, es: seq<P.Event>, t: P.Tid)
    requires P.Runs(s, es)
    ensures TrackOps(HoldOf(s, t), Share(s, es, t)) == HoldOf(P.After(s, es), t)
    decreases |es|
  {
    if es != [] {
      var op, s' := OpAt(s, es[0], t), P.Apply(s, es[0]);
      ShareTracks(s', es[1..], t);
      TrackOpsAppend(HoldOf(s, t), op, Share(s', es[1..], t));
      assert TrackOps(HoldOf(s, t), op) == HoldOf(s', t) by {
        if op != [] {
          assert op[1..] == [];
        }
      }
    }
  }

  /**
   Every thread's share of the run is exactly the nonce traffic of its executions, all finished; a
   thread without executions may still reset and read, as a repair or a diagnostic does.
   */
  ghost predicate AllFinished(s: P.State, es: seq<P.Event>, jobs: P.Tid -> seq<Job>) {
    P.Runs(s, es) && forall t :: Share(s, es, t) == JobOps(jobs(t))
  }

  lemma FinishedThreadsHoldNothing(s: P.State, es: seq<P.Event>, jobs: P.Tid -> seq<Job>)
    requires P.Initial(s) && AllFinished(s, es, jobs)
    ensures P.After(s, es).holders == map[]
  {
    var s' := P.After(s, es);
    forall t ensures t !in s'.holders {
      assert Share(s, es, t) == JobOps(jobs(t));
      ShareTracks(s, es, t);
      JobsEndFree(jobs(t));
    }
    assert s'.holders.Keys == {};
  }

  /**
   Whatever mix of success, failure, retry and release order there was: once all executions are
   over, the next reservation under a fresh reading is the chain's pending nonce.
   */
  lemma FinishedExecutionsRecover(s: P.State, es: seq<P.Event>, jobs: P.Tid -> seq<Job>)
    requires P.Initial(s) && AllFinished(s, es, jobs) && P.RunsHonestly(s, es)
    ensures var s' := P.After(s, es);
            NextNonce(s'.cell, P.Pending(s')) == P.Pending(s')
  {
    FinishedThreadsHoldNothing(s, es, jobs);
    P.QuiescentRecovery(s, es, P.Pending(P.After(s, es)));
  }

  /** The same under every thread schedule, with the lock steps spelled out, at every address. */
  lemma ScheduledExecutionsRecover(s: L.State, es: seq<L.Event>, a: L.Addr, jobs: P.Tid -> seq<Job>)
    requires L.Initial(s) && L.Runs(s, es)
    requires AllFinished(L.Abs(s, a), L.Effects(s, es, a), jobs)
    ensures var s' := L.Abs(L.After(s, es), a);
            NextNonce(L.CellOf(L.After(s, es), a), P.Pending(s')) == P.Pending(s')
  {
    L.RunRefines(s, es, a);
    FinishedExecutionsRecover(L.Abs(s, a), L.Effects(s, es, a), jobs);
  }
}
