/** RPC endpoints per chain, and the sync and async Web3 instances cached from them. */
module RpcConfig {
  import opened Prelude
  import opened Errors

  type ChainId = int

  const MAINNET: ChainId := 1071
  const TESTNET: ChainId := 200820172034

  const DEFAULT_URLS: map<ChainId, string> := map[
    MAINNET := "https://mainnet-rpc.ogpuscan.io",
    TESTNET := "https://testnetrpc.ogpuscan.io"
  ]

  /** The chains the SDK has contracts for. */
  predicate Supported(chain: ChainId) { chain == MAINNET || chain == TESTNET }

  /** A client object: which endpoint it talks to, and its identity. */
  datatype Client = Client(url: string, id: nat)

  datatype Failure = Sdk(error: OgpuError) | ConnectionError(url: string) | ValueError(reason: string)

  // ----- the specification: one value, one function per operation -----

  datatype State = State(current: ChainId, urls: map<ChainId, string>,
                         instances: map<ChainId, Client>, asyncInstances: map<string, Client>, made: nat)

  datatype Op =
    | SetChain(to: ChainId)
    | SetRpc(url: string, chain: Option<ChainId>, reachable: bool)
    | ResetRpc(chain: Option<ChainId>)
    | GetWeb3(chain: Option<ChainId>, reachable: bool)
    | GetAsyncWeb3(reachable: bool)

  function Target(s: State, chain: Option<ChainId>): ChainId { chain.GetOr(s.current) }

  function WithUrl(s: State, chain: ChainId, url: string): State {
    s.(urls := s.urls[chain := url], instances := s.instances - {chain})
  }

  function UrlOf(s: State, chain: ChainId): string {
    if chain in s.urls then s.urls[chain] else ""
  }

  function Apply(s: State, op: Op): State {
    match op
    case SetChain(c) => if Supported(c) then s.(current := c) else s
    case SetRpc(url, c, reachable) =>
      if Supported(Target(s, c)) && reachable then WithUrl(s, Target(s, c), url) else s
    case ResetRpc(c) =>
      if Target(s, c) in DEFAULT_URLS then WithUrl(s, Target(s, c), DEFAULT_URLS[Target(s, c)]) else s
    case GetWeb3(c, reachable) =>
      var t := Target(s, c);
      if t !in s.instances && UrlOf(s, t) != "" && reachable then
        s.(instances := s.instances[t := Client(s.urls[t], s.made)], made := s.made + 1)
      else s
    case GetAsyncWeb3(reachable) =>
      var url := UrlOf(s, s.current);
      if Supported(s.current) && url !in s.asyncInstances && reachable then
        s.(asyncInstances := s.asyncInstances[url := Client(url, s.made)], made := s.made + 1)
      else s
  }

  function After(s: State, ops: seq<Op>): State
    decreases |ops|
  {
    if ops == [] then s else After(Apply(s, ops[0]), ops[1..])
  }

  const START: State := State(MAINNET, DEFAULT_URLS, map[], map[], 0)

  // ----- the classes as the source keeps them -----

  class Web3Manager {
    var urls: map<ChainId, string>
    var instances: map<ChainId, Client>
    var made: nat

    constructor ()
      ensures urls == DEFAULT_URLS && instances == map[] && made == 0
    {
      urls, instances, made := DEFAULT_URLS, map[], 0;
    }

    method UpdateRpcUrl(chain: ChainId, url: string)
      modifies this`urls, this`instances
      ensures urls == old(urls)[chain := url] && instances == old(instances) - {chain}
    {
      urls := urls[chain := url];
      if chain in instances {
        instances := instances - {chain};
      }
    }

    method GetWeb3Instance(chain: ChainId, reachable: bool) returns (r: Result<Client, Failure>)
      modifies this`instances, this`made
      ensures chain in old(instances) ==>
                r == Ok(old(instances)[chain]) && instances == old(instances) && made == old(made)
      ensures chain !in old(instances) && r.Ok? ==>
                && chain in urls && r.value == Client(urls[chain], old(made))
                && instances == old(instances)[chain := r.value] && made == old(made) + 1
      ensures r.Err? ==> instances == old(instances) && made == old(made)
      ensures chain !in old(instances) ==>
                (r.Ok? <==> chain in urls && urls[chain] != "" && reachable)
      ensures r.Err? ==> r.error == if chain !in urls then ValueError("RPC URL not configured")
                                    else if urls[chain] == "" then ValueError("RPC URL is not set")
                                    else ConnectionError(urls[chain])
    {
      if chain in instances {
        return Ok(instances[chain]);
      }
      if chain !in urls {
        return Err(ValueError("RPC URL not configured"));
      }
      var url := urls[chain];
      if url == "" {
        return Err(ValueError("RPC URL is not set"));
      }
      var web3 := Client(url, made);
      if !reachable {
        return Err(ConnectionError(url));
      }
      made := made + 1;
      instances := instances[chain := web3];
      r := Ok(web3);
    }
  }

  class ChainConfig {
    var current: ChainId
    const manager: Web3Manager
    var asyncInstances: map<string, Client>

    constructor (manager: Web3Manager)
      ensures current == MAINNET && this.manager == manager && asyncInstances == map[]
    {
      current, this.manager, asyncInstances := MAINNET, manager, map[];
    }

    /** The value the specification works on. */
    function Contents(): State
      reads this, manager
    {
      State(current, manager.urls, manager.instances, asyncInstances, manager.made)
    }

    method SetChain(chain: ChainId) returns (r: Result<(), Failure>)
      modifies this
      ensures Contents() == Apply(old(Contents()), Op.SetChain(chain))
      ensures if Supported(chain) then r.Ok? && current == chain
              else r == Err(Sdk(ChainNotSupported(chain))) && unchanged(this)
    {
      if !Supported(chain) {
        return Err(Sdk(ChainNotSupported(chain)));
      }
      current := chain;
      r := Ok(());
    }

    method SetRpc(url: string, chain: Option<ChainId>, reachable: bool) returns (r: Result<(), Failure>)
      modifies manager
      ensures Contents() == Apply(old(Contents()), Op.SetRpc(url, chain, reachable))
      ensures var target := if chain.Some? then chain.value else current;
              if !Supported(target) then r == Err(Sdk(ChainNotSupported(target))) && unchanged(manager)
              else if !reachable then r == Err(Sdk(InvalidRpcUrl(url))) && unchanged(manager)
              else r.Ok? && manager.urls == old(manager.urls)[target := url]
                   && manager.instances == old(manager.instances) - {target}
    {
      var target := if chain.Some? then chain.value else current;
      if !Supported(target) {
        return Err(Sdk(ChainNotSupported(target)));
      }
      if !reachable {
        return Err(Sdk(InvalidRpcUrl(url)));
      }
      manager.UpdateRpcUrl(target, url);
      r := Ok(());
    }

    method GetRpc(chain: Option<ChainId>) returns (r: Result<string, Failure>)
      requires forall c :: Supported(c) ==> c in manager.urls
      ensures var target := if chain.Some? then chain.value else current;
              r == if Supported(target) then Ok(manager.urls[target]) else Err(Sdk(ChainNotSupported(target)))
    {
      var target := if chain.Some? then chain.value else current;
      if !Supported(target) {
        return Err(Sdk(ChainNotSupported(target)));
      }
      r := Ok(manager.urls[target]);
    }

    method ResetRpc(chain: Option<ChainId>) returns (r: Result<(), Failure>)
      modifies manager
      ensures Contents() == Apply(old(Contents()), Op.ResetRpc(chain))
      ensures var target := if chain.Some? then chain.value else current;
              if target !in DEFAULT_URLS then r == Err(Sdk(ChainNotSupported(target))) && unchanged(manager)
              else r.Ok? && manager.urls == old(manager.urls)[target := DEFAULT_URLS[target]]
                   && manager.instances == old(manager.instances) - {target}
    {
      var target := if chain.Some? then chain.value else current;
      if target !in DEFAULT_URLS {
        return Err(Sdk(ChainNotSupported(target)));
      }
      manager.UpdateRpcUrl(target, DEFAULT_URLS[target]);
      r := Ok(());
    }

    method GetWeb3(chain: Option<ChainId>, reachable: bool) returns (r: Result<Client, Failure>)
      modifies manager
      ensures Contents() == Apply(old(Contents()), Op.GetWeb3(chain, reachable))
      ensures var target := if chain.Some? then chain.value else current;
              && (r.Ok? <==> || target in old(manager.instances)
                             || (target in manager.urls && manager.urls[target] != "" && reachable))
              && (r.Ok? ==> target in manager.instances && r.value == manager.instances[target])
              && (target in old(manager.instances) || r.Err? ==> unchanged(manager))
    {
      r := manager.GetWeb3Instance(if chain.Some? then chain.value else current, reachable);
    }

    method GetAsyncWeb3(reachable: bool) returns (r: Result<Client, Failure>)
      requires forall c :: Supported(c) ==> c in manager.urls
      modifies this, manager
      ensures Contents() == Apply(old(Contents()), Op.GetAsyncWeb3(reachable))
      ensures if !Supported(current) then r == Err(Sdk(ChainNotSupported(current))) && unchanged(this)
              else
                var url := manager.urls[current];
                && (r.Ok? <==> url in old(asyncInstances) || reachable)
                && (r.Ok? ==> url in asyncInstances && r.value == asyncInstances[url])
                && (r.Err? ==> r.error == ConnectionError(url))
                && (url in old(asyncInstances) || r.Err? ==> unchanged(this))
    {
      var url := GetRpc(None);
      if url.Err? {
        return Err(url.error);
      }
      if url.value in asyncInstances {
        return Ok(asyncInstances[url.value]);
      }
      var w3 := Client(url.value, manager.made);
      if !reachable {
        return Err(ConnectionError(url.value));
      }
      manager.made := manager.made + 1;
      asyncInstances := asyncInstances[url.value := w3];
      r := Ok(w3);
    }
  }

  // ----- coherence over any history -----

  /** Every cached client talks to the endpoint it would be made with now. */
  predicate Coherent(s: State) {
    && Supported(s.current) && (forall c | c in s.urls :: Supported(c)) && MAINNET in s.urls && TESTNET in s.urls
    && (forall c | c in s.instances :: c in s.urls && s.instances[c].url == s.urls[c])
    && (forall url | url in s.asyncInstances :: s.asyncInstances[url].url == url)
  }

  lemma CoherentStep(s: State, op: Op)
    requires Coherent(s)
    ensures Coherent(Apply(s, op))
  {
  }

  lemma {:induction false} CoherentAfter(s: State, ops: seq<Op>)
    requires Coherent(s)
    ensures Coherent(After(s, ops))
    decreases |ops|
  {
    if ops != [] {
      CoherentStep(s, ops[0]);
      CoherentAfter(Apply(s, ops[0]), ops[1..]);
    }
  }

  /** The endpoint an operation writes for `chain`, if it writes one. */
  function Written(s: State, op: Op, chain: ChainId): Option<string> {
    match op
    case SetRpc(url, c, reachable) =>
      if reachable && Target(s, c) == chain && Supported(chain) then Some(url) else None
    case ResetRpc(c) =>
      if Target(s, c) == chain && chain in DEFAULT_URLS then Some(DEFAULT_URLS[chain]) else None
    case _ => None
  }

  /** The last endpoint written for `chain` by the history, or the one it started with. */
  function LastWritten(s: State, ops: seq<Op>, chain: ChainId): string
    decreases |ops|
  {
    if ops == [] then UrlOf(s, chain)
    else
      var before, op := ops[..|ops| - 1], ops[|ops| - 1];
      match Written(After(s, before), op, chain)
      case Some(url) => url
      case None => LastWritten(s, before, chain)
  }

  lemma {:induction false} AfterSnoc(s: State, ops: seq<Op>, op: Op)
    ensures After(s, ops + [op]) == Apply(After(s, ops), op)
    decreases |ops|
  {
    if ops == [] {
      assert ([] + [op])[1..] == [];
    } else {
      assert (ops + [op])[1..] == ops[1..] + [op];
      AfterSnoc(Apply(s, ops[0]), ops[1..], op);
    }
  }

  /** The endpoint of a chain is whatever was last written for it: nothing else ever touches it. */
  lemma {:induction false} UrlIsLastWritten(s: State, ops: seq<Op>, chain: ChainId)
    ensures UrlOf(After(s, ops), chain) == LastWritten(s, ops, chain)
    decreases |ops|
  {
    if ops != [] {
      var before, op := ops[..|ops| - 1], ops[|ops| - 1];
      assert ops == before + [op];
      AfterSnoc(s, before, op);
      UrlIsLastWritten(s, before, chain);
    }
  }

  /**
   From process start, after any history of switches, overrides, failed overrides, resets and
   lookups, a lookup that succeeds yields a client for the last endpoint written for its chain.
   */
  lemma LookupsAreCurrent(ops: seq<Op>, chain: Option<ChainId>, reachable: bool)
    ensures var s := After(START, ops);
            var s', c := Apply(s, GetWeb3(chain, reachable)), Target(s, chain);
            && (c in s'.instances ==> s'.instances[c].url == LastWritten(START, ops, c))
            && (reachable && c in s.urls && UrlOf(s, c) != "" ==> c in s'.instances)
    ensures var s := After(START, ops);
            var s' := Apply(s, GetAsyncWeb3(reachable));
            var url := LastWritten(START, ops, s.current);
            && (url in s'.asyncInstances ==> s'.asyncInstances[url].url == url)
            && (reachable ==> url in s'.asyncInstances)
  {
    var s := After(START, ops);
    CoherentAfter(START, ops);
    UrlIsLastWritten(START, ops, Target(s, chain));
    UrlIsLastWritten(START, ops, s.current);
    CoherentStep(s, GetWeb3(chain, reachable));
    CoherentStep(s, GetAsyncWeb3(reachable));
  }

  /** After any history a reset leaves the built-in endpoint, and no client of the old one. */
  lemma ResetRestoresDefault(ops: seq<Op>, chain: ChainId)
    requires Supported(chain)
    ensures var s := After(START, ops + [ResetRpc(Some(chain))]);
            && chain !in s.instances
            && UrlOf(s, chain) == if chain == 1071 then "https://mainnet-rpc.ogpuscan.io"
                                  else "https://testnetrpc.ogpuscan.io"
  {
    AfterSnoc(START, ops, ResetRpc(Some(chain)));
  }

  // ----- which chain is active -----

  /** No operation of the history switches to a supported chain. */
  predicate NoSwitch(ops: seq<Op>) { forall op | op in ops && op.SetChain? :: !Supported(op.to) }

  lemma {:induction false} ActiveStays(s: State, ops: seq<Op>)
    requires NoSwitch(ops)
    ensures After(s, ops).current == s.current
    decreases |ops|
  {
    if ops != [] {
      assert ops[0] in ops;
      ActiveStays(Apply(s, ops[0]), ops[1..]);
    }
  }

  lemma {:induction false} AfterAppends(s: State, a: seq<Op>, b: seq<Op>)
    ensures After(s, a + b) == After(After(s, a), b)
    decreases |a|
  {
    if a == [] {
      assert a + b == b;
    } else {
      assert (a + b)[1..] == a[1..] + b;
      AfterAppends(Apply(s, a[0]), a[1..], b);
    }
  }

  /** The active chain is the supported one that was set last, and mainnet, chain 1071, until one is set. */
  lemma ActiveIsLastSet(before: seq<Op>, chain: ChainId, later: seq<Op>)
    requires NoSwitch(later)
    ensures After(START, later).current == 1071
    ensures chain == 1071 || chain == 200820172034 ==>
              After(START, before + [SetChain(chain)] + later).current == chain
    ensures chain != 1071 && chain != 200820172034 ==>
              After(START, before + [SetChain(chain)]) == After(START, before)
  {
    ActiveStays(START, later);
    AfterAppends(START, before + [SetChain(chain)], later);
    AfterSnoc(START, before, SetChain(chain));
    ActiveStays(After(START, before + [SetChain(chain)]), later);
  }

  // ----- how long a client is served -----

  /** Some operation of the history writes the endpoint of `chain`. */
  predicate Touched(s: State, ops: seq<Op>, chain: ChainId)
    decreases |ops|
  {
    ops != [] && (Written(s, ops[0], chain).Some? || Touched(Apply(s, ops[0]), ops[1..], chain))
  }

  /** Nothing made before the `n`-th client is cached for `chain`. */
  predicate OnlyNewer(s: State, chain: ChainId, n: nat) {
    n <= s.made && (chain in s.instances ==> s.instances[chain].id >= n)
  }

  lemma {:induction false} OldClientsStayGone(s: State, ops: seq<Op>, chain: ChainId, n: nat)
    requires OnlyNewer(s, chain, n)
    ensures OnlyNewer(After(s, ops), chain, n)
    decreases |ops|
  {
    if ops != [] {
      OldClientsStayGone(Apply(s, ops[0]), ops[1..], chain, n);
    }
  }

  /**
   A cached client is served exactly until the endpoint of its own chain is written, even if with
   the same URL; switches, lookups, failures and writes for other chains leave it in place.
   */
  lemma {:induction false} ClientServedExactly(s: State, ops: seq<Op>, chain: ChainId)
    requires chain in s.instances && s.instances[chain].id < s.made
    ensures var s' := After(s, ops);
            (chain in s'.instances && s'.instances[chain] == s.instances[chain]) <==> !Touched(s, ops, chain)
    decreases |ops|
  {
    if ops != [] {
      var s' := Apply(s, ops[0]);
      if Written(s, ops[0], chain).Some? {
        OldClientsStayGone(s', ops[1..], chain, s.made);
      } else {
        assert chain in s'.instances && s'.instances[chain] == s.instances[chain];
        ClientServedExactly(s', ops[1..], chain);
      }
    }
  }

  // ----- a lookup racing an override -----

  /** The last step of a first lookup: store the client made from the endpoint read earlier. */
  function FinishLookup(s: State, chain: ChainId, readUrl: string): State {
    s.(instances := s.instances[chain := Client(readUrl, s.made)], made := s.made + 1)
  }

  /**
   A lookup does not hold a lock while it probes the node.  If other operations run in between, the
   client it stores is coherent exactly when they left the endpoint as it was read.
   */
  lemma RacingLookupCoherentExactly(s: State, ops: seq<Op>, chain: ChainId)
    requires Coherent(s) && Supported(chain)
    ensures Coherent(FinishLookup(After(s, ops), chain, UrlOf(s, chain)))
            <==> LastWritten(s, ops, chain) == UrlOf(s, chain)
  {
    CoherentAfter(s, ops);
    UrlIsLastWritten(s, ops, chain);
    var t := FinishLookup(After(s, ops), chain, UrlOf(s, chain));
    assert t.instances[chain].url == UrlOf(s, chain);
  }

  /** The last step of a first asynchronous lookup, which awaits its probe with the URL in hand. */
  function FinishAsyncLookup(s: State, readUrl: string): State {
    s.(asyncInstances := s.asyncInstances[readUrl := Client(readUrl, s.made)], made := s.made + 1)
  }

  /** Being keyed by URL, the asynchronous cache takes no harm from whatever runs during the probe. */
  lemma RacingAsyncLookupStaysCoherent(s: State, ops: seq<Op>)
    requires Coherent(s)
    ensures Coherent(FinishAsyncLookup(After(s, ops), UrlOf(s, s.current)))
  {
    CoherentAfter(s, ops);
  }
}
