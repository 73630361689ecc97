/** The nonce cache itself, and the repair routine that cancels stuck transactions. */
module NonceManagement {
  import opened Prelude
  import opened NonceOps

  /** One connected node, as seen during one call: its checksum rule and its pending counts, or why a reading fails. */
  datatype Web3 = Web3(checksum: string -> string, pendingCount: string -> Result<nat, string>)

  /** A lock object, by its identity. */
  type LockId = nat

  /** `n` is the larger of the pending count and the entry under `key`, if there is one. */
  predicate IsLarger(n: nat, nonces: map<string, nat>, key: string, pending: nat) {
    && n >= pending && (key in nonces ==> n >= nonces[key])
    && (n == pending || (key in nonces && n == nonces[key]))
  }

  /** The lock table has gained an entry for `key`, if it had none, and lost or changed nothing. */
  predicate Registers(before: map<string, LockId>, after: map<string, LockId>, key: string) {
    && after.Keys == before.Keys + {key}
    && (forall a | a in before :: after[a] == before[a])
    && (key !in before ==> after[key] !in before.Values)
  }

  class NonceManager {
    var nonces: map<string, nat>
    var locks: map<string, LockId>
    var locksMade: LockId

    /** Lock objects are numbered as they are made, and each serves one address. */
    predicate Valid()
      reads this
    {
      && (forall a | a in locks :: locks[a] < locksMade)
      && (forall a, b | a in locks && b in locks && a != b :: locks[a] != locks[b])
    }

    /** The cache entry under an already normalised address. */
    function Entry(key: string): Cell
      reads this
    {
      if key in nonces then Some(nonces[key]) else None
    }

    constructor ()
      ensures Valid() && nonces == map[] && locks == map[]
    {
      nonces, locks, locksMade := map[], map[], 0;
    }

    method GetLock(key: string) returns (lock: LockId)
      requires Valid()
      modifies this
      ensures Valid() && nonces == old(nonces)
      ensures Registers(old(locks), locks, key) && lock == locks[key]
    {
      if key !in locks {
        locks := locks[key := locksMade];
        locksMade := locksMade + 1;
      }
      lock := locks[key];
    }

    method GetNonce(address: string, web3: Web3, forceRefresh: bool := false) returns (r: Result<nat, string>)
      requires Valid()
      modifies this
      ensures Valid() && Registers(old(locks), locks, web3.checksum(address))
      ensures var key := web3.checksum(address);
              match web3.pendingCount(key)
              case Err(reason) => r == Err(reason) && nonces == old(nonces)
              case Ok(pending) =>
                && r.Ok? && AfterRead(old(Entry(key)), pending, forceRefresh) == Some(r.value)
                && nonces == old(nonces)[key := r.value]
                && r.value >= pending && (forceRefresh ==> r.value == pending)
                && (!forceRefresh ==> IsLarger(r.value, old(nonces), key, pending))
    {
      var key := web3.checksum(address);
      var lock := GetLock(key);
      var pending := web3.pendingCount(key);
      if pending.Err? {
        return pending;
      }
      if forceRefresh || key !in nonces {
        nonces := nonces[key := pending.value];
      } else {
        nonces := nonces[key := MaxNat(nonces[key], pending.value)];
      }
      r := Ok(nonces[key]);
    }

    method ReserveNonce(address: string, web3: Web3) returns (r: Result<nat, string>)
      requires Valid()
      modifies this
      ensures Valid() && Registers(old(locks), locks, web3.checksum(address))
      ensures var key := web3.checksum(address);
              match web3.pendingCount(key)
              case Err(reason) => r == Err(reason) && nonces == old(nonces)
              case Ok(pending) =>
                && r == Ok(NextNonce(old(Entry(key)), pending))
                && Entry(key) == AfterReserve(old(Entry(key)), pending)
                && nonces == old(nonces)[key := r.value + 1]
                && IsLarger(r.value, old(nonces), key, pending)
    {
      var key := web3.checksum(address);
      var lock := GetLock(key);
      var pending := web3.pendingCount(key);
      if pending.Err? {
        return pending;
      }
      var current := MaxNat(if key in nonces then nonces[key] else pending.value, pending.value);
      nonces := nonces[key := current + 1];
      r := Ok(current);
    }

    method ReleaseNonce(address: string, nonce: nat, web3: Web3)
      requires Valid()
      modifies this
      ensures Valid() && Registers(old(locks), locks, web3.checksum(address))
      ensures var key := web3.checksum(address);
              && Entry(key) == AfterRelease(old(Entry(key)), nonce)
              && nonces == if key in old(nonces) && old(nonces)[key] == nonce + 1 then old(nonces)[key := nonce]
                           else old(nonces) - {key}
    {
      var key := web3.checksum(address);
      var lock := GetLock(key);
      if key in nonces && nonces[key] == nonce + 1 {
        nonces := nonces[key := nonce];
      } else {
        nonces := nonces - {key};
      }
    }

    method IncrementNonce(address: string, web3: Web3)
      requires Valid()
      modifies this
      ensures Valid() && Registers(old(locks), locks, web3.checksum(address))
      ensures var key := web3.checksum(address);
              && Entry(key) == AfterIncrement(old(Entry(key)))
              && nonces == if key in old(nonces) then old(nonces)[key := old(nonces)[key] + 1] else old(nonces)
    {
      var key := web3.checksum(address);
      var lock := GetLock(key);
      if key in nonces {
        nonces := nonces[key := nonces[key] + 1];
      }
    }

    method ResetNonce(address: string, web3: Web3)
      requires Valid()
      modifies this
      ensures Valid() && Registers(old(locks), locks, web3.checksum(address))
      ensures nonces == old(nonces) - {web3.checksum(address)}
    {
      var key := web3.checksum(address);
      var lock := GetLock(key);
      if key in nonces {
        nonces := nonces - {key};
      }
    }

    method ClearAll()
      requires Valid()
      modifies this
      ensures Valid() && nonces == map[] && locks == map[]
    {
      nonces := map[];
      locks := map[];
    }
  }

  // ----- fix_nonce -----

  /** A replacement transaction that `fix_nonce` tried to send: who signs it, and for which nonce. */
  datatype Replacement = Replacement(sender: string, nonce: nat)

  /** What becomes of one replacement: sent, refused, or cut short by an exception the loop does not catch. */
  datatype Cancel = Sent | Refused | CutShort(name: string)

  datatype RepairError = MissingKey | BadKey(reason: string) | NodeError(reason: string) | Interrupted(name: string)

  /** No replacement for a nonce in `[mined, n)` is cut short. */
  predicate UncutBelow(mined: nat, n: nat, cancel: nat -> Cancel) {
    forall m | mined <= m < n :: !cancel(m).CutShort?
  }

  /**
   The attempts are signed by the key and ascend from the mined count without a gap; a nonce is among
   them exactly when it is stuck and no replacement before it was cut short.
   */
  predicate Repairs(attempts: seq<Replacement>, key: string, mined: nat, pending: nat, cancel: nat -> Cancel) {
    && (forall i | 0 <= i < |attempts| :: attempts[i] == Replacement(key, mined + i))
    && (attempts != [] ==> mined + |attempts| <= pending && UncutBelow(mined, mined + |attempts| - 1, cancel))
    && (mined + |attempts| < pending ==> !UncutBelow(mined, mined + |attempts|, cancel))
  }

  /** How many of the attempts went out. */
  function SentOf(attempts: seq<Replacement>, cancel: nat -> Cancel): set<nat> {
    set i | 0 <= i < |attempts| && cancel(attempts[i].nonce).Sent?
  }

  lemma OneMoreAttempt(attempts: seq<Replacement>, last: Replacement, cancel: nat -> Cancel)
    ensures |SentOf(attempts + [last], cancel)|
            == |SentOf(attempts, cancel)| + if cancel(last.nonce).Sent? then 1 else 0
  {
    var all := attempts + [last];
    assert forall i | 0 <= i < |attempts| :: all[i] == attempts[i];
    assert SentOf(all, cancel)
        == SentOf(attempts, cancel) + if cancel(last.nonce).Sent? then {|attempts|} else {};
  }

  lemma RepairExtends(attempts: seq<Replacement>, key: string, mined: nat, pending: nat, cancel: nat -> Cancel)
    requires Repairs(attempts, key, mined, mined + |attempts|, cancel) && mined + |attempts| < pending
    requires UncutBelow(mined, mined + |attempts|, cancel)
    ensures var all := attempts + [Replacement(key, mined + |attempts|)];
            && Repairs(all, key, mined, mined + |all|, cancel)
            && (cancel(mined + |attempts|).CutShort? ==> Repairs(all, key, mined, pending, cancel))
  {
    assert cancel(mined + |attempts|).CutShort? ==> !UncutBelow(mined, mined + |attempts| + 1, cancel);
  }

  /** The cancellation loop: one replacement per stuck nonce, lowest first, until one is cut short. */
  method CancelStuck(key: string, mined: nat, pending: nat, cancel: nat -> Cancel)
    returns (attempts: seq<Replacement>, successes: nat, cut: Option<string>)
    ensures Repairs(attempts, key, mined, pending, cancel)
    ensures successes == |SentOf(attempts, cancel)|
    ensures cut.None? <==> UncutBelow(mined, pending, cancel)
    ensures cut.Some? ==> attempts != [] && cancel(attempts[|attempts| - 1].nonce) == CutShort(cut.value)
  {
    attempts, successes, cut := [], 0, None;
    if pending <= mined {
      return;
    }
    for nonce := mined to pending
      invariant |attempts| == nonce - mined && UncutBelow(mined, nonce, cancel)
      invariant Repairs(attempts, key, mined, nonce, cancel)
      invariant successes == |SentOf(attempts, cancel)|
    {
      OneMoreAttempt(attempts, Replacement(key, nonce), cancel);
      RepairExtends(attempts, key, mined, pending, cancel);
      attempts := attempts + [Replacement(key, nonce)];
      if cancel(nonce).CutShort? {
        cut := Some(cancel(nonce).name);
        return;
      }
      if cancel(nonce).Sent? {
        successes := successes + 1;
      }
    }
  }

  /**
   `signer` is the key's own address, or why there is none, and `address` the one the caller asked to
   repair; `cancel(n)` is what becomes of the replacement for nonce `n`; `settle` is an interrupt of
   the pause after successful cancellations; `later` is what the final reading gives.
   */
  method FixNonce(manager: NonceManager, address: Option<string>, signer: Result<string, RepairError>,
                  node: Result<Web3, string>, latestCount: string -> Result<nat, string>,
                  cancel: nat -> Cancel, settle: Option<string>, later: Result<nat, string>)
    returns (next: Result<nat, RepairError>, attempts: seq<Replacement>, successes: nat)
    requires manager.Valid()
    modifies manager
    ensures manager.Valid() && successes == |SentOf(attempts, cancel)|
    ensures signer.Err? ==> attempts == [] && next == Err(signer.error) && unchanged(manager)
    ensures signer.Ok? && node.Err? ==> attempts == [] && next == Err(NodeError(node.error)) && unchanged(manager)
    ensures signer.Ok? && node.Ok? ==>
              var web3 := node.value;
              var asked := web3.checksum(if address.Some? then address.value else signer.value);
              var latest, pending := latestCount(asked), web3.pendingCount(asked);
              if latest.Err? then attempts == [] && next == Err(NodeError(latest.error)) && unchanged(manager)
              else if pending.Err? then attempts == [] && next == Err(NodeError(pending.error)) && unchanged(manager)
              else
                && Repairs(attempts, signer.value, latest.value, pending.value, cancel)
                && if !UncutBelow(latest.value, pending.value, cancel) then
                     && attempts != [] && cancel(attempts[|attempts| - 1].nonce).CutShort?
                     && next == Err(Interrupted(cancel(attempts[|attempts| - 1].nonce).name)) && unchanged(manager)
                   else if successes > 0 && settle.Some? then
                     next == Err(Interrupted(settle.value)) && unchanged(manager)
                   else
                     && manager.nonces == old(manager.nonces) - {web3.checksum(asked)}
                     && next == match later case Ok(n) => Ok(n) case Err(reason) => Err(NodeError(reason))
  {
    attempts, successes := [], 0;
    if signer.Err? {
      return Err(signer.error), attempts, successes;
    }
    if node.Err? {
      return Err(NodeError(node.error)), attempts, successes;
    }
    var web3 := node.value;
    var key := web3.checksum(if address.Some? then address.value else signer.value);
    var mined := latestCount(key);
    if mined.Err? {
      return Err(NodeError(mined.error)), attempts, successes;
    }
    var pending := web3.pendingCount(key);
    if pending.Err? {
      return Err(NodeError(pending.error)), attempts, successes;
    }
    var cut;
    attempts, successes, cut := CancelStuck(signer.value, mined.value, pending.value, cancel);
    if cut.Some? {
      return Err(Interrupted(cut.value)), attempts, successes;
    }
    if successes > 0 && settle.Some? {
      return Err(Interrupted(settle.value)), attempts, successes;
    }
    manager.ResetNonce(key, web3);
    next := match later case Ok(n) => Ok(n) case Err(reason) => Err(NodeError(reason));
  }

  /** If nothing cuts the repair short, exactly the stuck nonces get a replacement, lowest first. */
  lemma RepairCoversStuckNonces(attempts: seq<Replacement>, key: string, mined: nat, pending: nat,
                                cancel: nat -> Cancel)
    requires Repairs(attempts, key, mined, pending, cancel) && UncutBelow(mined, pending, cancel)
    ensures forall n: nat :: mined <= n < pending <==> Replacement(key, n) in attempts
    ensures |attempts| == if mined < pending then pending - mined else 0
  {
    assert UncutBelow(mined, mined + |attempts|, cancel) || mined + |attempts| > pending;
    forall n: nat | mined <= n < pending ensures Replacement(key, n) in attempts {
      assert attempts[n - mined] == Replacement(key, n);
    }
  }

  /**
   The replacements are signed by the key, whatever address was asked for: the repair acts on the
   asked address exactly when that is the key's address or nothing is stuck.
   */
  lemma RepairActsOnAddressExactly(attempts: seq<Replacement>, address: string, key: string,
                                   mined: nat, pending: nat, cancel: nat -> Cancel)
    requires Repairs(attempts, key, mined, pending, cancel)
    ensures (forall r | r in attempts :: r.sender == address) <==> (address == key || pending <= mined)
  {
    if attempts != [] {
      assert attempts[0] in attempts;
    } else {
      assert UncutBelow(mined, mined, cancel);
    }
  }

  /**
   Once a repair has got its two counts and nothing interrupts it, the next reservation is exactly the
   pending count it reads itself, whichever cancellations failed, and even if its last reading did.
   */
  method RepairThenReserve(manager: NonceManager, signer: string, web3: Web3,
                           latestCount: string -> Result<nat, string>, cancel: nat -> Cancel,
                           later: Result<nat, string>, afterwards: Web3)
    returns (reserved: Result<nat, string>)
    requires manager.Valid()
    requires web3.checksum(signer) == signer && afterwards.checksum == web3.checksum
    requires latestCount(signer).Ok? && web3.pendingCount(signer).Ok?
    requires forall n | latestCount(signer).value <= n < web3.pendingCount(signer).value :: !cancel(n).CutShort?
    modifies manager
    ensures reserved == afterwards.pendingCount(signer)
  {
    var next, attempts, successes := FixNonce(manager, None, Ok(signer), Ok(web3), latestCount, cancel, None, later);
    reserved := manager.ReserveNonce(signer, afterwards);
  }
}
