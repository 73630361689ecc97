/** What one `NonceManager` operation does to one address's cache entry, and to nothing else. */
module NonceOps {
  import opened Prelude

  /** The entry of one address: absent, or the next unreserved nonce. */
  type Cell = Option<nat>

  /** The nonce a reservation (or a read) yields under the given pending count. */
  function NextNonce(cell: Cell, pending: nat): nat {
    MaxNat(cell.GetOr(pending), pending)
  }

  function AfterReserve(cell: Cell, pending: nat): Cell {
    Some(NextNonce(cell, pending) + 1)
  }

  function AfterRead(cell: Cell, pending: nat, forceRefresh: bool): Cell {
    if forceRefresh then Some(pending) else Some(NextNonce(cell, pending))
  }

  function AfterRelease(cell: Cell, nonce: nat): Cell {
    if cell == Some(nonce + 1) then Some(nonce) else None
  }

  function AfterIncrement(cell: Cell): Cell {
    if cell.Some? then Some(cell.value + 1) else None
  }

  // ----- nested use by one caller -----

  /** A caller that may reserve, or hand back the reservation it took last. */
  datatype NestedOp = Take | GiveBack

  /** Runs nested operations under one unchanged pending count; `held` is the stack of reservations. */
  function RunNested(cell: Cell, held: seq<nat>, ops: seq<NestedOp>, pending: nat): (Cell, seq<nat>)
    decreases |ops|
  {
    if ops == [] then (cell, held)
    else if ops[0].Take? then
      RunNested(AfterReserve(cell, pending), held + [NextNonce(cell, pending)], ops[1..], pending)
    else if held == [] then RunNested(cell, held, ops[1..], pending)
    else
      RunNested(AfterRelease(cell, held[|held| - 1]), held[..|held| - 1], ops[1..], pending)
  }

  /** The held nonces are consecutive from `base`, and the next one to be issued follows them. */
  ghost predicate Stacked(cell: Cell, held: seq<nat>, pending: nat, base: nat) {
    && NextNonce(cell, pending) == base + |held|
    && (held != [] ==> cell == Some(base + |held|))
    && pending <= base
    && forall i | 0 <= i < |held| :: held[i] == base + i
  }

  /** However takes and give-backs nest, the next nonce to be issued depends on the depth alone. */
  lemma {:induction false} NestedUseRestores(cell: Cell, held: seq<nat>, ops: seq<NestedOp>, pending: nat, base: nat)
    requires Stacked(cell, held, pending, base)
    ensures var (cell', held') := RunNested(cell, held, ops, pending);
            Stacked(cell', held', pending, base)
    decreases |ops|
  {
    if ops != [] {
      if ops[0].Take? {
        NestedUseRestores(AfterReserve(cell, pending), held + [NextNonce(cell, pending)], ops[1..], pending, base);
      } else if held == [] {
        NestedUseRestores(cell, held, ops[1..], pending, base);
      } else {
        NestedUseRestores(AfterRelease(cell, held[|held| - 1]), held[..|held| - 1], ops[1..], pending, base);
      }
    }
  }

  /** A nested sequence that gives everything back leaves the next nonce where it was. */
  lemma BalancedUseIsInvisible(cell: Cell, ops: seq<NestedOp>, pending: nat)
    requires RunNested(cell, [], ops, pending).1 == []
    ensures NextNonce(RunNested(cell, [], ops, pending).0, pending) == NextNonce(cell, pending)
  {
    NestedUseRestores(cell, [], ops, pending, NextNonce(cell, pending));
  }
}
