/** Turning a contract's revert message into a typed error. */
module Revert {
  import opened Prelude
  import opened Strings
  import opened Errors

  /** The known revert strings, in the order the table lists them. */
  const KEYS: seq<string> := [
    "NotOwner", "NotMaster", "NotProvider", "Expired", "AlreadyConfirmed", "AlreadyFinalized",
    "InsufficientBalance", "InsufficientLockup", "UnbondingNotElapsed", "NotEligible", "SourceInactive"
  ]

  /** A bare ownership revert is attributed by the operation it came from. */
  function OwnerError(context: string, caller: string): OgpuError {
    if Contains(Lower(context), "source") then NotSourceOwner(context, caller) else NotTaskOwner(context, caller)
  }

  /** The handler of table entry `i`. */
  function Handle(i: nat, context: string, caller: string): OgpuError
    requires i < |KEYS|
  {
    if i == 0 then OwnerError(context, caller)
    else if i == 1 then NotMaster(caller)
    else if i == 2 then NotProvider(caller)
    else if i == 3 then TaskExpired(context, 0)
    else if i == 4 then ResponseAlreadyConfirmed(context)
    else if i == 5 then TaskAlreadyFinalized(context)
    else if i == 6 then InsufficientBalance(caller, 0, 0)
    else if i == 7 then InsufficientLockup(caller, 0, 0)
    else if i == 8 then UnbondingPeriodNotElapsed(caller, 0)
    else if i == 9 then NotEligible(caller)
    else SourceInactive(context)
  }

  lemma OccursChar(needle: string, hay: string, p: nat, q: nat)
    requires OccursAt(needle, hay, p) && q < |needle|
    ensures hay[p + q] == needle[q]
  {
  }

  /** Where each key differs from the keys that share its first letters. */
  const MARKS: seq<nat> := [3, 3, 3, 1, 7, 7, 12, 12, 1, 3, 1]

  /** No later key, from any position, agrees with this one in both of two characters. */
  predicate ClashesWithLaterKeys(i: nat)
    requires i < |KEYS|
  {
    forall j, p | i < j < |KEYS| && 0 <= p <= |KEYS[j]| - |KEYS[i]| ::
      KEYS[j][p] != KEYS[i][0] || KEYS[j][p + MARKS[i]] != KEYS[i][MARKS[i]]
  }

  lemma NotOwnerClashes()
    ensures ClashesWithLaterKeys(0)
  {
  }

  lemma NotMasterClashes()
    ensures ClashesWithLaterKeys(1)
  {
  }

  lemma NotProviderClashes()
    ensures ClashesWithLaterKeys(2)
  {
  }

  lemma ExpiredClashes()
    ensures ClashesWithLaterKeys(3)
  {
  }

  lemma AlreadyConfirmedClashes()
    ensures ClashesWithLaterKeys(4)
  {
  }

  lemma AlreadyFinalizedClashes()
    ensures ClashesWithLaterKeys(5)
  {
  }

  lemma InsufficientBalanceClashes()
    ensures ClashesWithLaterKeys(6)
  {
  }

  lemma InsufficientLockupClashes()
    ensures ClashesWithLaterKeys(7)
  {
  }

  lemma LastKeysClash()
    ensures ClashesWithLaterKeys(8) && ClashesWithLaterKeys(9) && ClashesWithLaterKeys(10)
  {
  }

  lemma EveryKeyClashes(i: nat)
    requires i < |KEYS|
    ensures ClashesWithLaterKeys(i)
  {
    if i == 0 {
      NotOwnerClashes();
    } else if i == 1 {
      NotMasterClashes();
    } else if i == 2 {
      NotProviderClashes();
    } else if i == 3 {
      ExpiredClashes();
    } else if i == 4 {
      AlreadyConfirmedClashes();
    } else if i == 5 {
      AlreadyFinalizedClashes();
    } else if i == 6 {
      InsufficientBalanceClashes();
    } else if i == 7 {
      InsufficientLockupClashes();
    } else {
      LastKeysClash();
    }
  }

  /** No key of the table occurs inside a key listed after it. */
  lemma NoKeyInsideLaterKey(i: nat, j: nat)
    requires i < j < |KEYS|
    ensures !Contains(KEYS[j], KEYS[i])
  {
    if Contains(KEYS[j], KEYS[i]) {
      var p :| 0 <= p <= |KEYS[j]| && OccursAt(KEYS[i], KEYS[j], p);
      EveryKeyClashes(i);
      MarkInside(i);
      OccursChar(KEYS[i], KEYS[j], p, 0);
      OccursChar(KEYS[i], KEYS[j], p, MARKS[i]);
    }
  }

  lemma MarkInside(i: nat)
    requires i < |KEYS|
    ensures 0 < |KEYS[i]| && MARKS[i] < |KEYS[i]|
  {
  }

  // ----- decoding a reason -----

  /** The first table entry, from `i` on, whose key occurs in the reason. */
  function Scan(reason: string, i: nat, context: string, caller: string): OgpuError
    requires i <= |KEYS|
    decreases |KEYS| - i
  {
    if i == |KEYS| then TxRevert(reason)
    else if Contains(reason, KEYS[i]) then Handle(i, context, caller)
    else Scan(reason, i + 1, context, caller)
  }

  /** The index of the key equal to the reason, as the dictionary lookup finds it. */
  function Lookup(reason: string, i: nat): (r: Option<nat>)
    requires i <= |KEYS|
    ensures r.Some? ==> i <= r.value < |KEYS| && KEYS[r.value] == reason
    ensures r.None? ==> forall j | i <= j < |KEYS| :: KEYS[j] != reason
    decreases |KEYS| - i
  {
    if i == |KEYS| then None
    else if KEYS[i] == reason then Some(i)
    else Lookup(reason, i + 1)
  }

  function DecodeReason(reason: string, context: string, caller: string): OgpuError {
    match Lookup(reason, 0)
    case Some(i) => Handle(i, context, caller)
    case None => Scan(reason, 0, context, caller)
  }

  /** A scan that passes over entries not occurring in the reason reaches entry `j`. */
  lemma {:induction false} ScanReaches(reason: string, i: nat, j: nat, context: string, caller: string)
    requires i <= j < |KEYS| && Contains(reason, KEYS[j])
    requires forall k | i <= k < j :: !Contains(reason, KEYS[k])
    ensures Scan(reason, i, context, caller) == Handle(j, context, caller)
    decreases j - i
  {
    if i < j {
      ScanReaches(reason, i + 1, j, context, caller);
    }
  }

  lemma {:induction false} ScanFindsNothing(reason: string, i: nat, context: string, caller: string)
    requires i <= |KEYS| && forall k | i <= k < |KEYS| :: !Contains(reason, KEYS[k])
    ensures Scan(reason, i, context, caller) == TxRevert(reason)
    decreases |KEYS| - i
  {
    if i < |KEYS| {
      ScanFindsNothing(reason, i + 1, context, caller);
    }
  }

  /** Looking the reason up first and scanning afterwards is the same as scanning at once. */
  lemma LookupIsRedundant(reason: string, context: string, caller: string)
    ensures DecodeReason(reason, context, caller) == Scan(reason, 0, context, caller)
  {
    var found := Lookup(reason, 0);
    if found.Some? {
      ContainsItself(reason);
      forall k | 0 <= k < found.value ensures !Contains(reason, KEYS[k]) {
        NoKeyInsideLaterKey(k, found.value);
      }
      ScanReaches(reason, 0, found.value, context, caller);
    }
  }

  /** A reason with exactly one known key decodes to that key's error, wherever the key stands. */
  lemma OneKeyDecides(reason: string, j: nat, context: string, caller: string)
    requires j < |KEYS| && Contains(reason, KEYS[j])
    requires forall k | 0 <= k < |KEYS| && k != j :: !Contains(reason, KEYS[k])
    ensures DecodeReason(reason, context, caller) == Handle(j, context, caller)
  {
    LookupIsRedundant(reason, context, caller);
    ScanReaches(reason, 0, j, context, caller);
  }

  /** The generic revert error comes out exactly when no known key occurs. */
  lemma UnknownExactly(reason: string, context: string, caller: string)
    ensures var e := DecodeReason(reason, context, caller);
            && (e.TxRevert? <==> forall k | 0 <= k < |KEYS| :: !Contains(reason, KEYS[k]))
            && (e.TxRevert? ==> e == TxRevert(reason))
  {
    LookupIsRedundant(reason, context, caller);
    if k :| 0 <= k < |KEYS| && Contains(reason, KEYS[k]) {
      var first := FirstKey(reason, k);
      ScanReaches(reason, 0, first, context, caller);
    } else {
      ScanFindsNothing(reason, 0, context, caller);
    }
  }

  lemma {:induction false} FirstKey(reason: string, k: nat) returns (first: nat)
    requires k < |KEYS| && Contains(reason, KEYS[k])
    ensures first < |KEYS| && Contains(reason, KEYS[first])
    ensures forall i | 0 <= i < first :: !Contains(reason, KEYS[i])
    decreases k
  {
    first := k;
    if i :| 0 <= i < k && Contains(reason, KEYS[i]) {
      first := FirstKey(reason, i);
    }
  }

  // ----- the table, spelled out -----

  /** The key that the table lists first among those in the reason decides, with these handlers. */
  lemma ReasonDecodes(reason: string, context: string, caller: string)
    ensures var e := DecodeReason(reason, context, caller);
            e == if Contains(reason, "NotOwner") then
                   if Contains(Lower(context), "source") then NotSourceOwner(context, caller)
                   else NotTaskOwner(context, caller)
                 else if Contains(reason, "NotMaster") then NotMaster(caller)
                 else if Contains(reason, "NotProvider") then NotProvider(caller)
                 else if Contains(reason, "Expired") then TaskExpired(context, 0)
                 else if Contains(reason, "AlreadyConfirmed") then ResponseAlreadyConfirmed(context)
                 else if Contains(reason, "AlreadyFinalized") then TaskAlreadyFinalized(context)
                 else if Contains(reason, "InsufficientBalance") then InsufficientBalance(caller, 0, 0)
                 else if Contains(reason, "InsufficientLockup") then InsufficientLockup(caller, 0, 0)
                 else if Contains(reason, "UnbondingNotElapsed") then UnbondingPeriodNotElapsed(caller, 0)
                 else if Contains(reason, "NotEligible") then NotEligible(caller)
                 else if Contains(reason, "SourceInactive") then SourceInactive(context)
                 else TxRevert(reason)
  {
    LookupIsRedundant(reason, context, caller);
    assert Scan(reason, 10, context, caller) ==
      if Contains(reason, KEYS[10]) then Handle(10, context, caller) else TxRevert(reason);
    assert Scan(reason, 9, context, caller) ==
      if Contains(reason, KEYS[9]) then Handle(9, context, caller) else Scan(reason, 10, context, caller);
    assert Scan(reason, 7, context, caller) ==
      if Contains(reason, KEYS[7]) then Handle(7, context, caller)
      else if Contains(reason, KEYS[8]) then Handle(8, context, caller) else Scan(reason, 9, context, caller);
    assert Scan(reason, 5, context, caller) ==
      if Contains(reason, KEYS[5]) then Handle(5, context, caller)
      else if Contains(reason, KEYS[6]) then Handle(6, context, caller) else Scan(reason, 7, context, caller);
    assert Scan(reason, 3, context, caller) ==
      if Contains(reason, KEYS[3]) then Handle(3, context, caller)
      else if Contains(reason, KEYS[4]) then Handle(4, context, caller) else Scan(reason, 5, context, caller);
    assert Scan(reason, 1, context, caller) ==
      if Contains(reason, KEYS[1]) then Handle(1, context, caller)
      else if Contains(reason, KEYS[2]) then Handle(2, context, caller) else Scan(reason, 3, context, caller);
  }

  // ----- extracting the reason -----

  const REVERTED := "execution reverted:"
  const REVERT := "revert"

  function ExtractReason(message: string): string {
    if REVERTED <= message then Strip(message[|REVERTED|..], IsSpace)
    else
      match FindFrom(Lower(message), REVERT, 0)
      case Some(i) => Strip(Strip(message[i + |REVERT|..], IsColonOrBlank), IsSpace)
      case None => message
  }

  function DecodeRevert(message: string, context: string, caller: string): OgpuError {
    DecodeReason(ExtractReason(message), context, caller)
  }

  /** The node's usual format yields exactly the reason, if the reason has no blank ends. */
  lemma UsualFormatExtracts(reason: string)
    requires reason != [] ==> !IsSpace(reason[0]) && !IsSpace(reason[|reason| - 1])
    ensures ExtractReason("execution reverted: " + reason) == reason
  {
    var message := "execution reverted: " + reason;
    assert message[|REVERTED|..] == " " + reason;
    assert (" " + reason)[1..] == reason;
    StripStops(reason, IsSpace);
    assert REVERTED <= message by {
      assert message[..|REVERTED|] == REVERTED;
    }
  }

  /** What follows the node's prefix is the reason, trimmed of blanks. */
  lemma PrefixExtracts(rest: string) returns (before: string, after: string)
    ensures TrimsTo(rest, before, ExtractReason("execution reverted:" + rest), after, IsSpace)
  {
    var message := "execution reverted:" + rest;
    assert message[|REVERTED|..] == rest && message[..|REVERTED|] == REVERTED;
    before, after := StripTrims(rest, IsSpace);
  }

  /** Without that prefix, what follows the first "revert" in any case is, trimmed of colons and blanks. */
  lemma MarkerExtracts(text: string, marker: string, rest: string)
    returns (before: string, middle: string, after: string, before': string, after': string)
    requires Lower(marker) == "revert" && !("execution reverted:" <= text + marker + rest)
    requires forall i | 0 <= i < |text| :: !OccursAt("revert", Lower(text + marker + rest), i)
    ensures TrimsTo(rest, before, middle, after, IsColonOrBlank)
    ensures TrimsTo(middle, before', ExtractReason(text + marker + rest), after', IsSpace)
  {
    var message := text + marker + rest;
    assert Lower(message)[|text|..|text| + 6] == Lower(marker);
    assert OccursAt("revert", Lower(message), |text|);
    assert FindFrom(Lower(message), "revert", 0) == Some(|text|);
    assert message[|text| + 6..] == rest;
    middle := Strip(rest, IsColonOrBlank);
    before, after := StripTrims(rest, IsColonOrBlank);
    before', after' := StripTrims(middle, IsSpace);
  }

  /** Without either marker the message is the reason. */
  lemma UnmarkedStays(message: string)
    requires !("execution reverted:" <= message) && !Contains(Lower(message), "revert")
    ensures ExtractReason(message) == message
  {
  }

  lemma KeyEndsStay(i: nat)
    requires i < |KEYS|
    ensures KEYS[i] != [] && !IsSpace(KEYS[i][0]) && !IsSpace(KEYS[i][|KEYS[i]| - 1])
    ensures !IsColonOrBlank(KEYS[i][0]) && !IsColonOrBlank(KEYS[i][|KEYS[i]| - 1])
  {
    assert forall k | 0 <= k < |KEYS[i]| :: 'A' <= KEYS[i][k] <= 'z';
  }

  /** The node's usual format around any key of the table decodes to that key's own error. */
  lemma KnownReasonDecodes(i: nat, context: string, caller: string)
    requires i < |KEYS|
    ensures DecodeRevert("execution reverted: " + KEYS[i], context, caller) == Handle(i, context, caller)
  {
    KeyEndsStay(i);
    UsualFormatExtracts(KEYS[i]);
    LookupIsRedundant(KEYS[i], context, caller);
    ContainsItself(KEYS[i]);
    forall k | 0 <= k < i ensures !Contains(KEYS[i], KEYS[k]) {
      NoKeyInsideLaterKey(k, i);
    }
    ScanReaches(KEYS[i], 0, i, context, caller);
  }

  /** Two reasons with the same known keys in them decode alike, up to the text of an unknown reason. */
  lemma {:induction false} SameKeysSameScan(r1: string, r2: string, i: nat, context: string, caller: string)
    requires i <= |KEYS| && forall k | i <= k < |KEYS| :: Contains(r1, KEYS[k]) == Contains(r2, KEYS[k])
    ensures var e1, e2 := Scan(r1, i, context, caller), Scan(r2, i, context, caller);
            e1 == e2 || (e1 == TxRevert(r1) && e2 == TxRevert(r2))
    decreases |KEYS| - i
  {
    if i < |KEYS| {
      SameKeysSameScan(r1, r2, i + 1, context, caller);
    }
  }

  /** The text a message carries behind its revert marker, before any trimming. */
  function Payload(message: string): string {
    if REVERTED <= message then message[|REVERTED|..]
    else
      match FindFrom(Lower(message), REVERT, 0)
      case Some(i) => message[i + |REVERT|..]
      case None => message
  }

  /**
   Trimming never costs a known error: every message decodes as one scan over all that follows its
   first revert marker, and an unknown reason keeps its trimmed text.
   */
  lemma TrimmingLosesNoKey(message: string, context: string, caller: string)
    ensures var direct := Scan(Payload(message), 0, context, caller);
            DecodeRevert(message, context, caller)
            == if direct == TxRevert(Payload(message)) then TxRevert(ExtractReason(message)) else direct
  {
    var reason, payload := ExtractReason(message), Payload(message);
    forall k | 0 <= k < |KEYS| ensures Contains(reason, KEYS[k]) == Contains(payload, KEYS[k]) {
      KeyEndsStay(k);
      StripKeeps(payload, IsSpace, KEYS[k]);
      StripKeeps(payload, IsColonOrBlank, KEYS[k]);
      StripKeeps(Strip(payload, IsColonOrBlank), IsSpace, KEYS[k]);
    }
    SameKeysSameScan(reason, payload, 0, context, caller);
    LookupIsRedundant(reason, context, caller);
    ScanNeverInvents(payload, 0, context, caller);
    ScanNeverInvents(reason, 0, context, caller);
  }

  /** A generic revert error carries the scanned reason. */
  lemma {:induction false} ScanNeverInvents(reason: string, i: nat, context: string, caller: string)
    requires i <= |KEYS|
    ensures Scan(reason, i, context, caller).TxRevert? ==> Scan(reason, i, context, caller) == TxRevert(reason)
    decreases |KEYS| - i
  {
    if i < |KEYS| {
      ScanNeverInvents(reason, i + 1, context, caller);
    }
  }
}
