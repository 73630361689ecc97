/** How failures are recognised, and what a result tells about the chain. */
module TxResults {
  import opened Prelude
  import opened Strings
  import opened Errors
  import opened TxExecution
  import opened TxProperties
  import opened TxAnswers
  import opened TxOutcomes

  // ----- recognising failures -----

  lemma LowerAppends(a: string, b: string)
    ensures Lower(a + b) == Lower(a) + Lower(b)
  {
  }

  lemma ContainsInside(before: string, s: string, after: string, needle: string)
    requires Contains(s, needle)
    ensures Contains(before + s + after, needle)
  {
    var i :| 0 <= i <= |s| && OccursAt(needle, s, i);
    var whole := before + s + after;
    assert whole[|before| + i..|before| + i + |needle|] == s[i..i + |needle|];
    assert OccursAt(needle, whole, |before| + i);
  }

  /** A nonce collision is recognised wherever the node embeds the message that reports it. */
  lemma NonceErrorsRecognisedAnywhere(before: string, message: string, after: string)
    requires Classify(message).Nonce?
    ensures Classify(before + message + after).Nonce?
  {
    var i :| 0 <= i < |NONCE_ERRORS| && Contains(Lower(message), NONCE_ERRORS[i]);
    LowerAppends(before, message);
    LowerAppends(before + message, after);
    ContainsInside(Lower(before), Lower(message), Lower(after), NONCE_ERRORS[i]);
  }

  lemma OccursInside(before: string, needle: string, after: string)
    ensures OccursAt(needle, before + needle + after, |before|)
  {
    assert (before + needle + after)[|before|..|before| + |needle|] == needle;
  }

  lemma BlankInside(before: string, gap: string, after: string)
    requires AllBlank(gap, 0, |gap|)
    ensures AllBlank(before + gap + after, |before|, |before| + |gap|)
  {
    forall n | |before| <= n < |before| + |gap| ensures IsSpace((before + gap + after)[n]) {
      assert (before + gap + after)[n] == gap[n - |before|];
    }
  }

  lemma WordInside(before: string, word: string, after: string)
    requires NoBlank(word, 0, |word|)
    ensures NoBlank(before + word + after, |before|, |before| + |word|)
  {
    forall n | |before| <= n < |before| + |word| ensures !IsSpace((before + word + after)[n]) {
      assert (before + word + after)[n] == word[n - |before|];
    }
  }

  lemma MissingBlockMatches(before: string, gap: string, word: string, gap': string, after: string)
    requires gap != [] && AllBlank(gap, 0, |gap|) && NoBlank(word, 0, |word|) && AllBlank(gap', 0, |gap'|)
    ensures BlockNotFound(before + "block" + gap + word + gap' + "not found" + after)
  {
    var upToBlock := before + "block";
    var upToGap := upToBlock + gap;
    var upToWord := upToGap + word;
    var upToGap' := upToWord + gap';
    var m := upToGap' + "not found" + after;
    OccursInside(upToGap', "not found", after);
    var fromGap' := "not found" + after;
    ConcatAssociates(upToGap', "not found", after);
    BlankInside(upToWord, gap', fromGap');
    ConcatAssociates(upToWord, gap', fromGap');
    WordInside(upToGap, word, gap' + fromGap');
    ConcatAssociates(upToGap, word, gap' + fromGap');
    BlankInside(upToBlock, gap, word + (gap' + fromGap'));
    ConcatAssociates(upToBlock, gap, word + (gap' + fromGap'));
    OccursInside(before, "block", gap + (word + (gap' + fromGap')));
    assert BlockNotFoundAt(m, |before|, |upToGap|, |upToWord|, |upToGap'|);
  }

  lemma LowerKeepsBlanks(s: string)
    ensures forall i | 0 <= i < |s| :: IsSpace(Lower(s)[i]) == IsSpace(s[i])
  {
  }

  lemma LowerLiterals()
    ensures Lower("block") == "block" && Lower("not found") == "not found"
  {
  }

  /** A lagging replica's "block ... not found" is recognised around any word and blanks, and anywhere. */
  lemma MissingBlockIsTransient(before: string, gap: string, word: string, gap': string, after: string)
    requires gap != [] && AllBlank(gap, 0, |gap|) && NoBlank(word, 0, |word|) && AllBlank(gap', 0, |gap'|)
    ensures IsTransientRpc(before + "block" + gap + word + gap' + "not found" + after)
  {
    LowerLiterals();
    LowerAppends(before, "block");
    LowerAppends(before + "block", gap);
    LowerAppends(before + "block" + gap, word);
    LowerAppends(before + "block" + gap + word, gap');
    LowerAppends(before + "block" + gap + word + gap', "not found");
    LowerAppends(before + "block" + gap + word + gap' + "not found", after);
    LowerKeepsBlanks(gap);
    LowerKeepsBlanks(word);
    LowerKeepsBlanks(gap');
    MissingBlockMatches(Lower(before), Lower(gap), Lower(word), Lower(gap'), Lower(after));
  }

  /** "block", at least one blank, a word, blanks, and "not found", between `before` and `after`. */
  predicate IsMissingBlock(m: string, before: string, gap: string, word: string, gap': string, after: string) {
    && gap != [] && AllBlank(gap, 0, |gap|) && NoBlank(word, 0, |word|) && AllBlank(gap', 0, |gap'|)
    && m == before + "block" + gap + word + gap' + "not found" + after
  }

  lemma SliceFollows(m: string, i: nat, j: nat)
    requires i <= j <= |m|
    ensures m[..i] + m[i..j] == m[..j]
  {
  }

  lemma MissingBlockSplits(m: string) returns (before: string, gap: string, word: string, gap': string, after: string)
    requires BlockNotFound(m)
    ensures IsMissingBlock(m, before, gap, word, gap', after)
  {
    var i, j, k, l :| 0 <= i < j <= k <= l <= |m| && BlockNotFoundAt(m, i, j, k, l);
    before, gap, word, gap', after := m[..i], m[i + 5..j], m[j..k], m[k..l], m[l + 9..];
    SliceFollows(m, i, i + 5);
    SliceFollows(m, i + 5, j);
    SliceFollows(m, j, k);
    SliceFollows(m, k, l);
    SliceFollows(m, l, l + 9);
    SliceFollows(m, l + 9, |m|);
    assert m[..|m|] == m && m[l + 9..|m|] == after;
  }

  /** A missing block is recognised exactly where it is reported. */
  lemma MissingBlockExactly(m: string)
    ensures BlockNotFound(m)
            <==> exists before, gap, word, gap', after :: IsMissingBlock(m, before, gap, word, gap', after)
  {
    if BlockNotFound(m) {
      var before, gap, word, gap', after := MissingBlockSplits(m);
    }
    if before, gap, word, gap', after :| IsMissingBlock(m, before, gap, word, gap', after) {
      MissingBlockMatches(before, gap, word, gap', after);
    }
  }

  /** The words that make a failure a nonce collision, a gas price collision or a transport blip, in this order. */
  lemma ClassifiedExactly(message: string)
    ensures var m, read := Lower(message), Classify(message);
            var collides := Contains(m, "nonce too low") || Contains(m, "known transaction")
                            || Contains(m, "already known");
            var underpriced := Contains(m, "replacement transaction underpriced");
            var blip := BlockNotFound(m) || Contains(m, "connection aborted") || Contains(m, "read timed out")
                        || Contains(m, "remote end closed connection") || Contains(m, "connection reset");
            && (read.Nonce? <==> collides)
            && (read.Underpriced? <==> !collides && underpriced)
            && (read.Transient? <==> !collides && !underpriced && blip)
  {
    var m := Lower(message);
    assert IsNonceError(message) <==>
      Contains(m, NONCE_ERRORS[0]) || Contains(m, NONCE_ERRORS[1]) || Contains(m, NONCE_ERRORS[2]);
    assert IsTransientRpc(message) <==>
      || BlockNotFound(m) || Contains(m, TRANSIENT_ERRORS[0]) || Contains(m, TRANSIENT_ERRORS[1])
      || Contains(m, TRANSIENT_ERRORS[2]) || Contains(m, TRANSIENT_ERRORS[3]);
  }

  lemma LowerTwice(s: string)
    ensures Lower(Lower(s)) == Lower(s)
  {
  }

  /** Capitals do not matter: a message is classified as its lowered form is. */
  lemma CapitalsIrrelevant(message: string)
    ensures Classify(message) == Classify(Lower(message))
  {
    LowerTwice(message);
  }

  lemma MissingLetter(m: string, needle: string, i: nat)
    requires i < |needle| && needle[i] !in m
    ensures !Contains(m, needle)
  {
    forall p | 0 <= p <= |m| ensures !OccursAt(needle, m, p) {
      assert p + |needle| <= |m| ==> m[p..p + |needle|][i] == m[p + i];
    }
  }

  /** A message with capitals: it has none of the letters 'w', 'k' and 'u' that a collision has. */
  lemma AbortedConnectionIsTransient()
    ensures Classify("Connection aborted") == Transient
  {
    assert Lower("Connection aborted") == "connection aborted";
    ClassifiedExactly("Connection aborted");
    NoCollisionWords("connection aborted");
    ContainsItself("connection aborted");
  }

  lemma NoCollisionWords(m: string)
    requires 'w' !in m && 'k' !in m && 'u' !in m
    ensures !Contains(m, "nonce too low") && !Contains(m, "known transaction") && !Contains(m, "already known")
    ensures !Contains(m, "replacement transaction underpriced")
  {
    MissingLetter(m, "nonce too low", 12);
    MissingLetter(m, "known transaction", 0);
    MissingLetter(m, "already known", 8);
    MissingLetter(m, "replacement transaction underpriced", 24);
  }

  // ----- what a result tells about the chain -----

  /** The receipt is what the node answered to the wait for the very transaction sent in attempt `k`. */
  predicate ReceiptFrom(o: Oracle, k: nat, r: Receipt) {
    o.send(k).Ok? &&
    var answer := o.wait(k, o.send(k).value);
    answer.Ok? && answer.value.status == 1
    && r == Receipt(answer.value.txHash, answer.value.blockNumber, answer.value.gasUsed, 1)
  }

  /** A receipt timeout names the hash sent in attempt `k`; a nonce error the signer and its last reservation. */
  predicate Names(x: Executor, o: Oracle, k: nat, e: OgpuError) {
    && (e.TxReceiptTimeout? ==> o.send(k) == Ok(e.txHash))
    && (e.NonceError? ==> e.address == x.signer && o.reserve(k) == Ok(e.tried))
  }

  /** A receipt comes from the node's answer, and an error names what attempt `k` sent or reserved. */
  predicate Traceable(x: Executor, o: Oracle, k: nat, v: Verdict) {
    && (v.Stop? && v.outcome.Returned? ==> ReceiptFrom(o, k, v.outcome.receipt))
    && (v.Stop? && v.outcome.Raised? ==> Names(x, o, k, v.outcome.error))
  }

  lemma RecoverNames(x: Executor, o: Oracle, k: nat, nonce: nat, exc: Exc, broadcast: bool, now: real)
    requires FromNode(exc) && o.reserve(k) == Ok(nonce)
    ensures Traceable(x, o, k, Recover(x, o, k, nonce, exc, broadcast, now).result)
  {
    if exc.ContractLogic? {
      DecodedIsNeverOurs(exc.message, x.context, x.signer);
    }
  }

  lemma ConfirmNames(x: Executor, o: Oracle, k: nat, nonce: nat, now: real)
    requires NodeErrorsOnly(o) && o.reserve(k) == Ok(nonce) && o.send(k).Ok?
    ensures var confirmed := Confirm(x, o, k, o.send(k).value, now);
            match confirmed.result
            case Ok(receipt) => ReceiptFrom(o, k, receipt)
            case Err(e) => Traceable(x, o, k, Recover(x, o, k, nonce, e, true, confirmed.end).result)
  {
    assert NodeErrorsBefore(o, k);
    var confirmed := Confirm(x, o, k, o.send(k).value, now);
    if confirmed.result.Err? && FromNode(confirmed.result.error) {
      RecoverNames(x, o, k, nonce, confirmed.result.error, true, confirmed.end);
    }
  }

  lemma AttemptTraceable(x: Executor, o: Oracle, k: nat, now: real)
    requires NodeErrorsOnly(o)
    ensures Traceable(x, o, k, Attempt(x, o, k, now).result)
  {
    if Starts(x, o, k, now) {
      var nonce, reserved := o.reserve(k).value, ReservedTime(o, k, now);
      var sent := Send(x, o, k, nonce, reserved);
      SendByAnswers(x, o, k, nonce, reserved);
      if sent.result.Ok? {
        ConfirmNames(x, o, k, nonce, sent.end);
      } else {
        assert NodeErrorsBefore(o, k);
        if FromNode(sent.result.error) {
          RecoverNames(x, o, k, nonce, sent.result.error, false, sent.end);
        }
      }
    }
  }

  lemma {:induction false} LoopTraceable(x: Executor, o: Oracle, tries: Tries, limit: nat, k: nat, now: real)
    requires k <= limit && forall j: nat, t: real :: Traceable(x, o, j, tries(j, t).result)
    ensures var out := Loop(tries, limit, k, now).result;
            out.FellThrough? || exists n | k <= n < limit :: Traceable(x, o, n, Stop(out))
    decreases limit - k
  {
    if k < limit {
      assert Traceable(x, o, k, tries(k, now).result);
      if tries(k, now).result.Retry? {
        LoopTraceable(x, o, tries, limit, k + 1, tries(k, now).end);
      }
    }
  }

  /**
   A returned receipt is the node's status-1 answer about a transaction this execution sent; a
   receipt timeout carries the hash of one it sent, a nonce error a nonce it reserved.
   */
  lemma ResultsNameSentTransactions(x: Executor, o: Oracle, start: real)
    requires NodeErrorsOnly(o) && o.connect.None? && x.maxRetries >= 1
    ensures exists n | 0 <= n < x.maxRetries :: Traceable(x, o, n, Stop(OutcomeOf(x, o, start)))
  {
    forall j: nat, t: real ensures Traceable(x, o, j, TriesOf(x, o)(j, t).result) {
      AttemptTraceable(x, o, j, t);
    }
    LoopTraceable(x, o, TriesOf(x, o), x.maxRetries, 0, Connected(o, start));
    ExecutionBounded(x, o, start);
  }

  /** Every receipt wait is for a transaction on the wire. */
  predicate WaitsForSent(log: seq<Event>) {
    forall e | e in log && e.Waited? :: Sent(log, e.hash)
  }

  predicate Sent(log: seq<Event>, hash: string) {
    exists f | f in log :: f.Broadcast? && f.hash == hash
  }

  /** Every receipt wait in the log is for this hash. */
  predicate WaitsFor(log: seq<Event>, hash: string) { forall e | e in log && e.Waited? :: e.hash == hash }

  predicate WaitsForNothing(log: seq<Event>) { forall e | e in log :: !e.Waited? }

  lemma WaitsForSentAppends(a: seq<Event>, b: seq<Event>)
    requires WaitsForSent(a) && WaitsForSent(b)
    ensures WaitsForSent(a + b)
  {
    forall e | e in a + b && e.Waited? ensures Sent(a + b, e.hash) {
      var f :| (f in a || f in b) && f.Broadcast? && f.hash == e.hash;
      assert f in a + b;
    }
  }

  lemma WaitAfterSend(a: seq<Event>, b: seq<Event>, hash: string)
    requires WaitsForNothing(a) && Sent(a, hash) && WaitsFor(b, hash)
    ensures WaitsForSent(a + b)
  {
    var f :| f in a && f.Broadcast? && f.hash == hash;
    assert f in a + b;
  }

  lemma SendWaitsForNothing(x: Executor, o: Oracle, k: nat, nonce: nat, now: real)
    ensures var sent := Send(x, o, k, nonce, now);
            WaitsForNothing(sent.log) && (sent.result.Ok? ==> Sent(sent.log, sent.result.value))
  {
    var sent := Send(x, o, k, nonce, now);
    if sent.result.Ok? {
      assert sent.log[|sent.log| - 1].Broadcast? && sent.log[|sent.log| - 1].hash == sent.result.value;
    }
  }

  lemma ConfirmWaitsFor(x: Executor, o: Oracle, k: nat, hash: string, now: real)
    ensures WaitsFor(Confirm(x, o, k, hash, now).log, hash)
  {
  }

  lemma RecoverWaitsForNothing(x: Executor, o: Oracle, k: nat, nonce: nat, exc: Exc, broadcast: bool, now: real)
    ensures WaitsForNothing(Recover(x, o, k, nonce, exc, broadcast, now).log)
  {
    var pause := RecoverShape(x, o, k, nonce, exc, broadcast, now);
  }

  lemma TransactWaitsForSent(x: Executor, o: Oracle, k: nat, nonce: nat, now: real)
    ensures WaitsForSent(Transact(x, o, k, nonce, now).log)
  {
    var sent := Send(x, o, k, nonce, now);
    SendWaitsForNothing(x, o, k, nonce, now);
    if sent.result.Err? {
      RecoverWaitsForNothing(x, o, k, nonce, sent.result.error, false, sent.end);
    } else {
      var confirmed := Confirm(x, o, k, sent.result.value, sent.end);
      ConfirmWaitsFor(x, o, k, sent.result.value, sent.end);
      WaitAfterSend(sent.log, confirmed.log, sent.result.value);
      if confirmed.result.Err? {
        RecoverWaitsForNothing(x, o, k, nonce, confirmed.result.error, true, confirmed.end);
        WaitsForSentAppends(sent.log + confirmed.log,
                            Recover(x, o, k, nonce, confirmed.result.error, true, confirmed.end).log);
      }
    }
  }

  lemma AttemptWaitsForSent(x: Executor, o: Oracle, k: nat, now: real)
    ensures WaitsForSent(Attempt(x, o, k, now).log)
  {
    if Starts(x, o, k, now) {
      var nonce, reserved := o.reserve(k).value, ReservedTime(o, k, now);
      TransactWaitsForSent(x, o, k, nonce, reserved);
      WaitsForSentAppends(EntryLog(x, o, k, now) + [Reserved(nonce)], Transact(x, o, k, nonce, reserved).log);
    }
  }

  lemma {:induction false} LoopWaitsForSent(tries: Tries, limit: nat, k: nat, now: real)
    requires k <= limit && forall j: nat, t: real :: WaitsForSent(tries(j, t).log)
    ensures WaitsForSent(Loop(tries, limit, k, now).log)
    decreases limit - k
  {
    if k < limit {
      assert WaitsForSent(tries(k, now).log);
      if tries(k, now).result.Retry? {
        LoopWaitsForSent(tries, limit, k + 1, tries(k, now).end);
        WaitsForSentAppends(tries(k, now).log, Loop(tries, limit, k + 1, tries(k, now).end).log);
      }
    }
  }

  /** An execution waits only for receipts of transactions it has itself put on the wire. */
  lemma WaitsOnlyForSent(x: Executor, o: Oracle, start: real)
    ensures WaitsForSent(LogOf(x, o, start))
  {
    if o.connect.None? {
      forall j: nat, t: real ensures WaitsForSent(TriesOf(x, o)(j, t).log) {
        AttemptWaitsForSent(x, o, j, t);
      }
      LoopWaitsForSent(TriesOf(x, o), x.maxRetries, 0, Connected(o, start));
    }
  }
}
