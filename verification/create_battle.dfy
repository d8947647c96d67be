/** The create-battle flow of frontend/src/components/CreateBattlePanel.tsx:
    the gas-bump retry controller `sendCreateBattleWithRetry` and the
    ordered gate and phase transitions of `submitCreateBattle`. */
module CreateBattle {
  import opened Wrappers
  import opened Text
  import opened Thrown
  import opened Contracts
  import Decimal
  import WalletErrors
  import Receipt
  import Feedback

  // ---------------------------------------------------------------------
  // Gas buffer, error classes and back-off

  /** Percentages applied to the node's gas price on attempts 0, 1 and 2. */
  const GasBufferSteps: seq<nat> := [120, 130, 150]

  /** `applyGasBuffer`: bigint arithmetic, so the division floors. */
  function ApplyGasBuffer(gasPrice: nat, buffer: nat): (r: nat)
    ensures buffer >= 100 ==> r >= gasPrice
    ensures r * 100 <= gasPrice * buffer < r * 100 + 100
  {
    gasPrice * buffer / 100
  }

  /** For one node price, a larger buffer never offers less, and with a
      price of at least 10 each step of the schedule offers strictly more. */
  lemma BufferStepsIncrease(p: nat)
    ensures ApplyGasBuffer(p, 120) <= ApplyGasBuffer(p, 130) <= ApplyGasBuffer(p, 150)
    ensures p >= 10 ==> ApplyGasBuffer(p, 120) < ApplyGasBuffer(p, 130) < ApplyGasBuffer(p, 150)
  {
  }

  const ReplacePricePattern: string := "insufficient gas price to replace existing transaction"
  const UnderpricedPattern: string := "replacement transaction underpriced"
  const NonceTooLowPattern: string := "nonce too low"
  const AlreadyKnownPattern: string := "already known"

  /** The four texts that make an error worth another attempt. */
  const RetryPatterns: seq<string> :=
    [ReplacePricePattern, UnderpricedPattern, NonceTooLowPattern, AlreadyKnownPattern]

  predicate IsReplacementUnderpriced(message: string)
  {
    Contains(message, ReplacePricePattern) || Contains(message, UnderpricedPattern)
  }

  predicate IsNonceTooLow(message: string)
  {
    Contains(message, NonceTooLowPattern)
  }

  predicate IsAlreadyKnown(message: string)
  {
    Contains(message, AlreadyKnownPattern)
  }

  /** `shouldRetryTx`, applied to the lower-cased message. */
  predicate ShouldRetry(message: string)
  {
    IsReplacementUnderpriced(message) || IsNonceTooLow(message) || IsAlreadyKnown(message)
  }

  /** `shouldRefreshNonce`. */
  predicate ShouldRefreshNonce(message: string)
  {
    IsNonceTooLow(message)
  }

  /** An error is retryable exactly when its lower-cased message contains
      one of the four retry texts; a nonce refresh implies a retry. */
  lemma ShouldRetryIff(message: string)
    ensures ShouldRetry(message) <==> exists p :: p in RetryPatterns && Contains(message, p)
    ensures ShouldRefreshNonce(message) ==> ShouldRetry(message)
  {
    if ShouldRetry(message) {
      if Contains(message, ReplacePricePattern) {
        assert RetryPatterns[0] == ReplacePricePattern;
      } else if Contains(message, UnderpricedPattern) {
        assert RetryPatterns[1] == UnderpricedPattern;
      } else if Contains(message, NonceTooLowPattern) {
        assert RetryPatterns[2] == NonceTooLowPattern;
      } else {
        assert RetryPatterns[3] == AlreadyKnownPattern;
      }
    }
  }

  function Pow2(n: nat): (r: nat)
    ensures r >= 1
  {
    if n == 0 then 1 else 2 * Pow2(n - 1)
  }

  /** `backoff(attempt)`: the wait, in milliseconds, after a retryable
      failure of attempt `attempt`. */
  function BackoffDelay(attempt: nat): (r: nat)
    ensures r >= 500
  {
    500 * Pow2(attempt)
  }

  /** The waits start at half a second and double from one attempt to the
      next. */
  lemma BackoffDoubles(attempt: nat)
    ensures BackoffDelay(0) == 500
    ensures BackoffDelay(attempt + 1) == 2 * BackoffDelay(attempt)
  {
  }

  // ---------------------------------------------------------------------
  // The retry controller

  /** The `{gasPrice, nonce}` overrides built for one attempt. */
  datatype Offer = Offer(nonce: nat, gasPrice: nat)

  /** What `createBattle` does on one attempt. */
  datatype WriteOutcome = Sent(hash: string) | Failed(error: Thrown)

  /** The node and wallet as seen by the controller:
      `nonceRead(k)` answers the `k`-th `getTransactionCount` (0 is the one
      before the loop), `gasPriceRead(a)` answers `getGasPrice` on attempt
      `a`, and `write(a, offer)` is the wallet's answer to attempt `a`. The
      offer is handed to the writer and nothing is assumed about its use:
      `createBattle` declares no parameter that would receive it. */
  datatype Oracles = Oracles(
    nonceRead: nat -> Result<nat, Thrown>,
    gasPriceRead: nat -> Result<nat, Thrown>,
    write: (nat, Offer) -> WriteOutcome)

  /** How the controller ends; `Exhausted` is the final
      'Failed to submit transaction after retries.' throw. */
  datatype Outcome = Submitted(hash: string) | Rethrown(error: Thrown) | Exhausted

  const ExhaustedMessage: string := "Failed to submit transaction after retries."

  function OutcomeError(o: Outcome): Option<Thrown>
  {
    match o
    case Submitted(_) => None
    case Rethrown(e) => Some(e)
    case Exhausted => Some(Error(ExhaustedMessage))
  }

  /** A run of the controller: its outcome, the offers made in attempt
      order, the back-off waits taken, and how many nonce reads it made. */
  datatype Run = Run(outcome: Outcome, offers: seq<Offer>, delays: seq<nat>, nonceReads: nat)

  /** The lower-cased message of a failed write. */
  function FailureText(w: WriteOutcome): string
    requires w.Failed?
  {
    Lower(MessageOf(w.error))
  }

  /** Attempt `a` failed in a way that earns another attempt. */
  predicate RetriedAfter(o: Oracles, a: nat, offer: Offer)
  {
    o.write(a, offer).Failed? && ShouldRetry(FailureText(o.write(a, offer)))
  }

  /** Attempt `a` failed with 'nonce too low'. */
  predicate RefreshedAfter(o: Oracles, a: nat, offer: Offer)
  {
    o.write(a, offer).Failed? && ShouldRefreshNonce(FailureText(o.write(a, offer)))
  }

  /** The record of attempt `a` prepended to the rest of the run. */
  function Continue(offer: Offer, a: nat, rest: Run): Run
  {
    Run(rest.outcome, [offer] + rest.offers, [BackoffDelay(a)] + rest.delays, rest.nonceReads)
  }

  /** The `for` loop from attempt `a` on, with the current nonce and the
      number of nonce reads made so far. */
  function Attempts(a: nat, nonce: nat, readCount: nat, o: Oracles): (r: Run)
    requires a <= |GasBufferSteps|
    ensures |r.offers| <= |GasBufferSteps| - a
    ensures |r.delays| <= |r.offers|
    ensures r.nonceReads >= readCount
    ensures a < |GasBufferSteps| ==> r.outcome != Exhausted
    ensures r.offers != [] ==> r.offers[0].nonce == nonce
    decreases |GasBufferSteps| - a
  {
    if a == |GasBufferSteps| then Run(Exhausted, [], [], readCount)
    else
      match o.gasPriceRead(a)
      case Err(e) => Run(Rethrown(e), [], [], readCount)
      case Ok(p) =>
        var offer := Offer(nonce, ApplyGasBuffer(p, GasBufferSteps[a]));
        match o.write(a, offer)
        case Sent(hash) => Run(Submitted(hash), [offer], [], readCount)
        case Failed(e) =>
          var message := Lower(MessageOf(e));
          if !ShouldRetry(message) || a == |GasBufferSteps| - 1 then Run(Rethrown(e), [offer], [], readCount)
          else if ShouldRefreshNonce(message) then
            match o.nonceRead(readCount)
            case Err(readError) => Run(Rethrown(readError), [offer], [], readCount + 1)
            case Ok(renewed) => Continue(offer, a, Attempts(a + 1, renewed, readCount + 1, o))
          else Continue(offer, a, Attempts(a + 1, nonce, readCount, o))
  }

  /** The first offer of a run that made one. */
  lemma AttemptsFirst(a: nat, nonce: nat, readCount: nat, o: Oracles)
    requires a <= |GasBufferSteps|
    requires Attempts(a, nonce, readCount, o).offers != []
    ensures a < |GasBufferSteps| && o.gasPriceRead(a).Ok?
    ensures Attempts(a, nonce, readCount, o).offers[0]
         == Offer(nonce, ApplyGasBuffer(o.gasPriceRead(a).value, GasBufferSteps[a]))
  {
  }

  /** How a run that went on past attempt `a` was assembled: the first
      offer failed retryably, the nonce was renewed only on 'nonce too low',
      and the rest is the loop from attempt `a + 1`. */
  lemma AttemptsUnfold(a: nat, nonce: nat, readCount: nat, o: Oracles) returns (n: nat, c: nat)
    requires a <= |GasBufferSteps|
    requires |Attempts(a, nonce, readCount, o).offers| > 1
    ensures a + 1 < |GasBufferSteps|
    ensures var r := Attempts(a, nonce, readCount, o);
            RetriedAfter(o, a, r.offers[0])
            && r == Continue(r.offers[0], a, Attempts(a + 1, n, c, o))
            && (RefreshedAfter(o, a, r.offers[0]) ==> o.nonceRead(readCount) == Ok(n) && c == readCount + 1)
            && (!RefreshedAfter(o, a, r.offers[0]) ==> n == nonce && c == readCount)
  {
    var r := Attempts(a, nonce, readCount, o);
    if RefreshedAfter(o, a, r.offers[0]) {
      n, c := o.nonceRead(readCount).value, readCount + 1;
    } else {
      n, c := nonce, readCount;
    }
  }

  /** Attempt `a` offered the node's price of that attempt raised by that
      attempt's buffer step. */
  predicate PricedAt(o: Oracles, a: nat, offer: Offer)
  {
    a < |GasBufferSteps| && o.gasPriceRead(a).Ok?
    && offer.gasPrice == ApplyGasBuffer(o.gasPriceRead(a).value, GasBufferSteps[a])
  }

  /** Every offer of a run from attempt `a` is priced for its own attempt. */
  predicate PricedFrom(o: Oracles, a: nat, offers: seq<Offer>)
  {
    forall i :: 0 <= i < |offers| ==> PricedAt(o, a + i, offers[i])
  }

  /** Prepending a priced offer to a priced rest gives a priced run. */
  lemma PricesStep(o: Oracles, a: nat, r: Run, rest: Run)
    requires r.offers != [] && r == Continue(r.offers[0], a, rest)
    requires PricedAt(o, a, r.offers[0]) && PricedFrom(o, a + 1, rest.offers)
    ensures PricedFrom(o, a, r.offers)
  {
    forall i | 0 <= i < |r.offers|
      ensures PricedAt(o, a + i, r.offers[i])
    {
      if i > 0 {
        assert r.offers[i] == rest.offers[i - 1];
        assert a + 1 + (i - 1) == a + i;
      }
    }
  }

  /** Each attempt offers the node's price of that attempt raised by that
      attempt's buffer step. */
  lemma {:induction false} AttemptsPrices(a: nat, nonce: nat, readCount: nat, o: Oracles)
    requires a <= |GasBufferSteps|
    ensures PricedFrom(o, a, Attempts(a, nonce, readCount, o).offers)
    decreases |GasBufferSteps| - a
  {
    var r := Attempts(a, nonce, readCount, o);
    if r.offers != [] {
      AttemptsFirst(a, nonce, readCount, o);
      assert PricedAt(o, a, r.offers[0]);
    }
    if |r.offers| > 1 {
      var n, c := AttemptsUnfold(a, nonce, readCount, o);
      AttemptsPrices(a + 1, n, c, o);
      PricesStep(o, a, r, Attempts(a + 1, n, c, o));
    }
  }

  /** The waits of a run from attempt `a` follow the back-off schedule. */
  predicate DelaysFrom(a: nat, delays: seq<nat>)
  {
    forall i :: 0 <= i < |delays| ==> delays[i] == BackoffDelay(a + i)
  }

  /** Prepending attempt `a`'s wait to a rest that follows the schedule from
      `a + 1` gives waits that follow it from `a`. */
  lemma DelaysStep(a: nat, r: Run, rest: Run)
    requires r.offers != [] && r == Continue(r.offers[0], a, rest)
    requires DelaysFrom(a + 1, rest.delays)
    ensures DelaysFrom(a, r.delays)
  {
    forall i | 0 <= i < |r.delays|
      ensures r.delays[i] == BackoffDelay(a + i)
    {
      if i > 0 {
        assert r.delays[i] == rest.delays[i - 1];
      }
    }
  }

  /** A run of at most one offer waits at most once, after attempt `a`. */
  lemma AttemptsDelaysShort(a: nat, nonce: nat, readCount: nat, o: Oracles)
    requires a <= |GasBufferSteps|
    requires |Attempts(a, nonce, readCount, o).offers| <= 1
    ensures DelaysFrom(a, Attempts(a, nonce, readCount, o).delays)
  {
    if a < |GasBufferSteps| && o.gasPriceRead(a).Ok? {
      var offer := Offer(nonce, ApplyGasBuffer(o.gasPriceRead(a).value, GasBufferSteps[a]));
      var r := Attempts(a, nonce, readCount, o);
      if o.write(a, offer).Failed? {
        var message := FailureText(o.write(a, offer));
        if ShouldRetry(message) && a < |GasBufferSteps| - 1 {
          if !ShouldRefreshNonce(message) {
            var rest := Attempts(a + 1, nonce, readCount, o);
            assert r == Continue(offer, a, rest);
            assert rest.delays == [];
          } else if o.nonceRead(readCount).Ok? {
            var rest := Attempts(a + 1, o.nonceRead(readCount).value, readCount + 1, o);
            assert r == Continue(offer, a, rest);
            assert rest.delays == [];
          }
        }
      }
    }
  }

  /** The wait after attempt `a + i` is `backoff(a + i)`. */
  lemma {:induction false} AttemptsDelays(a: nat, nonce: nat, readCount: nat, o: Oracles)
    requires a <= |GasBufferSteps|
    ensures DelaysFrom(a, Attempts(a, nonce, readCount, o).delays)
    decreases |GasBufferSteps| - a
  {
    var r := Attempts(a, nonce, readCount, o);
    if |r.offers| <= 1 {
      AttemptsDelaysShort(a, nonce, readCount, o);
    } else {
      var n, c := AttemptsUnfold(a, nonce, readCount, o);
      AttemptsDelays(a + 1, n, c, o);
      DelaysStep(a, r, Attempts(a + 1, n, c, o));
    }
  }

  /** Every offer of a run from attempt `a` but the last failed retryably. */
  predicate RetriedFrom(o: Oracles, a: nat, offers: seq<Offer>)
  {
    forall i :: 0 <= i < |offers| - 1 ==> RetriedAfter(o, a + i, offers[i])
  }

  /** Prepending a retried attempt to a rest whose offers but the last were
      retried keeps that property. */
  lemma RetriedStep(o: Oracles, a: nat, r: Run, rest: Run)
    requires r.offers != [] && r == Continue(r.offers[0], a, rest)
    requires RetriedAfter(o, a, r.offers[0]) && RetriedFrom(o, a + 1, rest.offers)
    ensures RetriedFrom(o, a, r.offers)
  {
    forall i | 0 <= i < |r.offers| - 1
      ensures RetriedAfter(o, a + i, r.offers[i])
    {
      if i > 0 {
        assert r.offers[i] == rest.offers[i - 1];
        assert a + 1 + (i - 1) == a + i;
      }
    }
  }

  /** Every attempt but the last failed with a retryable error. */
  lemma {:induction false} AttemptsRetried(a: nat, nonce: nat, readCount: nat, o: Oracles)
    requires a <= |GasBufferSteps|
    ensures RetriedFrom(o, a, Attempts(a, nonce, readCount, o).offers)
    decreases |GasBufferSteps| - a
  {
    var r := Attempts(a, nonce, readCount, o);
    if |r.offers| > 1 {
      var n, c := AttemptsUnfold(a, nonce, readCount, o);
      AttemptsRetried(a + 1, n, c, o);
      RetriedStep(o, a, r, Attempts(a + 1, n, c, o));
    }
  }

  /** A retry keeps the nonce unless the failure was 'nonce too low'; then
      the next attempt uses a nonce from a later read. */
  lemma {:induction false} AttemptsNonces(a: nat, nonce: nat, readCount: nat, o: Oracles)
    requires a <= |GasBufferSteps|
    ensures var r := Attempts(a, nonce, readCount, o);
            (forall i :: 0 <= i < |r.offers| - 1 && !RefreshedAfter(o, a + i, r.offers[i])
               ==> r.offers[i + 1].nonce == r.offers[i].nonce)
            && (forall i :: 0 <= i < |r.offers| - 1 && RefreshedAfter(o, a + i, r.offers[i]) ==>
                  (exists k :: readCount <= k < r.nonceReads && o.nonceRead(k) == Ok(r.offers[i + 1].nonce)))
    decreases |GasBufferSteps| - a
  {
    var r := Attempts(a, nonce, readCount, o);
    if |r.offers| > 1 {
      var refreshed := RefreshedAfter(o, a, r.offers[0]);
      var n, c := AttemptsUnfold(a, nonce, readCount, o);
      var rest := Attempts(a + 1, n, c, o);
      assert r.offers == [r.offers[0]] + rest.offers;
      assert r.nonceReads == rest.nonceReads;
      AttemptsNonces(a + 1, n, c, o);
      assert r.offers[1] == rest.offers[0];
      if refreshed {
        assert o.nonceRead(readCount) == Ok(r.offers[1].nonce);
      }
      forall i | 1 <= i < |r.offers| - 1
        ensures !RefreshedAfter(o, a + i, r.offers[i]) ==> r.offers[i + 1].nonce == r.offers[i].nonce
        ensures RefreshedAfter(o, a + i, r.offers[i]) ==>
                  (exists k :: readCount <= k < r.nonceReads && o.nonceRead(k) == Ok(r.offers[i + 1].nonce))
      {
        assert r.offers[i] == rest.offers[i - 1] && r.offers[i + 1] == rest.offers[i];
        assert a + 1 + (i - 1) == a + i;
      }
    }
  }

  /** Attempt `a`'s offer failed with 'nonce too low' while an attempt was
      still left: the failure after which the loop reads the nonce again. */
  predicate RefreshedWithAttemptLeft(o: Oracles, a: nat, offer: Offer)
  {
    RefreshedAfter(o, a, offer) && a + 1 < |GasBufferSteps|
  }

  /** How many of the first `i` offers made from attempt `a` on were
      followed by a nonce read. */
  function RefreshesBefore(o: Oracles, a: nat, offers: seq<Offer>, i: nat): nat
    requires i <= |offers|
  {
    if i == 0 then 0
    else RefreshesBefore(o, a, offers, i - 1) + (if RefreshedWithAttemptLeft(o, a + i - 1, offers[i - 1]) then 1 else 0)
  }

  /** The count over a run with one more attempt in front. */
  lemma {:induction false} RefreshesBeforeShift(o: Oracles, a: nat, x: Offer, rest: seq<Offer>, i: nat)
    requires i <= |rest|
    ensures RefreshesBefore(o, a, [x] + rest, i + 1)
         == (if RefreshedWithAttemptLeft(o, a, x) then 1 else 0) + RefreshesBefore(o, a + 1, rest, i)
  {
    if i > 0 {
      RefreshesBeforeShift(o, a, x, rest, i - 1);
      assert ([x] + rest)[i] == rest[i - 1];
      assert a + (i + 1) - 1 == a + 1 + i - 1;
    }
  }

  /** A run of at most one offer reads the nonce again only when that offer
      failed with 'nonce too low' and the read itself failed. */
  lemma AttemptsReadsShort(a: nat, nonce: nat, readCount: nat, o: Oracles)
    requires a <= |GasBufferSteps|
    requires |Attempts(a, nonce, readCount, o).offers| <= 1
    ensures var r := Attempts(a, nonce, readCount, o);
            r.nonceReads == readCount + RefreshesBefore(o, a, r.offers, |r.offers|)
  {
    if a < |GasBufferSteps| && o.gasPriceRead(a).Ok? {
      var offer := Offer(nonce, ApplyGasBuffer(o.gasPriceRead(a).value, GasBufferSteps[a]));
      var r := Attempts(a, nonce, readCount, o);
      assert r.offers == [offer];
      if o.write(a, offer).Failed? {
        var message := FailureText(o.write(a, offer));
        if ShouldRetry(message) && a < |GasBufferSteps| - 1 && ShouldRefreshNonce(message) && o.nonceRead(readCount).Ok? {
          var rest := Attempts(a + 1, o.nonceRead(readCount).value, readCount + 1, o);
          assert r == Continue(offer, a, rest);
          assert rest.offers == [] && rest.nonceReads == readCount + 1;
        }
      }
    }
  }

  /** The loop reads the nonce once more for each 'nonce too low' failure
      that earns another attempt, and at no other time. */
  lemma {:induction false} AttemptsNonceReads(a: nat, nonce: nat, readCount: nat, o: Oracles)
    requires a <= |GasBufferSteps|
    ensures var r := Attempts(a, nonce, readCount, o);
            r.nonceReads == readCount + RefreshesBefore(o, a, r.offers, |r.offers|)
    decreases |GasBufferSteps| - a
  {
    var r := Attempts(a, nonce, readCount, o);
    if |r.offers| <= 1 {
      AttemptsReadsShort(a, nonce, readCount, o);
    } else {
      var n, c := AttemptsUnfold(a, nonce, readCount, o);
      var rest := Attempts(a + 1, n, c, o);
      AttemptsNonceReads(a + 1, n, c, o);
      assert r.offers == [r.offers[0]] + rest.offers;
      RefreshesBeforeShift(o, a, r.offers[0], rest.offers, |rest.offers|);
    }
  }

  /** After each 'nonce too low' failure among `offers` (made from attempt
      `a` on, with `readCount` reads made before), the next offer carries
      the answer of the next read in order: the read numbered by how many
      refreshes came before. */
  predicate NoncesFollowReads(o: Oracles, a: nat, readCount: nat, offers: seq<Offer>)
  {
    forall i :: 0 <= i < |offers| - 1 && RefreshedAfter(o, a + i, offers[i]) ==>
      o.nonceRead(readCount + RefreshesBefore(o, a, offers, i)) == Ok(offers[i + 1].nonce)
  }

  /** A refreshed nonce is the answer of the next read in order. */
  lemma {:induction false} AttemptsRefreshedNonce(a: nat, nonce: nat, readCount: nat, o: Oracles)
    requires a <= |GasBufferSteps|
    ensures NoncesFollowReads(o, a, readCount, Attempts(a, nonce, readCount, o).offers)
    decreases |GasBufferSteps| - a
  {
    var r := Attempts(a, nonce, readCount, o);
    if |r.offers| > 1 {
      var n, c := AttemptsUnfold(a, nonce, readCount, o);
      AttemptsRefreshedNonce(a + 1, n, c, o);
      RefreshedNonceStep(o, a, readCount, r, Attempts(a + 1, n, c, o), c, n);
    }
  }

  /** The step of `AttemptsRefreshedNonce`: the facts about a run from
      attempt `a + 1` carried over to the run that adds attempt `a` in
      front. */
  lemma RefreshedNonceStep(o: Oracles, a: nat, readCount: nat, r: Run, rest: Run, c: nat, n: nat)
    requires r.offers != [] && rest.offers != [] && r == Continue(r.offers[0], a, rest)
    requires rest.offers[0].nonce == n && a + 1 + |rest.offers| <= |GasBufferSteps|
    requires RefreshedAfter(o, a, r.offers[0]) ==> o.nonceRead(readCount) == Ok(n) && c == readCount + 1
    requires !RefreshedAfter(o, a, r.offers[0]) ==> c == readCount
    requires NoncesFollowReads(o, a + 1, c, rest.offers)
    ensures NoncesFollowReads(o, a, readCount, r.offers)
  {
    var offers := r.offers;
    assert offers == [offers[0]] + rest.offers;
    forall i | 0 <= i < |offers| - 1 && RefreshedAfter(o, a + i, offers[i])
      ensures o.nonceRead(readCount + RefreshesBefore(o, a, offers, i)) == Ok(offers[i + 1].nonce)
    {
      if i > 0 {
        var j := i - 1;
        RefreshesBeforeShift(o, a, offers[0], rest.offers, j);
        assert offers[i] == rest.offers[j] && offers[i + 1] == rest.offers[j + 1];
        assert a + 1 + j == a + i;
      }
    }
  }

  lemma AttemptsSubmittedFirst(a: nat, nonce: nat, readCount: nat, o: Oracles)
    requires a <= |GasBufferSteps|
    requires |Attempts(a, nonce, readCount, o).offers| <= 1
    ensures var r := Attempts(a, nonce, readCount, o);
            r.outcome.Submitted? ==> r.offers != [] && o.write(a, r.offers[0]) == Sent(r.outcome.hash)
  {
  }

  /** A run from attempt `a` that submitted got its hash as the answer to
      its last offer. */
  predicate SubmittedLast(o: Oracles, a: nat, r: Run)
  {
    r.outcome.Submitted? ==>
      r.offers != [] && o.write(a + |r.offers| - 1, r.offers[|r.offers| - 1]) == Sent(r.outcome.hash)
  }

  /** Prepending attempt `a` to a rest keeps its last offer and its
      outcome. */
  lemma SubmittedStep(o: Oracles, a: nat, r: Run, rest: Run)
    requires r.offers != [] && rest.offers != [] && r == Continue(r.offers[0], a, rest)
    requires SubmittedLast(o, a + 1, rest)
    ensures SubmittedLast(o, a, r)
  {
    var k := |r.offers| - 1;
    assert r.offers[k] == rest.offers[k - 1];
    assert a + 1 + |rest.offers| - 1 == a + k;
  }

  /** A successful write ends the loop: the returned hash is the answer to
      the last attempt. */
  lemma {:induction false} AttemptsSubmitted(a: nat, nonce: nat, readCount: nat, o: Oracles)
    requires a <= |GasBufferSteps|
    ensures SubmittedLast(o, a, Attempts(a, nonce, readCount, o))
    decreases |GasBufferSteps| - a
  {
    var r := Attempts(a, nonce, readCount, o);
    if |r.offers| <= 1 {
      AttemptsSubmittedFirst(a, nonce, readCount, o);
    } else {
      var n, c := AttemptsUnfold(a, nonce, readCount, o);
      AttemptsSubmitted(a + 1, n, c, o);
      SubmittedStep(o, a, r, Attempts(a + 1, n, c, o));
    }
  }

  /** The last attempt failed for good: its error is not retryable, or no
      attempt is left. */
  predicate FinalFailure(o: Oracles, a: nat, offer: Offer)
  {
    o.write(a, offer).Failed? && (!ShouldRetry(FailureText(o.write(a, offer))) || a == |GasBufferSteps| - 1)
  }

  lemma AttemptsRethrowsFirst(a: nat, nonce: nat, readCount: nat, o: Oracles)
    requires a <= |GasBufferSteps|
    requires |Attempts(a, nonce, readCount, o).offers| == 1
    ensures var r := Attempts(a, nonce, readCount, o);
            FinalFailure(o, a, r.offers[0]) ==> r.outcome == Rethrown(o.write(a, r.offers[0]).error)
  {
  }

  /** A run from attempt `a` whose last offer failed for good ends by
      rethrowing that failure's error. */
  predicate RethrowsLast(o: Oracles, a: nat, r: Run)
  {
    r.offers != [] && FinalFailure(o, a + |r.offers| - 1, r.offers[|r.offers| - 1]) ==>
      r.outcome == Rethrown(o.write(a + |r.offers| - 1, r.offers[|r.offers| - 1]).error)
  }

  /** Prepending attempt `a` to a non-empty rest keeps its last offer and
      its outcome. */
  lemma RethrowsStep(o: Oracles, a: nat, r: Run, rest: Run)
    requires r.offers != [] && rest.offers != [] && r == Continue(r.offers[0], a, rest)
    requires RethrowsLast(o, a + 1, rest)
    ensures RethrowsLast(o, a, r)
  {
    var k := |r.offers| - 1;
    assert r.offers[k] == rest.offers[k - 1];
    assert a + 1 + |rest.offers| - 1 == a + k;
  }

  /** A failure that earns no further attempt is rethrown as it came. */
  lemma {:induction false} AttemptsRethrows(a: nat, nonce: nat, readCount: nat, o: Oracles)
    requires a <= |GasBufferSteps|
    ensures RethrowsLast(o, a, Attempts(a, nonce, readCount, o))
    decreases |GasBufferSteps| - a
  {
    var r := Attempts(a, nonce, readCount, o);
    if |r.offers| == 1 {
      AttemptsRethrowsFirst(a, nonce, readCount, o);
    } else if |r.offers| > 1 {
      var n, c := AttemptsUnfold(a, nonce, readCount, o);
      AttemptsRethrows(a + 1, n, c, o);
      RethrowsStep(o, a, r, Attempts(a + 1, n, c, o));
    }
  }

  /** A run from attempt `a` that made no offer stopped at once: the price
      read of attempt `a` failed and its error is rethrown. */
  lemma AttemptsNoOffer(a: nat, nonce: nat, readCount: nat, o: Oracles)
    requires a < |GasBufferSteps|
    requires Attempts(a, nonce, readCount, o).offers == []
    ensures o.gasPriceRead(a).Err?
    ensures Attempts(a, nonce, readCount, o) == Run(Rethrown(o.gasPriceRead(a).error), [], [], readCount)
  {
  }

  /** How a run from attempt `a` ends after its last offer `k`. A retryable
      failure with an attempt left is always followed by a wait and the next
      attempt, unless the nonce re-read it called for failed; that next
      attempt made no offer, so its price read failed and is rethrown. Any
      other last offer ends the run without a wait. */
  predicate EndsAfterLast(o: Oracles, a: nat, r: Run)
  {
    r.offers != [] ==>
      var k := a + |r.offers| - 1;
      var last := r.offers[|r.offers| - 1];
      if RetriedAfter(o, k, last) && k + 1 < |GasBufferSteps| then
        if RefreshedAfter(o, k, last) && r.nonceReads > 0 && o.nonceRead(r.nonceReads - 1).Err? then
          |r.delays| == |r.offers| - 1 && r.outcome == Rethrown(o.nonceRead(r.nonceReads - 1).error)
        else
          |r.delays| == |r.offers| && o.gasPriceRead(k + 1).Err?
          && r.outcome == Rethrown(o.gasPriceRead(k + 1).error)
      else |r.delays| == |r.offers| - 1
  }

  /** A single offer whose write succeeded, or failed for good, ends the
      run without a wait. */
  lemma EndsShortStopped(a: nat, nonce: nat, readCount: nat, o: Oracles)
    requires a < |GasBufferSteps| && o.gasPriceRead(a).Ok?
    requires var offer := Offer(nonce, ApplyGasBuffer(o.gasPriceRead(a).value, GasBufferSteps[a]));
             !(RetriedAfter(o, a, offer) && a + 1 < |GasBufferSteps|)
    ensures EndsAfterLast(o, a, Attempts(a, nonce, readCount, o))
  {
    var offer := Offer(nonce, ApplyGasBuffer(o.gasPriceRead(a).value, GasBufferSteps[a]));
    var r := Attempts(a, nonce, readCount, o);
    match o.write(a, offer)
    case Sent(hash) =>
      assert r == Run(Submitted(hash), [offer], [], readCount);
    case Failed(e) =>
      assert r == Run(Rethrown(e), [offer], [], readCount);
  }

  /** A 'nonce too low' failure whose nonce re-read failed ends the run
      with that read's error, without a wait. */
  lemma EndsShortReadFailed(a: nat, nonce: nat, readCount: nat, o: Oracles)
    requires a + 1 < |GasBufferSteps| && o.gasPriceRead(a).Ok?
    requires var offer := Offer(nonce, ApplyGasBuffer(o.gasPriceRead(a).value, GasBufferSteps[a]));
             RetriedAfter(o, a, offer) && RefreshedAfter(o, a, offer)
    requires o.nonceRead(readCount).Err?
    ensures EndsAfterLast(o, a, Attempts(a, nonce, readCount, o))
  {
    var offer := Offer(nonce, ApplyGasBuffer(o.gasPriceRead(a).value, GasBufferSteps[a]));
    var r := Attempts(a, nonce, readCount, o);
    assert r == Run(Rethrown(o.nonceRead(readCount).error), [offer], [], readCount + 1);
  }

  /** A retried single offer whose next attempt made no offer waited once,
      and the next attempt's failed price read is rethrown. */
  lemma EndsShortContinued(a: nat, nonce: nat, readCount: nat, o: Oracles, n: nat, c: nat)
    requires a + 1 < |GasBufferSteps| && o.gasPriceRead(a).Ok?
    requires var offer := Offer(nonce, ApplyGasBuffer(o.gasPriceRead(a).value, GasBufferSteps[a]));
             Attempts(a, nonce, readCount, o) == Continue(offer, a, Attempts(a + 1, n, c, o))
             && RetriedAfter(o, a, offer)
             && (RefreshedAfter(o, a, offer) ==> c > 0 && o.nonceRead(c - 1).Ok?)
    requires Attempts(a + 1, n, c, o).offers == []
    ensures EndsAfterLast(o, a, Attempts(a, nonce, readCount, o))
  {
    AttemptsNoOffer(a + 1, n, c, o);
  }

  /** The ending of a run of exactly one offer, by the branches of the loop
      body. */
  lemma AttemptsEndsShort(a: nat, nonce: nat, readCount: nat, o: Oracles)
    requires a <= |GasBufferSteps|
    requires |Attempts(a, nonce, readCount, o).offers| == 1
    ensures EndsAfterLast(o, a, Attempts(a, nonce, readCount, o))
  {
    AttemptsFirst(a, nonce, readCount, o);
    var offer := Offer(nonce, ApplyGasBuffer(o.gasPriceRead(a).value, GasBufferSteps[a]));
    if !(RetriedAfter(o, a, offer) && a + 1 < |GasBufferSteps|) {
      EndsShortStopped(a, nonce, readCount, o);
    } else if RefreshedAfter(o, a, offer) && o.nonceRead(readCount).Err? {
      EndsShortReadFailed(a, nonce, readCount, o);
    } else if RefreshedAfter(o, a, offer) {
      EndsShortContinued(a, nonce, readCount, o, o.nonceRead(readCount).value, readCount + 1);
    } else {
      EndsShortContinued(a, nonce, readCount, o, nonce, readCount);
    }
  }

  /** Prepending attempt `a` to a non-empty rest keeps the last offer, the
      outcome and the read count, and adds one offer and one wait. */
  lemma EndsStep(o: Oracles, a: nat, r: Run, rest: Run)
    requires r.offers != [] && rest.offers != [] && r == Continue(r.offers[0], a, rest)
    requires EndsAfterLast(o, a + 1, rest)
    ensures EndsAfterLast(o, a, r)
  {
    var k := |r.offers| - 1;
    assert r.offers[k] == rest.offers[k - 1];
    assert a + 1 + |rest.offers| - 1 == a + k;
  }

  /** Every run ends as `EndsAfterLast` describes. */
  lemma {:induction false} AttemptsEnds(a: nat, nonce: nat, readCount: nat, o: Oracles)
    requires a <= |GasBufferSteps|
    ensures EndsAfterLast(o, a, Attempts(a, nonce, readCount, o))
    decreases |GasBufferSteps| - a
  {
    var r := Attempts(a, nonce, readCount, o);
    if |r.offers| == 1 {
      AttemptsEndsShort(a, nonce, readCount, o);
    } else if |r.offers| > 1 {
      var n, c := AttemptsUnfold(a, nonce, readCount, o);
      AttemptsEnds(a + 1, n, c, o);
      EndsStep(o, a, r, Attempts(a + 1, n, c, o));
    }
  }

  /** The sender's side of the wallet, as far as the controller needs it. */
  datatype Clients = Clients(
    hasPublicClient: bool,
    hasWalletClient: bool,
    account: Option<string>,
    walletAccount: Option<string>)

  const WalletAccountUnavailable: string := "Wallet account unavailable. Reconnect wallet and try again."

  /** `account ?? walletClient.account?.address`, with the empty string
      counting as missing. */
  function Sender(c: Clients): Option<string>
  {
    var s := if c.account.Some? then c.account.value else c.walletAccount.GetOr("");
    if s == [] then None else Some(s)
  }

  /** `sendCreateBattleWithRetry`. */
  function SendWithRetry(c: Clients, o: Oracles): (r: Run)
    ensures !c.hasPublicClient ==> r == Run(Rethrown(Error(Feedback.RpcUnavailable)), [], [], 0)
    ensures c.hasPublicClient && !c.hasWalletClient ==> r == Run(Rethrown(Error(Feedback.WalletClientUnavailable)), [], [], 0)
    ensures c.hasPublicClient && c.hasWalletClient && Sender(c).None?
            ==> r == Run(Rethrown(Error(WalletAccountUnavailable)), [], [], 0)
  {
    if !c.hasPublicClient then Run(Rethrown(Error(Feedback.RpcUnavailable)), [], [], 0)
    else if !c.hasWalletClient then Run(Rethrown(Error(Feedback.WalletClientUnavailable)), [], [], 0)
    else if Sender(c).None? then Run(Rethrown(Error(WalletAccountUnavailable)), [], [], 0)
    else
      match o.nonceRead(0)
      case Err(e) => Run(Rethrown(e), [], [], 1)
      case Ok(nonce) => Attempts(0, nonce, 1, o)
  }

  /** A run either stops at a guard or at the first nonce read, before any
      attempt, or is the loop started at attempt 0 with the first nonce. */
  lemma SendWithRetryStart(c: Clients, o: Oracles) returns (started: bool, nonce: nat)
    ensures started ==> o.nonceRead(0) == Ok(nonce) && SendWithRetry(c, o) == Attempts(0, nonce, 1, o)
    ensures !started ==> var r := SendWithRetry(c, o);
              r.offers == [] && r.delays == [] && r.outcome.Rethrown?
  {
    started := c.hasPublicClient && c.hasWalletClient && Sender(c).Some? && o.nonceRead(0).Ok?;
    nonce := if started then o.nonceRead(0).value else 0;
  }

  /** The controller makes at most three attempts, and never reaches its
      final 'after retries' throw. */
  lemma SendWithRetryBounded(c: Clients, o: Oracles)
    ensures |SendWithRetry(c, o).offers| <= 3
    ensures SendWithRetry(c, o).outcome != Exhausted
  {
    var started, nonce := SendWithRetryStart(c, o);
  }

  /** Attempt `i` offers the node price read on attempt `i` raised by the
      `i`-th buffer step. */
  lemma SendWithRetryPrices(c: Clients, o: Oracles)
    ensures var r := SendWithRetry(c, o);
            forall i :: 0 <= i < |r.offers| ==>
              o.gasPriceRead(i).Ok? && r.offers[i].gasPrice == ApplyGasBuffer(o.gasPriceRead(i).value, GasBufferSteps[i])
  {
    var started, nonce := SendWithRetryStart(c, o);
    if started {
      AttemptsPrices(0, nonce, 1, o);
    }
  }

  /** After a retried attempt `a` the controller waits 500·2^a ms. */
  lemma SendWithRetryDelays(c: Clients, o: Oracles)
    ensures var r := SendWithRetry(c, o);
            forall i :: 0 <= i < |r.delays| ==> r.delays[i] == 500 * Pow2(i)
    ensures EndsAfterLast(o, 0, SendWithRetry(c, o))
  {
    var started, nonce := SendWithRetryStart(c, o);
    if started {
      AttemptsDelays(0, nonce, 1, o);
      AttemptsEnds(0, nonce, 1, o);
    }
  }

  /** Only retryable failures lead to another attempt. */
  lemma SendWithRetryRetried(c: Clients, o: Oracles)
    ensures var r := SendWithRetry(c, o);
            forall i :: 0 <= i < |r.offers| - 1 ==> RetriedAfter(o, i, r.offers[i])
    ensures var r := SendWithRetry(c, o);
            r.offers != [] && RetriedAfter(o, |r.offers| - 1, r.offers[|r.offers| - 1])
            && |r.offers| < |GasBufferSteps| ==>
              (o.gasPriceRead(|r.offers|).Err? && r.outcome == Rethrown(o.gasPriceRead(|r.offers|).error))
              || (r.nonceReads > 0 && o.nonceRead(r.nonceReads - 1).Err?
                  && r.outcome == Rethrown(o.nonceRead(r.nonceReads - 1).error))
  {
    var started, nonce := SendWithRetryStart(c, o);
    if started {
      AttemptsRetried(0, nonce, 1, o);
      AttemptsEnds(0, nonce, 1, o);
    }
  }

  /** A successful write ends the loop at once and its hash is returned:
      the hash is the answer to the last attempt made. */
  lemma SendWithRetrySubmits(c: Clients, o: Oracles)
    ensures var r := SendWithRetry(c, o);
            r.outcome.Submitted? ==>
              1 <= |r.offers| <= 3 && o.write(|r.offers| - 1, r.offers[|r.offers| - 1]) == Sent(r.outcome.hash)
  {
    var started, nonce := SendWithRetryStart(c, o);
    if started {
      AttemptsSubmitted(0, nonce, 1, o);
    }
  }

  /** A non-retryable failure, or any failure of the third attempt, is
      rethrown unchanged. */
  lemma SendWithRetryRethrows(c: Clients, o: Oracles)
    ensures var r := SendWithRetry(c, o);
            r.offers != [] && FinalFailure(o, |r.offers| - 1, r.offers[|r.offers| - 1]) ==>
              r.outcome == Rethrown(o.write(|r.offers| - 1, r.offers[|r.offers| - 1]).error)
  {
    var started, nonce := SendWithRetryStart(c, o);
    if started {
      AttemptsRethrows(0, nonce, 1, o);
    }
  }

  /** The nonce is read once before the loop; a retry reuses the previous
      nonce unless the failure was 'nonce too low', which takes a new
      read. The reads are made in order and no other read is made: after
      the first, one per 'nonce too low' failure that earns another
      attempt. */
  lemma SendWithRetryNonces(c: Clients, o: Oracles)
    ensures var r := SendWithRetry(c, o);
            (r.offers != [] ==> o.nonceRead(0) == Ok(r.offers[0].nonce))
            && (forall i :: 0 <= i < |r.offers| - 1 && !RefreshedAfter(o, i, r.offers[i])
                  ==> r.offers[i + 1].nonce == r.offers[i].nonce)
            && (forall i :: 0 <= i < |r.offers| - 1 && RefreshedAfter(o, i, r.offers[i]) ==>
                  (exists k :: 1 <= k < r.nonceReads && o.nonceRead(k) == Ok(r.offers[i + 1].nonce)))
            && NoncesFollowReads(o, 0, 1, r.offers)
    ensures var r := SendWithRetry(c, o);
            r.nonceReads == if c.hasPublicClient && c.hasWalletClient && Sender(c).Some?
                            then 1 + RefreshesBefore(o, 0, r.offers, |r.offers|)
                            else 0
  {
    var started, nonce := SendWithRetryStart(c, o);
    if started {
      AttemptsNonces(0, nonce, 1, o);
      AttemptsRefreshedNonce(0, nonce, 1, o);
      AttemptsNonceReads(0, nonce, 1, o);
    }
  }

  /** With a steady node price the offers never go down, and with a price
      of at least 10 every retry offers strictly more. */
  lemma SteadyPriceOffersGrow(c: Clients, o: Oracles, p: nat)
    requires forall a :: o.gasPriceRead(a) == Ok(p)
    ensures var r := SendWithRetry(c, o);
            (forall i :: 0 <= i < |r.offers| - 1 ==> r.offers[i].gasPrice <= r.offers[i + 1].gasPrice)
            && (p >= 10 ==> forall i :: 0 <= i < |r.offers| - 1 ==> r.offers[i].gasPrice < r.offers[i + 1].gasPrice)
  {
    SendWithRetryPrices(c, o);
    BufferStepsIncrease(p);
  }

  // ---------------------------------------------------------------------
  // The submit gate and the phase transitions

  /** The configuration and wallet state the submit handler reads.
      `expectedChainId` is `Number(NEXT_PUBLIC_CHAIN_ID)`, `None` when that
      is not a finite number; `chainId` is
      `chainId ?? walletClient.chain?.id ?? publicClient.chain?.id`. */
  datatype Panel = Panel(
    expectedChainId: Option<int>,
    rpcUrl: string,
    clients: Clients,
    chainId: Option<int>)

  /** The numbers handed to the handler; `None` is a value that is not
      finite (`NaN` from an unparsable field). */
  datatype Form = Form(entryFee: Option<real>, maxAgents: Option<real>, durationHours: Option<real>)

  /** The nine checks of `submitCreateBattle`, in the order it makes them. */
  datatype Gate =
    | NoChainId | NoRpcUrl | NoPublicClient | NoWalletClient | ChainUnknown | WrongChain
    | BadEntryFee | BadMaxAgents | BadDuration

  function GateIndex(g: Gate): nat
  {
    match g
    case NoChainId => 0
    case NoRpcUrl => 1
    case NoPublicClient => 2
    case NoWalletClient => 3
    case ChainUnknown => 4
    case WrongChain => 5
    case BadEntryFee => 6
    case BadMaxAgents => 7
    case BadDuration => 8
  }

  predicate HasExpectedChainId(p: Panel)
  {
    p.expectedChainId.Some? && p.expectedChainId.value > 0
  }

  /** Gate `g` on its own: the condition under which that check rejects.
      A chain id that is missing or 0 is falsy, and a missing expected id
      (`NaN`) differs from every chain id. */
  predicate Fails(g: Gate, p: Panel, f: Form)
  {
    match g
    case NoChainId => !HasExpectedChainId(p)
    case NoRpcUrl => p.rpcUrl == []
    case NoPublicClient => !p.clients.hasPublicClient
    case NoWalletClient => !p.clients.hasWalletClient
    case ChainUnknown => p.chainId.None? || p.chainId.value == 0
    case WrongChain => p.chainId.None? || p.expectedChainId.None? || p.chainId.value != p.expectedChainId.value
    case BadEntryFee => f.entryFee.None? || f.entryFee.value <= 0.0
    case BadMaxAgents => f.maxAgents.None? || f.maxAgents.value < 2.0
    case BadDuration => f.durationHours.None? || f.durationHours.value <= 0.0
  }

  /** The handler's checks as written: the first one that rejects. */
  function FirstFailure(p: Panel, f: Form): (r: Option<Gate>)
    ensures r.Some? ==> Fails(r.value, p, f)
  {
    if !HasExpectedChainId(p) then Some(NoChainId)
    else if p.rpcUrl == [] then Some(NoRpcUrl)
    else if !p.clients.hasPublicClient then Some(NoPublicClient)
    else if !p.clients.hasWalletClient then Some(NoWalletClient)
    else if p.chainId.None? || p.chainId.value == 0 then Some(ChainUnknown)
    else if p.chainId.value != p.expectedChainId.value then Some(WrongChain)
    else if f.entryFee.None? || f.entryFee.value <= 0.0 then Some(BadEntryFee)
    else if f.maxAgents.None? || f.maxAgents.value < 2.0 then Some(BadMaxAgents)
    else if f.durationHours.None? || f.durationHours.value <= 0.0 then Some(BadDuration)
    else None
  }

  /** First failure wins: the reported gate rejects and every gate before
      it passes, and nothing is reported exactly when all nine pass. */
  lemma FirstFailureWins(p: Panel, f: Form, g: Gate)
    ensures FirstFailure(p, f) == Some(g)
            <==> Fails(g, p, f) && forall h :: GateIndex(h) < GateIndex(g) ==> !Fails(h, p, f)
    ensures FirstFailure(p, f).None? <==> forall h :: !Fails(h, p, f)
  {
    if FirstFailure(p, f).None? {
      forall h ensures !Fails(h, p, f) {
      }
    }
  }

  /** The toast each gate raises. */
  function GateMessage(g: Gate, p: Panel): string
  {
    match g
    case NoChainId => "Missing NEXT_PUBLIC_CHAIN_ID in frontend env config"
    case NoRpcUrl => "Missing NEXT_PUBLIC_BATTLECHAIN_RPC_URL in frontend env config"
    case NoPublicClient => Feedback.RpcUnavailable
    case NoWalletClient => "Connect your wallet to create a battle"
    case ChainUnknown => "Unable to detect wallet chain. Reconnect your wallet."
    case WrongChain =>
      "Wrong network. Switch to chain "
      + (if p.expectedChainId.Some? then Decimal.IntToString(p.expectedChainId.value) else "NaN") + "."
    case BadEntryFee => "Enter a valid entry fee"
    case BadMaxAgents => "Enter a valid max agents value (min 2)"
    case BadDuration => "Enter a valid duration in hours"
  }

  /** The first six gates (configuration and wallet) mark the phase as an
      error; the three form checks only raise a toast. */
  predicate SetsErrorPhase(g: Gate)
  {
    GateIndex(g) < 6
  }

  const SubmittedNote: string := "Battle submitted. Waiting for confirmation..."

  /** What one call of the handler leaves behind: the phase, the toasts in
      order, the controller's run (`None` when nothing was sent), and
      whether the dialog was closed and the battles refetched. */
  datatype Submission = Submission(phase: Feedback.Phase, toasts: seq<Feedback.Toast>, run: Option<Run>, closed: bool)

  /** The `catch` block: the formatted message picks the phase and is
      raised as an error toast. */
  function Caught(e: Thrown, toasts: seq<Feedback.Toast>, run: Run): Submission
  {
    var message := WalletErrors.FormatWalletError(e);
    Submission(Feedback.FailurePhase(message), toasts + [Feedback.ToastError(message)], Some(run), false)
  }

  /** `submitCreateBattle`, from phase `prior`; `wait` answers the receipt
      wait. */
  function Submit(prior: Feedback.Phase, p: Panel, f: Form, o: Oracles,
                  wait: Receipt.ReceiptRequest -> Result<Receipt.TxReceipt, Thrown>): (r: Submission)
    ensures r.toasts != []
  {
    match FirstFailure(p, f)
    case Some(g) =>
      Submission(if SetsErrorPhase(g) then Feedback.Error else prior, [Feedback.ToastError(GateMessage(g, p))], None, false)
    case None =>
      var run := SendWithRetry(p.clients, o);
      match run.outcome
      case Submitted(hash) =>
        (match Receipt.WaitForReceipt(p.clients.hasPublicClient, hash, wait)
         case Ok(_) =>
           Submission(Feedback.Success, [Feedback.ToastInfo(SubmittedNote), Feedback.ToastSuccess("Battle created")], Some(run), true)
         case Err(e) => Caught(e, [Feedback.ToastInfo(SubmittedNote)], run))
      case Rethrown(e) => Caught(e, [], run)
      case Exhausted => Caught(Error(ExhaustedMessage), [], run)
  }

  /** A rejected check sends nothing: one error toast names the check, and
      only the configuration and wallet checks move the phase to error. */
  lemma SubmitGateBlocks(prior: Feedback.Phase, p: Panel, f: Form, o: Oracles,
                         wait: Receipt.ReceiptRequest -> Result<Receipt.TxReceipt, Thrown>, g: Gate)
    requires Fails(g, p, f)
    ensures var r := Submit(prior, p, f, o, wait);
            r.run.None? && !r.closed
            && exists h :: GateIndex(h) <= GateIndex(g)
                 && r.toasts == [Feedback.ToastError(GateMessage(h, p))]
                 && r.phase == (if SetsErrorPhase(h) then Feedback.Error else prior)
  {
    FirstFailureWins(p, f, g);
    var h := FirstFailure(p, f).value;
    FirstFailureWins(p, f, h);
  }

  /** The controller runs exactly when all nine checks pass. */
  lemma SubmitSendsOnlyWhenReady(prior: Feedback.Phase, p: Panel, f: Form, o: Oracles,
                                 wait: Receipt.ReceiptRequest -> Result<Receipt.TxReceipt, Thrown>)
    ensures Submit(prior, p, f, o, wait).run.Some? <==> forall g :: !Fails(g, p, f)
    ensures Submit(prior, p, f, o, wait).run.Some? ==> Submit(prior, p, f, o, wait).run.value == SendWithRetry(p.clients, o)
  {
    FirstFailureWins(p, f, NoChainId);
  }

  /** Once the checks pass the handler ends in success, timeout or error:
      success exactly when a hash came back and its receipt arrived, and
      otherwise timeout exactly when the last toast's message mentions a
      timeout. */
  lemma SubmitFinalPhase(prior: Feedback.Phase, p: Panel, f: Form, o: Oracles,
                         wait: Receipt.ReceiptRequest -> Result<Receipt.TxReceipt, Thrown>)
    requires FirstFailure(p, f).None?
    ensures var r := Submit(prior, p, f, o, wait);
            var run := SendWithRetry(p.clients, o);
            (r.phase == Feedback.Success <==>
               run.outcome.Submitted? && Receipt.WaitForReceipt(true, run.outcome.hash, wait).Ok?)
            && (r.phase == Feedback.Success <==> r.closed)
            && (r.phase != Feedback.Success ==>
                  r.toasts[|r.toasts| - 1].ToastError?
                  && (r.phase == Feedback.Timeout <==> Contains(Lower(r.toasts[|r.toasts| - 1].text), "timeout"))
                  && (r.phase == Feedback.Timeout || r.phase == Feedback.Error))
  {
    var run := SendWithRetry(p.clients, o);
    var r := Submit(prior, p, f, o, wait);
    assert p.clients.hasPublicClient;
    match run.outcome {
      case Submitted(hash) =>
        var w := Receipt.WaitForReceipt(true, hash, wait);
        if w.Err? {
          assert r == Caught(w.error, [Feedback.ToastInfo(SubmittedNote)], run);
          CaughtEndsInFailure(w.error, [Feedback.ToastInfo(SubmittedNote)], run);
        }
      case Rethrown(e) =>
        assert r == Caught(e, [], run);
        CaughtEndsInFailure(e, [], run);
      case Exhausted =>
        CaughtEndsInFailure(Error(ExhaustedMessage), [], run);
    }
  }

  lemma CaughtEndsInFailure(e: Thrown, toasts: seq<Feedback.Toast>, run: Run)
    ensures var r := Caught(e, toasts, run);
            !r.closed && r.toasts != [] && r.toasts[|r.toasts| - 1].ToastError?
            && (r.phase == Feedback.Timeout || r.phase == Feedback.Error)
            && (r.phase == Feedback.Timeout <==> Contains(Lower(r.toasts[|r.toasts| - 1].text), "timeout"))
  {
  }

  /** A receipt wait that times out always ends the handler in the timeout
      phase with the timeout message, whatever else the node's error said. */
  lemma SubmitReceiptTimeout(prior: Feedback.Phase, p: Panel, f: Form, o: Oracles,
                             wait: Receipt.ReceiptRequest -> Result<Receipt.TxReceipt, Thrown>)
    requires FirstFailure(p, f).None?
    requires SendWithRetry(p.clients, o).outcome.Submitted?
    requires var answer := wait(Receipt.ReceiptRequest(SendWithRetry(p.clients, o).outcome.hash, Receipt.TimeoutMs, Receipt.PollingIntervalMs));
             answer.Err? && Receipt.MentionsTimeout(MessageOf(answer.error))
    ensures Submit(prior, p, f, o, wait).phase == Feedback.Timeout
    ensures Submit(prior, p, f, o, wait).toasts[|Submit(prior, p, f, o, wait).toasts| - 1]
         == Feedback.ToastError(WalletErrors.RpcTimeout)
  {
    Receipt.WaitTimeoutSurvivesFormatting(SendWithRetry(p.clients, o).outcome.hash, wait);
    WalletErrors.RpcTimeoutMatchesTimeout();
  }
}
