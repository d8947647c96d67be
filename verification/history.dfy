/** The battle history of frontend/src/components/BattleHistory.tsx: which
    settled battles are listed, their badges and actions, and the keys that
    mark a claim in progress. */
module History {
  import opened Wrappers
  import opened Contracts
  import opened Record
  import opened Claims
  import opened Feedback
  import Decimal

  /** `record[battleKey] ?? 0n`. */
  function AmountOr0(r: Record<nat>, id: nat): nat
  {
    Get(r, id).GetOr(0)
  }

  predicate HasClaimable(c: Claims, id: nat)
  {
    AmountOr0(c.prizes, id) > 0 || AmountOr0(c.bets, id) > 0 || AmountOr0(c.pending, id) > 0
  }

  /** The filter: a settled battle the account took part in, or one with
      something to claim; a missing entry counts as 0 or false. */
  predicate Listed(c: Claims, b: BattleSummary)
  {
    var p := Get(c.participation, b.id);
    IsSettled(b.state) && ((p.Some? && (p.value.asOwner || p.value.asBettor)) || HasClaimable(c, b.id))
  }

  /** `history`. */
  function HistoryOf(bs: seq<BattleSummary>, c: Claims): (r: seq<BattleSummary>)
    ensures forall b :: b in r <==> b in bs && Listed(c, b)
    ensures |r| <= |bs|
  {
    if bs == [] then []
    else
      var rest := HistoryOf(bs[1..], c);
      assert bs == [bs[0]] + bs[1..];
      if Listed(c, bs[0]) then [bs[0]] + rest else rest
  }

  /** The filter keeps the battles' order: it distributes over
      concatenation. */
  lemma {:induction false} HistoryAppend(a: seq<BattleSummary>, b: seq<BattleSummary>, c: Claims)
    ensures HistoryOf(a + b, c) == HistoryOf(a, c) + HistoryOf(b, c)
  {
    if a != [] {
      assert (a + b)[1..] == a[1..] + b;
      HistoryAppend(a[1..], b, c);
    } else {
      assert a + b == b;
    }
  }

  /** After a sweep with distinct ids, a battle is listed exactly when it
      is settled and its reads show ownership, a winning bet or an amount
      to claim. */
  lemma ListedAfterSweep(account: string, battles: seq<BattleSummary>, o: Oracles, b: BattleSummary)
    requires account != [] && DistinctIds(battles) && b in battles
    ensures var c := RefreshClaimables(true, true, account, battles, o);
            Listed(c, b) <==>
              IsSettled(b.state)
              && (Prize(o, b) > 0 || BetPayout(o, b) > 0 || PendingWithdrawal(o, b) > 0
                  || (o.claims(b).Ok? && (AsOwner(o, b.address, account) || o.claims(b).value.betAmount > 0)))
  {
    if IsSettled(b.state) {
      ClaimsEntry(account, battles, o, b);
    }
  }

  /** The badges shown next to a listed battle. */
  datatype Badge = PrizeClaimable | PayoutReady | WithdrawalReady | Neutral(text: string)

  function Badges(c: Claims, id: nat): (r: seq<Badge>)
    ensures PrizeClaimable in r <==> AmountOr0(c.prizes, id) > 0
    ensures PayoutReady in r <==> AmountOr0(c.bets, id) > 0
    ensures WithdrawalReady in r <==> AmountOr0(c.pending, id) > 0
    ensures (exists t :: Neutral(t) in r) <==> !HasClaimable(c, id)
    ensures forall t :: Neutral(t) in r ==>
              t == (if Get(c.participation, id).Some? && Get(c.participation, id).value.betClaimed then "Claimed" else "No rewards")
  {
    var p := Get(c.participation, id);
    var neutral := if p.Some? && p.value.betClaimed then "Claimed" else "No rewards";
    (if AmountOr0(c.prizes, id) > 0 then [PrizeClaimable] else [])
    + (if AmountOr0(c.bets, id) > 0 then [PayoutReady] else [])
    + (if AmountOr0(c.pending, id) > 0 then [WithdrawalReady] else [])
    + (if !HasClaimable(c, id) then [Neutral(neutral)] else [])
  }

  /** The three claim actions, each with the prefix of its processing key. */
  datatype Action = ClaimPrize | ClaimPayout | Withdraw

  function Actions(c: Claims, id: nat): (r: seq<Action>)
    ensures ClaimPrize in r <==> AmountOr0(c.prizes, id) > 0
    ensures ClaimPayout in r <==> AmountOr0(c.bets, id) > 0
    ensures Withdraw in r <==> AmountOr0(c.pending, id) > 0
  {
    (if AmountOr0(c.prizes, id) > 0 then [ClaimPrize] else [])
    + (if AmountOr0(c.bets, id) > 0 then [ClaimPayout] else [])
    + (if AmountOr0(c.pending, id) > 0 then [Withdraw] else [])
  }

  /** A listed battle shows the neutral badge exactly when it offers no
      action. */
  lemma NeutralIffNoAction(c: Claims, id: nat)
    ensures (exists t :: Neutral(t) in Badges(c, id)) <==> Actions(c, id) == []
  {
    var actions := Actions(c, id);
    if actions != [] {
      assert actions[0] in actions;
    } else if !HasClaimable(c, id) {
      var p := Get(c.participation, id);
      var neutral := if p.Some? && p.value.betClaimed then "Claimed" else "No rewards";
      assert Badges(c, id) == [Neutral(neutral)];
      assert Neutral(neutral) in Badges(c, id);
    }
  }

  function ActionPrefix(a: Action): string
  {
    match a
    case ClaimPrize => "prize"
    case ClaimPayout => "payout"
    case Withdraw => "withdraw"
  }

  /** `${kind}-${battleId}`, the value `processing` holds while a claim
      runs. */
  function ProcessingKey(a: Action, id: nat): (k: string)
    ensures |k| > |ActionPrefix(a)| + 1
    ensures k[|ActionPrefix(a)| + 1..] == Decimal.NatToString(id)
  {
    var k := ActionPrefix(a) + "-" + Decimal.NatToString(id);
    assert k[|ActionPrefix(a)| + 1..] == Decimal.NatToString(id);
    k
  }

  /** Two different actions' keys differ in one of their first two
      characters. */
  lemma KeysOfDifferentActions(a1: Action, id1: nat, a2: Action, id2: nat)
    requires a1 != a2
    ensures ProcessingKey(a1, id1) != ProcessingKey(a2, id2)
  {
    var k1 := ProcessingKey(a1, id1);
    var k2 := ProcessingKey(a2, id2);
    var p1 := ActionPrefix(a1);
    var p2 := ActionPrefix(a2);
    assert k1[0] == p1[0] && k1[1] == p1[1];
    assert k2[0] == p2[0] && k2[1] == p2[1];
  }

  /** Keys are distinct per action and battle id. */
  lemma ProcessingKeyInjective(a1: Action, id1: nat, a2: Action, id2: nat)
    ensures ProcessingKey(a1, id1) == ProcessingKey(a2, id2) <==> a1 == a2 && id1 == id2
  {
    if a1 != a2 {
      KeysOfDifferentActions(a1, id1, a2, id2);
    } else if id1 != id2 {
      Decimal.NatToStringInjective(id1, id2);
    }
  }

  /** The outcome of one claim handler: the toasts it raised and whether it
      sent the write. `processing` is back to `null` in every case. */
  datatype ClaimRun = ClaimRun(toasts: seq<Toast>, wrote: bool)

  function NoWalletText(a: Action): string
  {
    if a == Withdraw then "Connect your wallet to withdraw" else "Connect your wallet to claim"
  }

  function SuccessText(a: Action): string
  {
    match a
    case ClaimPrize => "Prize claim submitted"
    case ClaimPayout => "Payout claimed"
    case Withdraw => "Withdrawal submitted"
  }

  function FailureText(a: Action): string
  {
    match a
    case ClaimPrize => "Prize claim failed"
    case ClaimPayout => "Payout claim failed"
    case Withdraw => "Withdrawal failed"
  }

  /** `handleClaimPrize`, `handleClaimPayout` and `handleWithdraw`. */
  function RunClaim(a: Action, hasWallet: bool, write: Result<(), Thrown.Thrown>): (r: ClaimRun)
    ensures r.wrote <==> hasWallet
    ensures |r.toasts| == 1
  {
    if !hasWallet then ClaimRun([ToastError(NoWalletText(a))], false)
    else if write.Ok? then ClaimRun([ToastSuccess(SuccessText(a))], true)
    else ClaimRun([ToastError(FailureText(a))], true)
  }

  /** Exactly one toast per click: a success toast exactly when the wallet
      was there and the write went through. */
  lemma RunClaimToasts(a: Action, hasWallet: bool, write: Result<(), Thrown.Thrown>)
    ensures RunClaim(a, hasWallet, write).toasts[0].ToastSuccess? <==> hasWallet && write.Ok?
  {
  }
}
