/** `refreshClaimables` and the three total memos of
    frontend/src/hooks/useBattleChain.ts: for every settled battle, what the
    connected account may claim, and whether it took part. */
module Claims {
  import opened Wrappers
  import opened Thrown
  import opened Contracts
  import opened Record
  import Text

  /** The four per-battle reads (`getClaimablePrize`,
      `getPendingWithdrawal`, `getClaimableBetPayout`, `getBetForWinner`),
      which succeed or fail together as one `Promise.all`. */
  datatype ClaimReads = ClaimReads(prize: nat, pending: nat, betPayout: nat, betAmount: nat, betClaimed: bool)

  /** The per-battle reads: `claims(b)` for the four reads of battle `b`
      and the connected account, `agents(battle)` for `getBattleAgents` and
      `owner(battle, agent)` for `getAgentOwner`. */
  datatype Oracles = Oracles(
    claims: BattleSummary -> Result<ClaimReads, Thrown>,
    agents: string -> Result<seq<string>, Thrown>,
    owner: (string, string) -> Result<string, Thrown>)

  /** `{ asOwner, asBettor, betClaimed }`. */
  datatype Participation = Participation(asOwner: bool, asBettor: bool, betClaimed: bool)

  /** The four records the sweep replaces. */
  datatype Claims = Claims(
    prizes: Record<nat>,
    pending: Record<nat>,
    bets: Record<nat>,
    participation: Record<Participation>)

  const NoClaims: Claims := Claims([], [], [], [])

  /** `Promise.all` over the owner reads: every owner, or `None` when any
      read fails. */
  function Owners(battle: string, agents: seq<string>, owner: (string, string) -> Result<string, Thrown>): (r: Option<seq<string>>)
    ensures r.Some? <==> forall i :: 0 <= i < |agents| ==> owner(battle, agents[i]).Ok?
    ensures r.Some? ==> |r.value| == |agents|
                        && forall i :: 0 <= i < |agents| ==> r.value[i] == owner(battle, agents[i]).value
  {
    if agents == [] then Some([])
    else
      var rest := Owners(battle, agents[1..], owner);
      assert forall i :: 1 <= i < |agents| ==> agents[1..][i - 1] == agents[i];
      match owner(battle, agents[0])
      case Err(_) => None
      case Ok(o) => if rest.None? then None else Some([o] + rest.value)
  }

  /** `asOwner`: some agent of the battle is owned by the account, compared
      case-insensitively; false when the agent listing or any owner read
      fails. */
  predicate AsOwner(o: Oracles, battle: string, account: string)
  {
    o.agents(battle).Ok?
    && var owners := Owners(battle, o.agents(battle).value, o.owner);
       owners.Some? && exists i :: 0 <= i < |owners.value| && Text.Lower(owners.value[i]) == Text.Lower(account)
  }

  /** `asOwner` in terms of the reads themselves. */
  lemma AsOwnerIff(o: Oracles, battle: string, account: string)
    ensures AsOwner(o, battle, account) <==>
              o.agents(battle).Ok?
              && (forall i :: 0 <= i < |o.agents(battle).value| ==> o.owner(battle, o.agents(battle).value[i]).Ok?)
              && exists i :: 0 <= i < |o.agents(battle).value|
                             && Text.Lower(o.owner(battle, o.agents(battle).value[i]).value) == Text.Lower(account)
  {
  }

  /** The entry the sweep writes for one battle in each record. */
  function Prize(o: Oracles, b: BattleSummary): nat
  {
    if o.claims(b).Ok? then o.claims(b).value.prize else 0
  }

  function PendingWithdrawal(o: Oracles, b: BattleSummary): nat
  {
    if o.claims(b).Ok? then o.claims(b).value.pending else 0
  }

  function BetPayout(o: Oracles, b: BattleSummary): nat
  {
    if o.claims(b).Ok? then o.claims(b).value.betPayout else 0
  }

  function ParticipationOf(o: Oracles, account: string, b: BattleSummary): Option<Participation>
  {
    match o.claims(b)
    case Err(_) => None
    case Ok(c) => Some(Participation(AsOwner(o, b.address, account), c.betAmount > 0, c.betClaimed))
  }

  /** The battles whose state is `Resolved` or `Claimed`, in order. */
  function Settled(bs: seq<BattleSummary>): (r: seq<BattleSummary>)
    ensures forall b :: b in r <==> b in bs && IsSettled(b.state)
    ensures |r| <= |bs|
  {
    if bs == [] then []
    else
      var rest := Settled(bs[..|bs| - 1]);
      assert bs == bs[..|bs| - 1] + [bs[|bs| - 1]];
      if IsSettled(bs[|bs| - 1].state) then rest + [bs[|bs| - 1]] else rest
  }

  /** No two battles share an id. */
  predicate DistinctIds(bs: seq<BattleSummary>)
  {
    forall i, j :: 0 <= i < j < |bs| ==> bs[i].id != bs[j].id
  }

  lemma {:induction false} SettledDistinct(bs: seq<BattleSummary>)
    requires DistinctIds(bs)
    ensures DistinctIds(Settled(bs))
  {
    if bs != [] {
      var init := bs[..|bs| - 1];
      assert DistinctIds(init) by {
        forall i, j | 0 <= i < j < |init| ensures init[i].id != init[j].id {
          assert init[i] == bs[i] && init[j] == bs[j];
        }
      }
      SettledDistinct(init);
      var last := bs[|bs| - 1];
      forall x | x in Settled(init) ensures x.id != last.id {
        var i :| 0 <= i < |init| && init[i] == x;
        assert bs[i] == x;
      }
    }
  }

  /** The sweep over `bs` in order, writing `value(b)` under `b.id` when
      there is one. */
  function Fill<V>(bs: seq<BattleSummary>, value: BattleSummary -> Option<V>): (r: Record<V>)
    ensures forall k :: k in Keys(r) <==> exists i :: 0 <= i < |bs| && bs[i].id == k && value(bs[i]).Some?
    ensures UniqueKeys(r)
  {
    if bs == [] then []
    else
      var init := bs[..|bs| - 1];
      var last := bs[|bs| - 1];
      var prev := Fill(init, value);
      assert forall i :: 0 <= i < |init| ==> init[i] == bs[i];
      match value(last)
      case None => prev
      case Some(v) => Put(prev, last.id, v)
  }

  /** With distinct ids, every battle's entry is its own value. */
  lemma {:induction false} FillGet<V>(bs: seq<BattleSummary>, value: BattleSummary -> Option<V>, i: nat)
    requires DistinctIds(bs) && i < |bs|
    ensures Get(Fill(bs, value), bs[i].id) == value(bs[i])
  {
    var init := bs[..|bs| - 1];
    var last := bs[|bs| - 1];
    assert DistinctIds(init) by {
      forall m, n | 0 <= m < n < |init| ensures init[m].id != init[n].id {
        assert init[m] == bs[m] && init[n] == bs[n];
      }
    }
    if i < |bs| - 1 {
      FillGet(init, value, i);
      assert init[i] == bs[i];
    } else if value(last).None? {
      assert last.id !in Keys(Fill(init, value)) by {
        forall m | 0 <= m < |init| ensures init[m].id != last.id {
          assert init[m] == bs[m];
        }
      }
    }
  }

  /** The values added up in order, a missing value counting 0. */
  function SumOf(bs: seq<BattleSummary>, value: BattleSummary -> Option<nat>): nat
  {
    if bs == [] then 0 else SumOf(bs[..|bs| - 1], value) + value(bs[|bs| - 1]).GetOr(0)
  }

  /** With distinct ids, the record's total is the sum over the battles. */
  lemma {:induction false} FillSum(bs: seq<BattleSummary>, value: BattleSummary -> Option<nat>)
    requires DistinctIds(bs)
    ensures Sum(Fill(bs, value)) == SumOf(bs, value)
  {
    if bs != [] {
      var init := bs[..|bs| - 1];
      var last := bs[|bs| - 1];
      assert DistinctIds(init) by {
        forall m, n | 0 <= m < n < |init| ensures init[m].id != init[n].id {
          assert init[m] == bs[m] && init[n] == bs[n];
        }
      }
      FillSum(init, value);
      if value(last).Some? {
        assert last.id !in Keys(Fill(init, value)) by {
          forall m | 0 <= m < |init| ensures init[m].id != last.id {
            assert init[m] == bs[m];
          }
        }
        SumPutNew(Fill(init, value), last.id, value(last).value);
      }
    }
  }

  /** `refreshClaimables`: without a client or a connected account every
      record is emptied; otherwise the settled battles are swept, a battle
      whose claim reads fail getting 0 in the three amounts and no
      participation entry. */
  function RefreshClaimables(hasClient: bool, connected: bool, account: string,
                             battles: seq<BattleSummary>, o: Oracles): (r: Claims)
    ensures !hasClient || !connected || account == [] ==> r == NoClaims
  {
    if !hasClient || !connected || account == [] then NoClaims
    else
      var settled := Settled(battles);
      Claims(Fill(settled, b => Some(Prize(o, b))),
             Fill(settled, b => Some(PendingWithdrawal(o, b))),
             Fill(settled, b => Some(BetPayout(o, b))),
             Fill(settled, b => ParticipationOf(o, account, b)))
  }

  /** The sweep over the settled battles writes under exactly the ids of
      the settled battles that have a value. */
  lemma FillSettledKeys<V>(battles: seq<BattleSummary>, value: BattleSummary -> Option<V>, k: nat)
    ensures k in Keys(Fill(Settled(battles), value)) <==>
              exists b :: b in battles && IsSettled(b.state) && b.id == k && value(b).Some?
  {
    var s := Settled(battles);
    if exists b :: b in battles && IsSettled(b.state) && b.id == k && value(b).Some? {
      var b :| b in battles && IsSettled(b.state) && b.id == k && value(b).Some?;
      var i :| 0 <= i < |s| && s[i] == b;
    }
  }

  /** Only settled battles get entries: each of them has one in every
      amount record, and a participation entry exactly when its claim reads
      succeeded. */
  lemma ClaimsKeys(account: string, battles: seq<BattleSummary>, o: Oracles, k: nat)
    requires account != []
    ensures var r := RefreshClaimables(true, true, account, battles, o);
            var settledWith := exists b :: b in battles && IsSettled(b.state) && b.id == k;
            (k in Keys(r.prizes) <==> settledWith)
            && (k in Keys(r.pending) <==> settledWith)
            && (k in Keys(r.bets) <==> settledWith)
            && (k in Keys(r.participation) <==>
                  exists b :: b in battles && IsSettled(b.state) && b.id == k && o.claims(b).Ok?)
  {
    FillSettledKeys(battles, b => Some(Prize(o, b)), k);
    FillSettledKeys(battles, b => Some(PendingWithdrawal(o, b)), k);
    FillSettledKeys(battles, b => Some(BetPayout(o, b)), k);
    FillSettledKeys(battles, b => ParticipationOf(o, account, b), k);
  }

  /** Per-battle isolation: with distinct ids, a settled battle's entries
      depend on its own reads alone; a failed read gives zeros and no
      participation, and `asBettor` is a non-zero bet on the winner. */
  lemma ClaimsEntry(account: string, battles: seq<BattleSummary>, o: Oracles, b: BattleSummary)
    requires account != [] && DistinctIds(battles) && b in battles && IsSettled(b.state)
    ensures var r := RefreshClaimables(true, true, account, battles, o);
            Get(r.prizes, b.id) == Some(Prize(o, b))
            && Get(r.pending, b.id) == Some(PendingWithdrawal(o, b))
            && Get(r.bets, b.id) == Some(BetPayout(o, b))
            && (o.claims(b).Err? ==>
                  Prize(o, b) == 0 && PendingWithdrawal(o, b) == 0 && BetPayout(o, b) == 0
                  && Get(r.participation, b.id).None?)
            && (o.claims(b).Ok? ==>
                  Get(r.participation, b.id) ==
                    Some(Participation(AsOwner(o, b.address, account),
                                       o.claims(b).value.betAmount > 0, o.claims(b).value.betClaimed)))
  {
    var s := Settled(battles);
    SettledDistinct(battles);
    var i :| 0 <= i < |s| && s[i] == b;
    FillGet(s, b => Some(Prize(o, b)), i);
    FillGet(s, b => Some(PendingWithdrawal(o, b)), i);
    FillGet(s, b => Some(BetPayout(o, b)), i);
    FillGet(s, b => ParticipationOf(o, account, b), i);
  }

  /** `claimablePrizeTotal`, `pendingWithdrawalTotal` and
      `claimableBetTotal`: each record's values added up. */
  function PrizeTotal(c: Claims): nat { Sum(c.prizes) }
  function PendingTotal(c: Claims): nat { Sum(c.pending) }
  function BetTotal(c: Claims): nat { Sum(c.bets) }

  /** The three totals stay separate: with distinct ids, each is the sum of
      its own amount over the settled battles, and all are 0 when the
      records were reset. */
  lemma TotalsSeparate(hasClient: bool, connected: bool, account: string, battles: seq<BattleSummary>, o: Oracles)
    requires DistinctIds(battles)
    ensures var r := RefreshClaimables(hasClient, connected, account, battles, o);
            var reset := !hasClient || !connected || account == [];
            var s := Settled(battles);
            PrizeTotal(r) == (if reset then 0 else SumOf(s, b => Some(Prize(o, b))))
            && PendingTotal(r) == (if reset then 0 else SumOf(s, b => Some(PendingWithdrawal(o, b))))
            && BetTotal(r) == (if reset then 0 else SumOf(s, b => Some(BetPayout(o, b))))
  {
    var s := Settled(battles);
    SettledDistinct(battles);
    FillSum(s, b => Some(Prize(o, b)));
    FillSum(s, b => Some(PendingWithdrawal(o, b)));
    FillSum(s, b => Some(BetPayout(o, b)));
  }
}
