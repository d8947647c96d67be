/** frontend/src/components/SpectatorView.tsx: the winners leaderboard, the
    agent summaries of a selected battle, the list of battles open for
    betting and the gate in front of `placeBet`. */
module Spectator {
  import opened Wrappers
  import opened Thrown
  import opened Contracts
  import opened Feedback
  import Decimal
  import WalletErrors

  // ---------------------------------------------------------------------
  // leaderboard

  /** `battle.winner` is truthy. */
  predicate HasWinner(b: BattleSummary)
  {
    b.winner.Some? && b.winner.value != []
  }

  /** The winners of the battles that have one, in battle order. */
  function Winners(bs: seq<BattleSummary>): (ws: seq<string>)
    ensures |ws| <= |bs|
    ensures forall w :: w in ws <==> exists b :: b in bs && HasWinner(b) && b.winner.value == w
  {
    if bs == [] then []
    else
      var init := bs[..|bs| - 1];
      var last := bs[|bs| - 1];
      var rest := Winners(init);
      assert bs == init + [last];
      if HasWinner(last) then rest + [last.winner.value] else rest
  }

  /** `totalResolved`: the battles with a winner. */
  function TotalResolved(bs: seq<BattleSummary>): nat
  {
    if bs == [] then 0
    else TotalResolved(bs[..|bs| - 1]) + (if HasWinner(bs[|bs| - 1]) then 1 else 0)
  }

  lemma {:induction false} TotalResolvedIsWinners(bs: seq<BattleSummary>)
    ensures TotalResolved(bs) == |Winners(bs)|
  {
    if bs != [] {
      TotalResolvedIsWinners(bs[..|bs| - 1]);
    }
  }

  /** How many times `a` occurs in `ws`. */
  function Count(ws: seq<string>, a: string): nat
  {
    if ws == [] then 0 else Count(ws[..|ws| - 1], a) + (if ws[|ws| - 1] == a then 1 else 0)
  }

  /** One leaderboard row; `totalExtracted` and `winRate` are left out. */
  datatype Row = Row(address: string, wins: nat)

  function WinsOf(rows: seq<Row>, a: string): nat
  {
    if rows == [] then 0 else if rows[0].address == a then rows[0].wins else WinsOf(rows[1..], a)
  }

  predicate Listed(rows: seq<Row>, a: string)
  {
    exists i :: 0 <= i < |rows| && rows[i].address == a
  }

  /** The rows of `stats`: one per address, each with at least one win. */
  predicate WellFormed(rows: seq<Row>)
  {
    (forall i, j :: 0 <= i < j < |rows| ==> rows[i].address != rows[j].address)
    && forall i :: 0 <= i < |rows| ==> rows[i].wins > 0
  }

  function SumWins(rows: seq<Row>): nat
  {
    if rows == [] then 0 else rows[0].wins + SumWins(rows[1..])
  }

  /** `stats.set(winner, { wins: current.wins + 1, … })`: a new address is
      appended, a known one counts one more win in place. */
  function Bump(rows: seq<Row>, a: string): (r: seq<Row>)
    ensures forall b :: WinsOf(r, b) == WinsOf(rows, b) + (if b == a then 1 else 0)
    ensures forall b :: Listed(r, b) <==> Listed(rows, b) || b == a
    ensures SumWins(r) == SumWins(rows) + 1
    ensures WellFormed(rows) ==> WellFormed(r)
  {
    if rows == [] then
      assert [Row(a, 1)][0].address == a;
      [Row(a, 1)]
    else if rows[0].address == a then
      var r := [Row(a, rows[0].wins + 1)] + rows[1..];
      assert r[1..] == rows[1..];
      assert forall b :: Listed(r, b) <==> Listed(rows, b) by {
        forall b ensures Listed(r, b) <==> Listed(rows, b) {
          if Listed(rows, b) {
            var i :| 0 <= i < |rows| && rows[i].address == b;
            assert r[i].address == b;
          }
          if Listed(r, b) {
            var i :| 0 <= i < |r| && r[i].address == b;
            assert rows[i].address == b;
          }
        }
      }
      r
    else
      var rest := Bump(rows[1..], a);
      var r := [rows[0]] + rest;
      assert r[1..] == rest;
      assert forall b :: Listed(r, b) <==> Listed(rows, b) || b == a by {
        forall b ensures Listed(r, b) <==> Listed(rows, b) || b == a {
          if Listed(rows, b) {
            var i :| 0 <= i < |rows| && rows[i].address == b;
            if i == 0 { assert r[0].address == b; } else { assert Listed(rows[1..], b) by { assert rows[1..][i - 1].address == b; } }
          }
          if Listed(rest, b) {
            var i :| 0 <= i < |rest| && rest[i].address == b;
            assert r[i + 1].address == b;
          }
          if Listed(r, b) {
            var i :| 0 <= i < |r| && r[i].address == b;
            if i == 0 { assert rows[0].address == b; } else { assert rest[i - 1].address == b; }
          }
          if Listed(rows[1..], b) {
            var i :| 0 <= i < |rows[1..]| && rows[1..][i].address == b;
            assert rows[i + 1].address == b;
          }
        }
      }
      assert WellFormed(rows) ==> WellFormed(r) by {
        if WellFormed(rows) {
          assert WellFormed(rows[1..]) by {
            forall i, j | 0 <= i < j < |rows[1..]| ensures rows[1..][i].address != rows[1..][j].address {
              assert rows[1..][i] == rows[i + 1] && rows[1..][j] == rows[j + 1];
            }
          }
          assert !Listed(rows[1..], rows[0].address) by {
            forall i | 0 <= i < |rows[1..]| ensures rows[1..][i].address != rows[0].address {
              assert rows[1..][i] == rows[i + 1];
            }
          }
          forall j | 0 < j < |r| ensures r[0].address != r[j].address {
            assert Listed(rest, r[j].address) by { assert rest[j - 1] == r[j]; }
          }
        }
      }
      r
  }

  /** `stats`, in insertion order: each winner once, with its number of
      wins. */
  function Tally(ws: seq<string>): (rows: seq<Row>)
    ensures WellFormed(rows)
    ensures forall a :: WinsOf(rows, a) == Count(ws, a)
    ensures forall a :: Listed(rows, a) <==> a in ws
    ensures SumWins(rows) == |ws|
  {
    if ws == [] then []
    else
      var init := ws[..|ws| - 1];
      assert ws == init + [ws[|ws| - 1]];
      Bump(Tally(init), ws[|ws| - 1])
  }

  /** In well-formed rows an address's lookup is its own row's count. */
  lemma {:induction false} WinsOfRow(rows: seq<Row>, i: nat)
    requires WellFormed(rows) && i < |rows|
    ensures WinsOf(rows, rows[i].address) == rows[i].wins
  {
    if i > 0 {
      assert WellFormed(rows[1..]) by {
        forall m, n | 0 <= m < n < |rows[1..]| ensures rows[1..][m].address != rows[1..][n].address {
          assert rows[1..][m] == rows[m + 1] && rows[1..][n] == rows[n + 1];
        }
      }
      WinsOfRow(rows[1..], i - 1);
      assert rows[0].address != rows[i].address;
    }
  }

  /** Descending by wins. */
  predicate SortedByWins(rows: seq<Row>)
  {
    forall i, j :: 0 <= i < j < |rows| ==> rows[i].wins >= rows[j].wins
  }

  /** Inserts `x` after every row with at least as many wins, so that rows
      with equal wins keep their order. */
  function Insert(x: Row, s: seq<Row>): (r: seq<Row>)
    requires SortedByWins(s)
    ensures |r| == |s| + 1
    ensures forall j :: 0 <= j < |r| ==> r[j] == x || r[j] in s
    ensures SortedByWins(r)
    ensures multiset(r) == multiset(s) + multiset{x}
  {
    if s == [] then [x]
    else if s[0].wins >= x.wins then
      var rest := Insert(x, s[1..]);
      assert s == [s[0]] + s[1..];
      assert forall j :: 0 <= j < |rest| ==> rest[j].wins <= s[0].wins by {
        forall j | 0 <= j < |rest| ensures rest[j].wins <= s[0].wins {
          if rest[j] != x {
            var k :| 0 <= k < |s[1..]| && s[1..][k] == rest[j];
            assert s[k + 1] == rest[j];
          }
        }
      }
      var r := [s[0]] + rest;
      assert forall j :: 0 < j < |r| ==> r[j] == rest[j - 1];
      r
    else
      [x] + s
  }

  /** `.sort((a, b) => b.wins - a.wins)`, which is stable. */
  function SortRows(rows: seq<Row>): (r: seq<Row>)
    ensures |r| == |rows|
    ensures SortedByWins(r)
    ensures multiset(r) == multiset(rows)
  {
    if rows == [] then []
    else
      var init := rows[..|rows| - 1];
      assert rows == init + [rows[|rows| - 1]];
      Insert(rows[|rows| - 1], SortRows(init))
  }

  const MaxRows: nat := 5

  /** `leaderboard`: the five rows with most wins and `totalResolved`. */
  datatype Leaderboard = Leaderboard(rows: seq<Row>, totalResolved: nat)

  function LeaderboardOf(bs: seq<BattleSummary>): (l: Leaderboard)
    ensures |l.rows| <= MaxRows
    ensures SortedByWins(l.rows)
  {
    var sorted := SortRows(Tally(Winners(bs)));
    var n := if |sorted| < MaxRows then |sorted| else MaxRows;
    Leaderboard(sorted[..n], TotalResolved(bs))
  }

  /** Each row is a winner with the number of battles it won, and the
      wins, before keeping five, add up to `totalResolved`. */
  lemma LeaderboardCounts(bs: seq<BattleSummary>)
    ensures var l := LeaderboardOf(bs);
            (forall i :: 0 <= i < |l.rows| ==>
               l.rows[i].wins == Count(Winners(bs), l.rows[i].address) && l.rows[i].wins > 0
               && l.rows[i].address in Winners(bs))
            && SumWins(Tally(Winners(bs))) == l.totalResolved
  {
    var ws := Winners(bs);
    var t := Tally(ws);
    var sorted := SortRows(t);
    var l := LeaderboardOf(bs);
    forall i | 0 <= i < |l.rows|
      ensures l.rows[i].wins == Count(ws, l.rows[i].address) && l.rows[i].wins > 0
              && l.rows[i].address in ws
    {
      assert l.rows[i] == sorted[i];
      assert sorted[i] in multiset(t);
      var k :| 0 <= k < |t| && t[k] == sorted[i];
      WinsOfRow(t, k);
      assert Listed(t, t[k].address);
    }
    TotalResolvedIsWinners(bs);
  }

  lemma SortRowsMember(rows: seq<Row>, y: Row)
    ensures y in SortRows(rows) <==> y in rows
  {
    assert y in SortRows(rows) <==> y in multiset(SortRows(rows));
    assert y in rows <==> y in multiset(rows);
  }

  /** The first `n` rows of the sorted rows: a row of `t` is among them or
      has no more wins than any of them. */
  lemma TopOfSorted(t: seq<Row>, n: nat, k: nat)
    requires k < |t| && n <= |t|
    ensures var top := SortRows(t)[..n];
            Listed(top, t[k].address) || forall i :: 0 <= i < n ==> t[k].wins <= top[i].wins
  {
    var sorted := SortRows(t);
    var top := sorted[..n];
    SortRowsMember(t, t[k]);
    var m :| 0 <= m < |sorted| && sorted[m] == t[k];
    if m < n {
      assert top[m].address == t[k].address;
    } else {
      forall i | 0 <= i < n ensures t[k].wins <= top[i].wins {
        assert top[i] == sorted[i];
      }
    }
  }

  /** Every winner is on the board, or has no more wins than any row on
      it. */
  lemma LeaderboardTop(bs: seq<BattleSummary>, a: string)
    requires a in Winners(bs)
    ensures var l := LeaderboardOf(bs);
            Listed(l.rows, a) || forall i :: 0 <= i < |l.rows| ==> Count(Winners(bs), a) <= l.rows[i].wins
  {
    var ws := Winners(bs);
    var t := Tally(ws);
    assert Listed(t, a);
    var k :| 0 <= k < |t| && t[k].address == a;
    WinsOfRow(t, k);
    var n := if |t| < MaxRows then |t| else MaxRows;
    TopOfSorted(t, n, k);
    assert LeaderboardOf(bs).rows == SortRows(t)[..n];
  }

  // ---------------------------------------------------------------------
  // agents and battles

  /** `fetchAgents`: agent `i` is named `Agent i+1`, in on-chain order;
      `fetchBattleAgents` answers `[]` when its read fails. */
  function Summaries(agents: seq<string>): (r: seq<AgentSummary>)
    ensures |r| == |agents|
    ensures forall i :: 0 <= i < |r| ==>
              r[i].address == agents[i] && r[i].index == i
              && r[i].name == "Agent " + Decimal.NatToString(i + 1)
  {
    seq(|agents|, i requires 0 <= i < |agents| => AgentSummary(agents[i], "Agent " + Decimal.NatToString(i + 1), i))
  }

  /** Every agent of a battle gets a name of its own. */
  lemma SummaryNamesDistinct(agents: seq<string>, i: nat, j: nat)
    requires i < j < |agents|
    ensures Summaries(agents)[i].name != Summaries(agents)[j].name
  {
    var r := Summaries(agents);
    var p := "Agent ";
    Decimal.NatToStringInjective(i + 1, j + 1);
    assert r[i].name[|p|..] == Decimal.NatToString(i + 1);
    assert r[j].name[|p|..] == Decimal.NatToString(j + 1);
  }

  function LoadAgents(read: Result<seq<string>, Thrown>): (r: seq<AgentSummary>)
    ensures read.Err? ==> r == []
    ensures read.Ok? ==> |r| == |read.value|
  {
    Summaries(if read.Ok? then read.value else [])
  }

  /** The battles open for betting: those in state `Active`, in order. */
  function ActiveBattles(bs: seq<BattleSummary>): (r: seq<BattleSummary>)
    ensures forall b :: b in r <==> b in bs && b.state == Active
    ensures |r| <= |bs|
  {
    if bs == [] then []
    else
      var rest := ActiveBattles(bs[1..]);
      assert bs == [bs[0]] + bs[1..];
      if bs[0].state == Active then [bs[0]] + rest else rest
  }

  // ---------------------------------------------------------------------
  // handlePlaceBet

  /** What `handlePlaceBet` reads. `expectedChainId` is `Some` exactly when
      the configured id is finite and positive; `chainId` is the detected
      id, `None` or 0 when none is detected. */
  datatype BetInputs = BetInputs(
    selectedBattle: Option<BattleSummary>,
    selectedAgent: Option<nat>,
    betAmount: string,
    hasWalletClient: bool,
    chainId: Option<int>,
    expectedChainId: Option<int>,
    feeRead: Result<(), Thrown>,
    write: Result<(), Thrown>)

  /** The toasts raised and whether `placeBet` was called. */
  datatype BetRun = BetRun(toasts: seq<Toast>, wrote: bool)

  const ConnectToBet: string := "Connect your wallet to place a bet"
  const UndetectedChain: string := "Unable to detect wallet chain. Reconnect your wallet."

  predicate ChainDetected(chainId: Option<int>)
  {
    chainId.Some? && chainId.value != 0
  }

  function HandlePlaceBet(inp: BetInputs): (r: BetRun)
    ensures |r.toasts| <= 1
  {
    if inp.selectedBattle.None? || inp.selectedAgent.None? || inp.betAmount == [] then BetRun([], false)
    else if !inp.hasWalletClient then BetRun([ToastError(ConnectToBet)], false)
    else if !ChainDetected(inp.chainId) then BetRun([ToastError(UndetectedChain)], false)
    else if inp.expectedChainId.Some? && inp.chainId.value != inp.expectedChainId.value then
      BetRun([ToastError("Wrong network. Switch to chain " + Decimal.IntToString(inp.expectedChainId.value) + ".")], false)
    else
      match inp.feeRead
      case Err(e) => BetRun([ToastError(WalletErrors.FormatWalletError(e))], false)
      case Ok(_) =>
        match inp.write
        case Err(e) => BetRun([ToastError(WalletErrors.FormatWalletError(e))], true)
        case Ok(_) => BetRun([ToastSuccess("Bet placed successfully")], true)
  }

  /** The bet gate: a click without a battle, an agent or an amount does
      nothing at all; `placeBet` is reached exactly when a wallet is there,
      a chain is detected, it matches the expected id when one is
      configured, and the fee read succeeded. */
  lemma BetGate(inp: BetInputs)
    ensures inp.selectedBattle.None? || inp.selectedAgent.None? || inp.betAmount == [] ==>
              HandlePlaceBet(inp) == BetRun([], false)
    ensures HandlePlaceBet(inp).wrote <==>
              inp.selectedBattle.Some? && inp.selectedAgent.Some? && inp.betAmount != []
              && inp.hasWalletClient && ChainDetected(inp.chainId)
              && (inp.expectedChainId.None? || inp.chainId.value == inp.expectedChainId.value)
              && inp.feeRead.Ok?
  {
  }

  /** Without a configured chain id, any detected chain passes the gate. */
  lemma BetGateWithoutExpectedChain(inp: BetInputs)
    requires inp.expectedChainId.None? && inp.selectedBattle.Some? && inp.selectedAgent.Some?
    requires inp.betAmount != [] && inp.hasWalletClient && ChainDetected(inp.chainId) && inp.feeRead.Ok?
    ensures HandlePlaceBet(inp).wrote
    ensures HandlePlaceBet(inp).toasts[0].ToastSuccess? <==> inp.write.Ok?
  {
  }
}
