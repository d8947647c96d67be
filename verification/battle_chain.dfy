/** `fetchBattles` of frontend/src/hooks/useBattleChain.ts: the battle ids
    to show, the caller's own battle ids read page by page, and the decoding
    of each battle's on-chain reads into a `BattleSummary`. */
module BattleChain {
  import opened Wrappers
  import opened Thrown
  import opened Contracts

  /** `battleStateLabels[index] ?? 'Pending'`: the contract's state index,
      with anything outside 0..4 read as pending. */
  function StateOf(index: int): (s: BattleState)
    ensures !(0 <= index < 5) ==> s == Pending
  {
    if index == 0 then Pending
    else if index == 1 then Active
    else if index == 2 then Executing
    else if index == 3 then Resolved
    else if index == 4 then Claimed
    else Pending
  }

  /** The index the contract's `BattleState` enum gives each state. */
  function StateIndex(s: BattleState): (i: nat)
    ensures i < 5
  {
    match s
    case Pending => 0
    case Active => 1
    case Executing => 2
    case Resolved => 3
    case Claimed => 4
  }

  /** Decoding inverts the contract's encoding, and every state has exactly
      one index. */
  lemma StateOfIndex(s: BattleState, i: int)
    ensures StateOf(StateIndex(s)) == s
    ensures 0 <= i < 5 ==> StateIndex(StateOf(i)) == i
  {
  }

  /** viem's `zeroAddress`. */
  const ZeroAddress: string := "0x0000000000000000000000000000000000000000"

  /** The winner as shown: the zero address means no winner yet. */
  function WinnerOf(winner: string): (r: Option<string>)
    ensures r.None? <==> winner == ZeroAddress
    ensures r.Some? ==> r.value == winner
  {
    if winner == ZeroAddress then None else Some(winner)
  }

  /** What the five reads of one battle return, after `battles(id)` gave its
      address. */
  datatype BattleReads = BattleReads(
    address: string, state: int, challenge: string, entryFee: nat, deadline: nat, winner: string)

  /** `formatEther` and `new Date(deadline * 1000).toLocaleString()`,
      which only render. */
  datatype Display = Display(ether: nat -> string, date: nat -> string)

  function Decode(id: nat, got: BattleReads, display: Display): (b: BattleSummary)
    ensures b.id == id && b.address == got.address && b.challenge == got.challenge
    ensures b.state == StateOf(got.state)
    ensures b.winner.None? <==> got.winner == ZeroAddress
  {
    BattleSummary(id, got.address, StateOf(got.state), got.challenge,
                  display.ether(got.entryFee), display.date(got.deadline), WinnerOf(got.winner))
  }

  /** Every read `fetchBattles` makes, each an outcome: `battle(id)` covers
      `battles(id)` and the five reads after it, and `creatorPage(offset)`
      is `getCreatorBattles(account, offset, 25)`. */
  datatype Reads = Reads(
    allBattleIds: Result<seq<nat>, Thrown>,
    nextBattleId: Result<nat, Thrown>,
    creatorCount: Result<nat, Thrown>,
    creatorPage: nat -> Result<seq<nat>, Thrown>,
    creatorFallback: Result<seq<nat>, Thrown>,
    battle: nat -> Result<BattleReads, Thrown>)

  /** `0n, 1n, …, n - 1n`. */
  function Range(n: nat): (r: seq<nat>)
    ensures |r| == n && forall i :: 0 <= i < n ==> r[i] == i
  {
    seq(n, i requires 0 <= i < n => i)
  }

  /** The longest array JavaScript can make: `Array.from({ length })`
      throws a RangeError for anything longer. */
  const MaxArrayLength: nat := 0xFFFF_FFFF

  /** The ids to show: `getAllBattleIds` when it answers with some ids,
      else every id below `nextBattleId`, else none. A `nextBattleId` too
      large for an array makes `Array.from` throw, and the catch leaves the
      list empty. */
  function BattleIds(chain: Reads): (ids: seq<nat>)
  {
    var listed := if chain.allBattleIds.Ok? then chain.allBattleIds.value else [];
    if chain.allBattleIds.Ok? && listed != [] then listed
    else if chain.nextBattleId.Ok? && chain.nextBattleId.value <= MaxArrayLength then Range(chain.nextBattleId.value)
    else []
  }

  /** The id fallback: a failing or empty `getAllBattleIds` gives the ids
      `0 .. nextBattleId - 1` in order, or none when that read fails too or
      its answer is too large for an array. */
  lemma BattleIdsFallback(chain: Reads)
    ensures chain.allBattleIds.Ok? && chain.allBattleIds.value != [] ==> BattleIds(chain) == chain.allBattleIds.value
    ensures (chain.allBattleIds.Err? || chain.allBattleIds.value == []) && chain.nextBattleId.Ok?
            && chain.nextBattleId.value <= MaxArrayLength ==>
              |BattleIds(chain)| == chain.nextBattleId.value
              && forall i :: 0 <= i < |BattleIds(chain)| ==> BattleIds(chain)[i] == i
    ensures (chain.allBattleIds.Err? || chain.allBattleIds.value == [])
            && (chain.nextBattleId.Err? || chain.nextBattleId.value > MaxArrayLength) ==>
              BattleIds(chain) == []
  {
  }

  const PageSize: nat := 25

  /** The page offsets below `count`: `0, 25, 50, …`. */
  function Offsets(count: nat): (r: seq<nat>)
    ensures |r| == (count + PageSize - 1) / PageSize
    ensures forall i :: 0 <= i < |r| ==> r[i] == PageSize * i && r[i] < count
  {
    var n := (count + PageSize - 1) / PageSize;
    seq(n, i requires 0 <= i < n => PageSize * i)
  }

  /** The loop over pages from `offset`: the ids of the pages read before
      the first failing one, and whether none failed. */
  function Pages(count: nat, page: nat -> Result<seq<nat>, Thrown>, offset: nat): (r: (seq<nat>, bool))
    decreases count - offset
  {
    if offset >= count then ([], true)
    else
      match page(offset)
      case Err(_) => ([], false)
      case Ok(ids) =>
        var (rest, complete) := Pages(count, page, offset + PageSize);
        (ids + rest, complete)
  }

  /** The pages laid end to end. */
  function Flatten(page: nat -> Result<seq<nat>, Thrown>, offsets: seq<nat>): seq<nat>
    requires forall i :: 0 <= i < |offsets| ==> page(offsets[i]).Ok?
  {
    if offsets == [] then [] else page(offsets[0]).value + Flatten(page, offsets[1..])
  }

  lemma {:induction false} PagesFrom(count: nat, page: nat -> Result<seq<nat>, Thrown>, m: nat, j: nat)
    requires m <= j <= |Offsets(count)|
    requires forall i :: m <= i < j ==> page(Offsets(count)[i]).Ok?
    requires j == |Offsets(count)| || page(Offsets(count)[j]).Err?
    ensures Pages(count, page, PageSize * m) == (Flatten(page, Offsets(count)[m..j]), j == |Offsets(count)|)
    decreases j - m
  {
    var offs := Offsets(count);
    if m == j {
      if j < |offs| {
        assert offs[j] == PageSize * m;
      }
    } else {
      assert offs[m] == PageSize * m;
      PagesFrom(count, page, m + 1, j);
      assert offs[m..j][1..] == offs[m + 1..j];
      assert PageSize * m + PageSize == PageSize * (m + 1);
    }
  }

  /** Creator pages are read at offsets 0, 25, 50, … below the count and
      joined in order; a failing page ends the loop and keeps the pages
      read before it. */
  lemma PagesRead(count: nat, page: nat -> Result<seq<nat>, Thrown>, j: nat)
    requires j <= |Offsets(count)|
    requires forall i :: 0 <= i < j ==> page(Offsets(count)[i]).Ok?
    requires j == |Offsets(count)| || page(Offsets(count)[j]).Err?
    ensures Pages(count, page, 0) == (Flatten(page, Offsets(count)[..j]), j == |Offsets(count)|)
  {
    PagesFrom(count, page, 0, j);
    assert Offsets(count)[0..j] == Offsets(count)[..j];
  }

  /** The caller's battle ids: none when disconnected; the paged ids, or,
      when those come to nothing, the single-call fallback. */
  function CreatorIds(connected: bool, account: string, chain: Reads): (r: seq<nat>)
    ensures !connected || account == [] ==> r == []
  {
    if !connected || account == [] then []
    else
      var paged := if chain.creatorCount.Ok? then Pages(chain.creatorCount.value, chain.creatorPage, 0).0 else [];
      if paged != [] then paged
      else if chain.creatorFallback.Ok? then chain.creatorFallback.value
      else []
  }

  /** The fallback is consulted only when paging produced nothing, and then
      decides the result. */
  lemma CreatorFallback(account: string, chain: Reads)
    requires account != []
    ensures var paged := if chain.creatorCount.Ok? then Pages(chain.creatorCount.value, chain.creatorPage, 0).0 else [];
            (paged != [] ==> CreatorIds(true, account, chain) == paged)
            && (paged == [] ==> CreatorIds(true, account, chain) == (if chain.creatorFallback.Ok? then chain.creatorFallback.value else []))
  {
  }

  /** `Promise.all` over the ids: every battle decoded in id order, or
      `None` when any read fails. */
  function DecodeAll(ids: seq<nat>, battle: nat -> Result<BattleReads, Thrown>, display: Display): (r: Option<seq<BattleSummary>>)
    ensures r.Some? <==> forall i :: 0 <= i < |ids| ==> battle(ids[i]).Ok?
    ensures r.Some? ==> |r.value| == |ids|
                        && forall i :: 0 <= i < |ids| ==> r.value[i] == Decode(ids[i], battle(ids[i]).value, display)
  {
    if ids == [] then Some([])
    else
      match battle(ids[0])
      case Err(_) => None
      case Ok(got) =>
        var rest := DecodeAll(ids[1..], battle, display);
        assert forall i :: 1 <= i < |ids| ==> ids[1..][i - 1] == ids[i];
        if rest.None? then None else Some([Decode(ids[0], got, display)] + rest.value)
  }

  /** What one `fetchBattles` leaves behind: the battle list (`None` when
      the fetch failed and the previous list stays) and the creator ids. */
  datatype Fetch = Fetch(battles: Option<seq<BattleSummary>>, creatorIds: seq<nat>)

  function FetchBattles(hasClient: bool, connected: bool, account: string, chain: Reads, display: Display): (r: Fetch)
    ensures !hasClient ==> r == Fetch(Some([]), [])
  {
    if !hasClient then Fetch(Some([]), [])
    else Fetch(DecodeAll(BattleIds(chain), chain.battle, display), CreatorIds(connected, account, chain))
  }

  /** A successful fetch lists one summary per id, in id order, each with
      the state and winner its reads give; the creator ids are set even when
      the battle reads fail. */
  lemma FetchBattlesShape(connected: bool, account: string, chain: Reads, display: Display)
    ensures var r := FetchBattles(true, connected, account, chain, display);
            var ids := BattleIds(chain);
            r.creatorIds == CreatorIds(connected, account, chain)
            && (r.battles.Some? <==> forall i :: 0 <= i < |ids| ==> chain.battle(ids[i]).Ok?)
            && (r.battles.Some? ==>
                  |r.battles.value| == |ids|
                  && forall i :: 0 <= i < |ids| ==>
                       r.battles.value[i].id == ids[i]
                       && r.battles.value[i].state == StateOf(chain.battle(ids[i]).value.state)
                       && (r.battles.value[i].winner.None? <==> chain.battle(ids[i]).value.winner == ZeroAddress))
  {
  }
}
