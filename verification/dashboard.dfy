/** frontend/src/components/Dashboard.tsx: the saved-agent selector, the
    gate in front of `registerAgent`, the battle counters and the buttons
    each battle offers. */
module Dashboard {
  import opened Wrappers
  import opened Thrown
  import opened Contracts
  import opened Feedback
  import opened Record
  import Decimal
  import WalletErrors
  import Spectator

  /** The effect on `[savedAgents, selectedAgent]`: a selection that is not
      one of the saved agents, compared exactly, is cleared. */
  function ReconcileSelection(selected: string, saved: seq<string>): (r: string)
    ensures r == [] || r in saved
    ensures selected == [] || selected in saved ==> r == selected
  {
    if selected != [] && selected !in saved then [] else selected
  }

  /** Running the effect again changes nothing. */
  lemma ReconcileSelectionStable(selected: string, saved: seq<string>)
    ensures ReconcileSelection(ReconcileSelection(selected, saved), saved) == ReconcileSelection(selected, saved)
  {
  }

  /** The effect on `[account, isConnected, publicClient]` followed by
      `refreshAgents`: the list is emptied without a connection, an account
      or a client; otherwise it becomes the agents `getAgentsByOwner`
      returns, and stays as it was when that read fails. */
  function SavedAgents(isConnected: bool, account: string, hasPublicClient: bool,
                       refresh: Result<seq<string>, Thrown>, current: seq<string>): (r: seq<string>)
    ensures !isConnected || account == [] || !hasPublicClient ==> r == []
    ensures isConnected && account != [] && hasPublicClient ==>
              r == (if refresh.Ok? then refresh.value else current)
  {
    if !isConnected || account == [] || !hasPublicClient then []
    else if refresh.Ok? then refresh.value
    else current
  }

  // ---------------------------------------------------------------------
  // handleAssignAgent

  /** What `handleAssignAgent` reads. `expectedChainId` is
      `Number(NEXT_PUBLIC_CHAIN_ID)`, `None` for `NaN` (an infinite id is
      not represented); `chainId` is the
      detected id, `None` or 0 when none is detected. */
  datatype AssignInputs = AssignInputs(
    hasWalletClient: bool,
    selectedAgent: string,
    chainId: Option<int>,
    expectedChainId: Option<int>,
    feeRead: Result<(), Thrown>,
    write: Result<(), Thrown>)

  /** The toasts raised, whether `registerAgent` was called and whether the
      battles were fetched again. */
  datatype AssignRun = AssignRun(toasts: seq<Toast>, wrote: bool, refetched: bool)

  const ConnectToAssign: string := "Connect your wallet to assign an agent"
  const SelectAgent: string := "Select a saved agent to assign"
  const UndetectedChain: string := "Unable to detect wallet chain. Reconnect your wallet."

  /** `actualChainId !== expectedChainId`: `NaN` differs from every id. */
  predicate ChainMismatch(chainId: int, expected: Option<int>)
  {
    expected.None? || chainId != expected.value
  }

  function HandleAssign(inp: AssignInputs): (r: AssignRun)
    ensures |r.toasts| == 1
    ensures r.refetched ==> r.wrote
  {
    if !inp.hasWalletClient then AssignRun([ToastError(ConnectToAssign)], false, false)
    else if inp.selectedAgent == [] then AssignRun([ToastError(SelectAgent)], false, false)
    else if !Spectator.ChainDetected(inp.chainId) then AssignRun([ToastError(UndetectedChain)], false, false)
    else if ChainMismatch(inp.chainId.value, inp.expectedChainId) then
      AssignRun([ToastError("Wrong network. Switch to chain "
                            + (if inp.expectedChainId.Some? then Decimal.IntToString(inp.expectedChainId.value) else "NaN")
                            + ".")], false, false)
    else
      match inp.feeRead
      case Err(e) => AssignRun([ToastError(WalletErrors.FormatWalletError(e))], false, false)
      case Ok(_) =>
        match inp.write
        case Err(e) => AssignRun([ToastError(WalletErrors.FormatWalletError(e))], true, false)
        case Ok(_) => AssignRun([ToastSuccess("Agent registered for battle")], true, true)
  }

  /** The assign gate: nothing is written unless a wallet is there, an agent
      is selected and a detected chain equals the expected id; a successful
      write refreshes the battles. */
  lemma AssignGate(inp: AssignInputs)
    ensures HandleAssign(inp).wrote <==>
              inp.hasWalletClient && inp.selectedAgent != [] && Spectator.ChainDetected(inp.chainId)
              && inp.expectedChainId.Some? && inp.chainId.value == inp.expectedChainId.value
              && inp.feeRead.Ok?
    ensures HandleAssign(inp).refetched <==> HandleAssign(inp).wrote && inp.write.Ok?
  {
  }

  /** Unlike the bet gate, the mismatch test runs even when no chain id is
      configured: then every assignment is refused as a wrong network. */
  lemma AssignNeedsConfiguredChain(inp: AssignInputs)
    requires inp.expectedChainId.None?
    requires inp.hasWalletClient && inp.selectedAgent != [] && Spectator.ChainDetected(inp.chainId)
    ensures !HandleAssign(inp).wrote
    ensures HandleAssign(inp).toasts == [ToastError("Wrong network. Switch to chain NaN.")]
  {
    assert "Wrong network. Switch to chain " + "NaN" + "." == "Wrong network. Switch to chain NaN.";
  }

  // ---------------------------------------------------------------------
  // counters and buttons

  /** The battles in state `s`. */
  function CountState(bs: seq<BattleSummary>, s: BattleState): nat
  {
    if bs == [] then 0 else (if bs[0].state == s then 1 else 0) + CountState(bs[1..], s)
  }

  /** The `Active battles` counter is the length of the active list. */
  lemma {:induction false} ActiveCount(bs: seq<BattleSummary>)
    ensures |Spectator.ActiveBattles(bs)| == CountState(bs, Active)
  {
    if bs != [] {
      ActiveCount(bs[1..]);
    }
  }

  /** The buttons of one battle row. */
  datatype Button =
    | ViewDetails
    | Assign(caption: string, disabled: bool)
    | ClaimPrize(caption: string, disabled: bool)

  function AssignLabel(isConnected: bool, selectedAgent: string): string
  {
    if !isConnected then "Connect to Assign"
    else if selectedAgent != [] then "Assign to Battle"
    else "Select Agent"
  }

  /** `claimablePrizesByBattle[id]` is truthy: present and not `0n`. */
  predicate PrizeClaimable(prizes: Record<nat>, id: nat)
  {
    Get(prizes, id).Some? && Get(prizes, id).value != 0
  }

  function Buttons(b: BattleSummary, prizes: Record<nat>, isConnected: bool,
                   selectedAgent: string, claiming: Option<nat>): (r: seq<Button>)
    ensures |r| >= 1 && r[0] == ViewDetails
  {
    [ViewDetails]
    + (if b.state == Pending then [Assign(AssignLabel(isConnected, selectedAgent), !isConnected)] else [])
    + (if PrizeClaimable(prizes, b.id) then
         [ClaimPrize(if claiming == Some(b.id) then "Claiming..." else "Claim Prize",
                     !isConnected || claiming == Some(b.id))]
       else [])
  }

  /** Assign is offered exactly for pending battles and Claim exactly for a
      non-zero claimable prize; both are disabled while disconnected. */
  lemma ButtonsOffered(b: BattleSummary, prizes: Record<nat>, isConnected: bool,
                       selectedAgent: string, claiming: Option<nat>)
    ensures var r := Buttons(b, prizes, isConnected, selectedAgent, claiming);
            ((exists i :: 0 <= i < |r| && r[i].Assign?) <==> b.state == Pending)
            && ((exists i :: 0 <= i < |r| && r[i].ClaimPrize?) <==> PrizeClaimable(prizes, b.id))
            && (forall i :: 0 <= i < |r| && !r[i].ViewDetails? && !isConnected ==> r[i].disabled)
  {
    var r := Buttons(b, prizes, isConnected, selectedAgent, claiming);
    if b.state == Pending {
      assert r[1].Assign?;
    }
    if PrizeClaimable(prizes, b.id) {
      assert r[|r| - 1].ClaimPrize?;
    }
  }

  /** `handleClaimPrize`: the toasts raised, whether `claimPrize` was
      called and whether the battles were fetched again. */
  function HandleClaimPrize(hasWalletClient: bool, write: Result<(), Thrown>): (r: AssignRun)
    ensures |r.toasts| == 1
    ensures r.wrote <==> hasWalletClient
    ensures r.refetched <==> hasWalletClient && write.Ok?
  {
    if !hasWalletClient then AssignRun([ToastError("Connect your wallet to claim")], false, false)
    else if write.Ok? then AssignRun([ToastSuccess("Prize claim submitted")], true, true)
    else AssignRun([ToastError("Failed to claim prize")], true, false)
  }
}
