/** The shared contract types of frontend/src/types/contracts.ts, with every
    bigint amount as a `nat`. */
module Contracts {
  import opened Wrappers

  /** `ChallengeType`: the one challenge, encoded on chain as 0. */
  datatype ChallengeType = ReentrancyVault

  function ChallengeCode(c: ChallengeType): nat
  {
    match c
    case ReentrancyVault => 0
  }

  /** `BattleStateLabel`. */
  datatype BattleState = Pending | Active | Executing | Resolved | Claimed

  function StateLabel(s: BattleState): string
  {
    match s
    case Pending => "Pending"
    case Active => "Active"
    case Executing => "Executing"
    case Resolved => "Resolved"
    case Claimed => "Claimed"
  }

  /** `BattleSummary`; `winner` is `None` for the JavaScript `null`. */
  datatype BattleSummary = BattleSummary(
    id: nat,
    address: string,
    state: BattleState,
    challenge: string,
    entryFee: string,
    deadline: string,
    winner: Option<string>)

  /** `AgentSummary`. */
  datatype AgentSummary = AgentSummary(address: string, name: string, index: nat)

  /** A battle whose outcome is settled, so rewards may be claimable. */
  predicate IsSettled(s: BattleState)
  {
    s == Resolved || s == Claimed
  }
}
