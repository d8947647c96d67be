# battlechain-agent-pvp frontend logic in Dafny

The frontend of battlechain-agent-pvp lets players create battles between
Solidity "agents" on BattleChain, write and deploy those agents from a studio,
register them for battles, bet on them, and claim prizes, payouts and pending
withdrawals. This project models the deterministic logic buried in that
frontend's hooks, components and two API routes. Every RPC read, wallet write,
`localStorage` access, `fetch`, `solc` run and OpenRouter call is a parameter:
an oracle function, a scripted sequence of outcomes or a `Result` value. The
model states what the frontend does with their answers. Whether a parameter
can fail follows the source:

- These return a `Result` whose error is the thrown value:
  - chain reads and writes, the receipt wait, and the fee read;
  - the client's `fetch` of the two routes;
  - the routes' own upstream `fetch` and `JSON.parse(solc.compile(…))`.
- `localStorage` is a plain value and never throws.
- `render` (`String(value)` of a JSON value) cannot fail.

The modules follow the source files:

- `AgentStore` and `Discovery` cover the saved-agent list and owner discovery in `frontend/src/utils/battlechain.ts`.
  - `localStorage` is a `Browser` value holding an optional string.
  - `JSON.parse` and `JSON.stringify` are modelled concretely in `Json`.
- `CreateBattle` covers the create-battle flow in `CreateBattlePanel.tsx`.
  - It holds the gas-bump retry controller as a recursive function over attempts.
  - It also holds the ordered pre-submit gate and the phase transitions.
- `Receipt` is the receipt wait, which turns timeouts into a fixed error.
- `AgentDeploy` covers `useAgentDeploy.ts`: the wallet gate, `request`'s error message, and the generate, compile, deploy and register transitions.
- `WalletErrors` is `formatWalletError`, the ordered substring classifier.
- The chain-read logic of `useBattleChain.ts` is split in two:
  - `BattleChain` holds battle decoding, the id fallback and creator pagination.
  - `Claims` holds the claims sweep and the three totals.
- `History`, `Spectator` and `Dashboard` hold the views' filters, leaderboard, gates and button conditions.
- `Studio` holds the studio handlers' preconditions.
- `CompileRoute` and `GenerateRoute` are the two API routes.
  - The compile route covers the required-ABI check, the severity filter and first-qualifying-contract selection.
  - The generate route covers prompt validation, error passthrough and Markdown fence stripping.
- The shared modules are:
  - `Wrappers`: `Option` and `Result`.
  - `Text`: ASCII lower-casing, substring search and JavaScript `trim`.
  - `Decimal`: `toString` and `BigInt` parsing.
  - `Record`: a JavaScript object keyed by a bigint's decimal string.
  - `Thrown`: thrown values.
  - `Feedback`: phases and toasts.
  - `Contracts`: the types of `frontend/src/types/contracts.ts`.

Bigint amounts and ids are `nat`.

## Model

| member | source | states |
|---|---|---|
| AgentStore.StringElements | frontend/src/utils/battlechain.ts:39 | A string is kept exactly when it is a string element of the parsed array, and nothing is added. |
| AgentStore.StringElementsSingle | frontend/src/utils/battlechain.ts:39 | One element is kept exactly when it is a string, as its text. |
| AgentStore.StringElementsAppend | frontend/src/utils/battlechain.ts:39 | The filter distributes over concatenation, so the strings keep their order and their repeats. |
| AgentStore.ParseStored | frontend/src/utils/battlechain.ts:29-43 | A missing or empty value gives []. Otherwise the result is the string elements of the parsed array, and [] for malformed JSON or a non-array. |
| AgentStore.Load | frontend/src/utils/battlechain.ts:45-52 | Without a window the list is []. Otherwise it is the stored entries lower-cased, position by position, so it is always lower-case. |
| AgentStore.Persist | frontend/src/utils/battlechain.ts:54-60 | Without a window nothing changes. Otherwise the slot holds `JSON.stringify` of the list. |
| AgentStore.ParsePersisted | frontend/src/utils/battlechain.ts:29-60 | Parsing what `persistSavedAgents` wrote gives back the same list of strings (round trip). |
| AgentStore.LoadPersist | frontend/src/utils/battlechain.ts:45-60 | Loading after persisting a lower-case list returns that list. |
| AgentStore.Dedup | frontend/src/utils/battlechain.ts:66-78 | The `Map` insertion keeps each address once: no duplicates, the same members, never longer. |
| AgentStore.DedupOrdered | frontend/src/utils/battlechain.ts:66-78 | Deduplicated entries appear in the order of their first occurrence. |
| AgentStore.Merge | frontend/src/utils/battlechain.ts:62-79 | The merge is lower-case and duplicate-free, and as a set it equals the lower-cased union of existing and discovered. |
| AgentStore.MergeOrder | frontend/src/utils/battlechain.ts:66-78 | The deduplicated existing entries come first, and every entry keeps the order of its first occurrence in existing followed by discovered. |
| AgentStore.MergeAgainIsNoOp | frontend/src/utils/battlechain.ts:62-79 | Merging the same discovered list a second time changes nothing. |
| AgentStore.Add | frontend/src/utils/battlechain.ts:81-95 | Without a window the result is the normalized address alone. An address already present case-insensitively returns the list unchanged without persisting. Otherwise the normalized address is appended and persisted. |
| AgentStore.AddStores | frontend/src/utils/battlechain.ts:81-95 | The stored list afterwards is the returned one and holds the address. Its length grows by one exactly when the address was new. |
| AgentStore.Without | frontend/src/utils/battlechain.ts:104-106 | Exactly the entries whose normalized form differs from the address survive, so the address is absent. |
| AgentStore.WithoutAppend | frontend/src/utils/battlechain.ts:104-106 | The filter distributes over concatenation, so the survivors keep their relative order. |
| AgentStore.WithoutAbsent | frontend/src/utils/battlechain.ts:104-106 | Removing an address that is not there keeps the list as it is. |
| AgentStore.Remove | frontend/src/utils/battlechain.ts:97-109 | Without a window the result is []. Otherwise the loaded list minus every case-insensitive match is persisted and returned, and the address is absent. |
| AgentStore.RemoveStores | frontend/src/utils/battlechain.ts:97-109 | The stored list afterwards is the returned one. |
| AgentStore.RemoveUndoesAdd | frontend/src/utils/battlechain.ts:81-109 | Adding a new address and then removing it gives back the list the browser held before. |
| Discovery.ScanLogs | frontend/src/utils/battlechain.ts:141-190 | The scan only appends owner lookups, at most one per log, and adds at most one match per log. |
| Discovery.Discover | frontend/src/utils/battlechain.ts:111-139 | A missing arena address or a failed `getLogs` gives [] without throwing and without any owner read. |
| Discovery.Qualifying | frontend/src/utils/battlechain.ts:144-180 | Reference definition of the qualifying agents: an address is listed exactly when some log carries an agent with that normalized address whose owner read succeeded and equals the owner case-insensitively. |
| Discovery.ScanLogsIsDedup | frontend/src/utils/battlechain.ts:141-190 | The loop's matches are the deduplicated qualifying agents appended to the matches so far. |
| Discovery.DiscoverIsDedup | frontend/src/utils/battlechain.ts:141-190 | The result is duplicate-free and in first-log order of the qualifying agents. |
| Discovery.DiscoveredIff | frontend/src/utils/battlechain.ts:144-180 | An address is discovered exactly when some log names an agent with that normalized address and a successful owner read equal to the owner. |
| Discovery.DiscoveredLowerCase | frontend/src/utils/battlechain.ts:156-179 | Every discovered address is lower-case. |
| Discovery.SkippedLogIsIgnored | frontend/src/utils/battlechain.ts:146-175 | A log without an agent, or one whose owner read fails, can be deleted without changing the result: it is skipped and the scan goes on. |
| Discovery.DiscoverNoRedundantLookup | frontend/src/utils/battlechain.ts:156-159 | No owner read is made for an agent already matched. |
| Discovery.ScanScripted | frontend/src/utils/battlechain.ts:141-190 | The loop with every owner read scripted on its own. It only appends lookups, at most one per log, and adds at most one match per log. |
| Discovery.ScriptedMatches | frontend/src/utils/battlechain.ts:156-180 | The matches added are exactly the lower-cased agents of the reads that named the owner. |
| Discovery.ScriptedIsScan | frontend/src/utils/battlechain.ts:141-190 | When every read of an address answers alike, the scripted loop equals the per-address scan, so the lemmas above apply to it. |
| Discovery.RetriedReadFinds | frontend/src/utils/battlechain.ts:156-180 | An agent whose first owner read fails is read again at its next log, and found when that read succeeds. |
| WalletErrors.FirstMatch | frontend/src/utils/walletErrors.ts:5-28 | The branch found is in the order and matches, and there is none exactly when no branch matches. |
| WalletErrors.FormatMessage | frontend/src/utils/walletErrors.ts:3-30 | The result is the message itself or one of the five fixed messages. |
| WalletErrors.FormatWalletError | frontend/src/utils/walletErrors.ts:1-31 | The result is the error's message (an `Error`'s message, or the value stringified) or one of the five fixed messages. |
| WalletErrors.MatchesIsSpelled | frontend/src/utils/walletErrors.ts:5-28 | The branch table matches exactly when one of the branch's literal patterns occurs in the lower-cased message. |
| WalletErrors.FirstMatchOfOrder | frontend/src/utils/walletErrors.ts:5-28 | Branches are tried in the order rejection, network, pending, funds, timeout. |
| WalletErrors.FormatIsFirstMatch | frontend/src/utils/walletErrors.ts:5-30 | The earliest matching branch decides the message. With no match the message is returned unchanged. |
| WalletErrors.FixedMessageStable | frontend/src/utils/walletErrors.ts:5-30 | Each of the five fixed messages formats to itself. |
| WalletErrors.FormatIdempotent | frontend/src/utils/walletErrors.ts:5-30 | Formatting an already formatted message changes nothing. |
| WalletErrors.NonceBeatsTimeout | frontend/src/utils/walletErrors.ts:18-28 | A message with both 'nonce' and 'timeout', and nothing of the first two branches, gets the pending-tx message. |
| WalletErrors.RpcTimeoutExtendsReceiptTimeout | frontend/src/utils/walletErrors.ts:26-28 | The classifier's timeout message is the receipt wait's 'RPC timeout — try again' with a final period. |
| WalletErrors.ReceiptTimeoutFormats | frontend/src/components/CreateBattlePanel.tsx:95-97 | The receipt wait's timeout error is presented as the classifier's timeout message and still mentions 'timeout'. |
| Receipt.WaitForReceipt | frontend/src/components/CreateBattlePanel.tsx:80-100 | With no client the result is the RPC-unavailable error. Otherwise the wait is asked with 120000 ms and a 2000 ms interval. A receipt is returned as is, an error mentioning 'timeout' in any case becomes 'RPC timeout — try again', and any other error is rethrown unchanged. |
| Receipt.WaitTimeoutSurvivesFormatting | frontend/src/hooks/useAgentDeploy.ts:151-171 | A timeout during the wait reaches the user as the timeout message. Any other failure is passed on unchanged. |
| Receipt.ReceiptTimeoutIsFixedPoint | frontend/src/hooks/useAgentDeploy.ts:164-169 | A wait that already fails with the fixed timeout error fails with that same error. |
| Feedback.FailurePhase | frontend/src/hooks/useAgentDeploy.ts:273-275 | The failure phase is 'timeout' exactly when the lower-cased message contains 'timeout', and 'error' otherwise. |
| CreateBattle.ApplyGasBuffer | frontend/src/components/CreateBattlePanel.tsx:104-105 | The offer is the floor of price × buffer / 100, and it is at least the price for a buffer of at least 100. |
| CreateBattle.BufferStepsIncrease | frontend/src/components/CreateBattlePanel.tsx:102-105 | For one price the 120/130/150 steps never decrease, and they strictly increase once the price is at least 10. |
| CreateBattle.ShouldRetryIff | frontend/src/components/CreateBattlePanel.tsx:110-121 | An error is retryable exactly when its lower-cased message contains one of the four retry texts. A nonce refresh implies a retry. |
| CreateBattle.BackoffDoubles | frontend/src/components/CreateBattlePanel.tsx:123-126 | The wait starts at 500 ms and doubles per attempt. |
| CreateBattle.Attempts | frontend/src/components/CreateBattlePanel.tsx:154-185 | From attempt a the loop makes at most 3 − a offers and takes no more waits than offers. The first offer carries the current nonce, and the loop never falls through while an attempt is left. |
| CreateBattle.SendWithRetry | frontend/src/components/CreateBattlePanel.tsx:128-152 | A missing public client, wallet client or sender throws its fixed message before any read. |
| CreateBattle.SendWithRetryStart | frontend/src/components/CreateBattlePanel.tsx:134-154 | A run either stops before any attempt, or is the loop started at attempt 0 with the first nonce read. |
| CreateBattle.SendWithRetryBounded | frontend/src/components/CreateBattlePanel.tsx:154-187 | At most three attempts are made, and the 'Failed to submit transaction after retries.' throw is unreachable. |
| CreateBattle.SendWithRetryPrices | frontend/src/components/CreateBattlePanel.tsx:154-159 | Attempt i offers the price read on attempt i raised by the i-th buffer step. |
| CreateBattle.SendWithRetryDelays | frontend/src/components/CreateBattlePanel.tsx:171-183 | The wait after retried attempt i is 500·2^i ms. A retryable failure with an attempt left is always followed by a wait and the next attempt, unless its nonce re-read failed; every other last offer ends the run without a wait. |
| CreateBattle.SendWithRetryRetried | frontend/src/components/CreateBattlePanel.tsx:171-183 | Another attempt follows only a failure with a retryable message. Conversely, a retryable failure with an attempt left stops the run only through a failed read, the next attempt's price read or the nonce re-read, whose error is rethrown. |
| CreateBattle.AttemptsNoOffer | frontend/src/components/CreateBattlePanel.tsx:154-159 | An attempt that makes no offer failed its price read: the loop ends there with that error, no wait and no further nonce read. |
| CreateBattle.AttemptsEnds | frontend/src/components/CreateBattlePanel.tsx:154-185 | After its last offer a run either waited once more and stopped on the next attempt's failed price read, or stopped on a failed nonce re-read, or (for a success, a fatal failure or the last attempt) took no wait after it. |
| CreateBattle.SendWithRetrySubmits | frontend/src/components/CreateBattlePanel.tsx:161-169 | A successful write ends the loop, and its hash is returned. |
| CreateBattle.SendWithRetryRethrows | frontend/src/components/CreateBattlePanel.tsx:170-174 | A non-retryable failure, or any failure of the last attempt, is rethrown unchanged. |
| CreateBattle.SendWithRetryNonces | frontend/src/components/CreateBattlePanel.tsx:149-181 | The nonce is read once before the loop and re-read only after a 'nonce too low' failure that earns another attempt: the count of reads is 1 plus those failures. Each refreshed offer carries the answer of the next read in order. Every other retry reuses the previous nonce. |
| CreateBattle.AttemptsNonceReads | frontend/src/components/CreateBattlePanel.tsx:154-184 | The loop reads the nonce once per 'nonce too low' failure that earns another attempt, and at no other time. |
| CreateBattle.AttemptsRefreshedNonce | frontend/src/components/CreateBattlePanel.tsx:154-184 | After a 'nonce too low' failure the next offer carries the answer of the next read in order. |
| CreateBattle.SteadyPriceOffersGrow | frontend/src/components/CreateBattlePanel.tsx:154-159 | With a constant node price the offers never decrease, and they strictly increase once the price is at least 10. |
| CreateBattle.FirstFailure | frontend/src/components/CreateBattlePanel.tsx:196-248 | The gate reported fails. |
| CreateBattle.FirstFailureWins | frontend/src/components/CreateBattlePanel.tsx:196-248 | The nine gates are checked in order and the first failing one is reported. No gate is reported exactly when all pass. |
| CreateBattle.Submit | frontend/src/components/CreateBattlePanel.tsx:190-277 | Every submission raises at least one toast. |
| CreateBattle.SubmitGateBlocks | frontend/src/components/CreateBattlePanel.tsx:196-248 | A failing gate means nothing is sent. A single error toast of that gate or an earlier one is raised, and the phase becomes 'error' only for the six wallet gates. |
| CreateBattle.SubmitSendsOnlyWhenReady | frontend/src/components/CreateBattlePanel.tsx:250-260 | The controller runs exactly when every gate passes. |
| CreateBattle.SubmitFinalPhase | frontend/src/components/CreateBattlePanel.tsx:254-276 | Success, and closing the dialog, happen exactly when the write and the receipt both succeed. Otherwise the last toast is an error and the phase is 'timeout' exactly when its text contains 'timeout', else 'error'. |
| CreateBattle.CaughtEndsInFailure | frontend/src/components/CreateBattlePanel.tsx:269-273 | Any caught error ends in 'timeout' or 'error' with an error toast, chosen by the formatted message. |
| CreateBattle.SubmitReceiptTimeout | frontend/src/components/CreateBattlePanel.tsx:264-273 | A receipt wait that times out ends in the 'timeout' phase with the timeout message. |
| AgentDeploy.FirstFailure | frontend/src/hooks/useAgentDeploy.ts:93-133 | The check reported fails. |
| AgentDeploy.FirstFailureWins | frontend/src/hooks/useAgentDeploy.ts:93-139 | The six checks are made in order and the first failing one is reported. None is reported exactly when all pass. |
| AgentDeploy.Status | frontend/src/hooks/useAgentDeploy.ts:93-139 | The status is ready exactly when the reason is null, and exactly when no check fails. A reason is the message of a failing check. |
| AgentDeploy.UnknownChainPasses | frontend/src/hooks/useAgentDeploy.ts:126-133 | An unknown chain id passes the gate, and a wrong-network reason requires a known chain id. |
| AgentDeploy.Validate | frontend/src/hooks/useAgentDeploy.ts:145-149 | It throws exactly when the status is not ready. |
| AgentDeploy.RequestErrorMessage | frontend/src/hooks/useAgentDeploy.ts:50-59 | For a non-JSON failure the message is the body, or 'Request failed (status)' when the body is empty. |
| AgentDeploy.RouteErrorReachesClient | frontend/src/hooks/useAgentDeploy.ts:50-55 | A JSON `{ error }` body with a non-empty message is thrown word for word. |
| AgentDeploy.RequestFallsBackToStatus | frontend/src/hooks/useAgentDeploy.ts:50-55 | Malformed JSON, a non-object, or a missing or falsy `error` falls back to 'Request failed (status)'. |
| Json.IntegerTruthy | frontend/src/hooks/useAgentDeploy.ts:54 | An integer JSON number is truthy exactly when it has a non-zero digit. |
| AgentDeploy.Generate | frontend/src/hooks/useAgentDeploy.ts:173-200 | Generation ends 'generated' or 'error' and leaves the saved agents and the deployed address alone. |
| AgentDeploy.GenerateOutcome | frontend/src/hooks/useAgentDeploy.ts:183-196 | It succeeds exactly when `code ?? source` is a non-empty string. Then that code is kept and the artifact dropped. On failure an error is recorded and the code and artifact are kept. |
| AgentDeploy.Compile | frontend/src/hooks/useAgentDeploy.ts:202-229 | Compilation ends 'compiled' or 'error' and leaves the code and saved agents alone. |
| AgentDeploy.CompileOutcome | frontend/src/hooks/useAgentDeploy.ts:212-227 | It succeeds exactly when a truthy `abi` and a non-empty `bytecode` came back. The artifact is then exactly the reply's. |
| AgentDeploy.DeploySteps | frontend/src/hooks/useAgentDeploy.ts:231-260 | A fee read happens only for a ready wallet, and a write only after a successful fee read. |
| AgentDeploy.Deploy | frontend/src/hooks/useAgentDeploy.ts:231-280 | Storage changes only on a successful deploy. |
| AgentDeploy.DeployBlockedUntilReady | frontend/src/hooks/useAgentDeploy.ts:231-248 | A wallet that is not ready stops the deploy before any fee read or write. The formatted status reason becomes the error. |
| AgentDeploy.DeployOutcome | frontend/src/hooks/useAgentDeploy.ts:256-276 | It succeeds exactly when every call succeeded and the receipt names a contract address. That address is then deployed, saved and stored. On failure the phase is 'timeout' exactly when the message says so. |
| AgentDeploy.Register | frontend/src/hooks/useAgentDeploy.ts:282-327 | Registration leaves the compilation status and saved agents alone. |
| AgentDeploy.RegisterSteps | frontend/src/hooks/useAgentDeploy.ts:286-311 | A fee read happens only for a ready wallet, and a write only after a successful fee read. |
| AgentDeploy.RegisterOutcome | frontend/src/hooks/useAgentDeploy.ts:288-323 | A wallet that is not ready makes no call. Success happens exactly when the fee read, the write and the receipt wait succeed, and it records the write's hash. |
| AgentDeploy.Mount | frontend/src/hooks/useAgentDeploy.ts:141-143 | After the mount effect the hook is idle and shows the stored agents, lower-cased. |
| AgentDeploy.RemoveSaved | frontend/src/hooks/useAgentDeploy.ts:343-345 | After removal the address is not shown, the list shown is the one stored, and nothing else of the hook changes. |
| AgentDeploy.RemoveUndoesDeploy | frontend/src/hooks/useAgentDeploy.ts:262-264 | Removing a freshly deployed, new address restores the list held before. |
| BattleChain.StateOf | frontend/src/hooks/useBattleChain.ts:183-187 | Any index outside 0..4 reads as 'Pending'. |
| BattleChain.StateOfIndex | frontend/src/hooks/useBattleChain.ts:21-27 | Indices 0..4 and the five labels correspond one to one. |
| BattleChain.WinnerOf | frontend/src/hooks/useBattleChain.ts:191-192 | The winner is null exactly for the zero address, and otherwise is kept. |
| BattleChain.Decode | frontend/src/hooks/useBattleChain.ts:183-193 | A summary carries its id, address and challenge, the decoded state, and a null winner exactly for the zero address. |
| BattleChain.Range | frontend/src/hooks/useBattleChain.ts:95-97 | The fallback ids are 0 … n−1 in order. |
| BattleChain.BattleIdsFallback | frontend/src/hooks/useBattleChain.ts:74-101 | `getAllBattleIds` is used when it returns ids. Otherwise the ids are 0 … nextBattleId−1. There are none when that read fails too, or when nextBattleId is at least 2^32 and `Array.from` throws. |
| BattleChain.Offsets | frontend/src/hooks/useBattleChain.ts:112-113 | The page offsets are 0, 25, 50, … below the count, one per started page. |
| BattleChain.PagesFrom | frontend/src/hooks/useBattleChain.ts:113-121 | Pages from offset 25·m are joined in order up to the first failing one. The flag says whether none failed. |
| BattleChain.PagesRead | frontend/src/hooks/useBattleChain.ts:105-124 | The creator ids are the pages read before the first failure, concatenated in order. |
| BattleChain.CreatorIds | frontend/src/hooks/useBattleChain.ts:103-143 | A disconnected account, or none, gets []. |
| BattleChain.CreatorFallback | frontend/src/hooks/useBattleChain.ts:126-138 | The single-call fallback is consulted only when paging produced nothing, and then decides the result. |
| BattleChain.DecodeAll | frontend/src/hooks/useBattleChain.ts:145-195 | Every id is decoded, in id order, exactly when all reads succeed. |
| BattleChain.FetchBattles | frontend/src/hooks/useBattleChain.ts:61-70 | Without a client the battles and creator ids are reset to []. |
| BattleChain.FetchBattlesShape | frontend/src/hooks/useBattleChain.ts:61-203 | A successful fetch lists one decoded summary per id, in order. The creator ids are set even when the battle reads fail. |
| Claims.Owners | frontend/src/hooks/useBattleChain.ts:254-258 | Every owner is read, in agent order, exactly when all owner reads succeed. |
| Claims.AsOwnerIff | frontend/src/hooks/useBattleChain.ts:248-264 | `asOwner` holds exactly when the agent listing and every owner read succeed and some owner equals the account case-insensitively. |
| Claims.Settled | frontend/src/hooks/useBattleChain.ts:227-229 | The battles kept are exactly those in state Resolved or Claimed. |
| Claims.SettledDistinct | frontend/src/hooks/useBattleChain.ts:227-229 | Filtering keeps battle ids distinct. |
| Claims.Fill | frontend/src/hooks/useBattleChain.ts:231-280 | The sweep writes a key exactly for the battles that produce a value, each key once. |
| Claims.RefreshClaimables | frontend/src/hooks/useBattleChain.ts:210-216 | With no client, no connection or no account, all four records are reset to empty. |
| Claims.ClaimsKeys | frontend/src/hooks/useBattleChain.ts:227-278 | Only settled battles get entries. Each gets one in every amount record, and a participation entry exactly when its claim reads succeeded. |
| Claims.ClaimsEntry | frontend/src/hooks/useBattleChain.ts:235-278 | A settled battle's entries depend on its own reads. A failed read gives three zeros and no participation. `asBettor` means a non-zero winner-side bet, and `betClaimed` is copied. |
| Claims.TotalsSeparate | frontend/src/hooks/useBattleChain.ts:341-366 | The prize, pending and bet totals are three separate sums of their own amounts over the settled battles, and are 0 after a reset. |
| History.HistoryOf | frontend/src/components/BattleHistory.tsx:22-35 | A battle is listed exactly when it is settled and shows ownership, a bet or a claimable amount. Missing entries count as 0 or false. |
| History.HistoryAppend | frontend/src/components/BattleHistory.tsx:23-35 | The filter distributes over concatenation, so the battle list's order is preserved. |
| History.ListedAfterSweep | frontend/src/components/BattleHistory.tsx:22-35 | After the claims sweep, a battle is listed exactly when it is settled and its reads show ownership, a winner-side bet or an amount to claim. |
| History.Badges | frontend/src/components/BattleHistory.tsx:135-154 | Each amount badge appears exactly when its amount is positive. The neutral badge appears exactly when all three are 0, and reads 'Claimed' exactly when `betClaimed`, else 'No rewards'. |
| History.Actions | frontend/src/components/BattleHistory.tsx:180-214 | Each of claim prize, claim payout and withdraw is offered exactly when its own amount is positive. |
| History.NeutralIffNoAction | frontend/src/components/BattleHistory.tsx:135-214 | The neutral badge shows exactly when no action is offered. |
| History.ProcessingKey | frontend/src/components/BattleHistory.tsx:49 | The key is the action's prefix, a dash, then the id in decimal. |
| History.ProcessingKeyInjective | frontend/src/components/BattleHistory.tsx:49-83 | Processing keys are equal exactly for the same action and battle id. |
| History.RunClaim | frontend/src/components/BattleHistory.tsx:44-93 | Each click raises one toast, and calls the write exactly when a wallet is present. |
| History.RunClaimToasts | frontend/src/components/BattleHistory.tsx:44-93 | The toast is a success exactly when the wallet was there and the write went through. |
| Spectator.Winners | frontend/src/components/SpectatorView.tsx:128 | The winners are exactly those of the battles that have one. |
| Spectator.TotalResolvedIsWinners | frontend/src/components/SpectatorView.tsx:127-129 | `totalResolved` is the number of battles with a winner. |
| Spectator.Bump | frontend/src/components/SpectatorView.tsx:137-142 | One more win for the address and nothing else changes. A new address is listed, and the wins' sum grows by one. |
| Spectator.Tally | frontend/src/components/SpectatorView.tsx:130-143 | Each winner is listed once with the number of battles it won. The wins add up to the number of resolved battles. |
| Spectator.Insert | frontend/src/components/SpectatorView.tsx:152 | Insertion into rows sorted by wins keeps them sorted and is a permutation plus the new row. |
| Spectator.SortRows | frontend/src/components/SpectatorView.tsx:152 | The rows are sorted by wins, descending, as a permutation of the input. |
| Spectator.LeaderboardOf | frontend/src/components/SpectatorView.tsx:145-155 | At most five rows, sorted by wins descending. |
| Spectator.LeaderboardCounts | frontend/src/components/SpectatorView.tsx:127-143 | Each row is a winner with its exact number of wins. Before truncation the wins sum to `totalResolved`. |
| Spectator.TopOfSorted | frontend/src/components/SpectatorView.tsx:152-153 | A row cut off by the top five has no more wins than any row kept. |
| Spectator.LeaderboardTop | frontend/src/components/SpectatorView.tsx:145-153 | Every winner is on the board, or has no more wins than any row on it. |
| Spectator.Summaries | frontend/src/components/SpectatorView.tsx:74-78 | Agent i is named 'Agent i+1' with index i, in on-chain order. |
| Spectator.SummaryNamesDistinct | frontend/src/components/SpectatorView.tsx:74-78 | Different agents get different names. |
| Spectator.LoadAgents | frontend/src/components/SpectatorView.tsx:70-86 | A failed agent read gives no agents. Otherwise there is one summary per agent. |
| Spectator.ActiveBattles | frontend/src/components/SpectatorView.tsx:172-176 | Exactly the battles in state Active are listed for betting. |
| Spectator.HandlePlaceBet | frontend/src/components/SpectatorView.tsx:89-125 | At most one toast is raised. |
| Spectator.BetGate | frontend/src/components/SpectatorView.tsx:89-105 | With no battle, agent or amount the handler is a no-op. Otherwise the bet is written exactly when there is a wallet, a detected chain that matches the expected id when one is configured, and a successful fee read. |
| Spectator.BetGateWithoutExpectedChain | frontend/src/components/SpectatorView.tsx:102-105 | With no expected chain id, any detected chain passes the bet gate. |
| Dashboard.ReconcileSelection | frontend/src/components/Dashboard.tsx:50-54 | A selection not among the saved agents is cleared, and any other is kept. |
| Dashboard.ReconcileSelectionStable | frontend/src/components/Dashboard.tsx:50-54 | Running the effect again changes nothing. |
| Dashboard.SavedAgents | frontend/src/components/Dashboard.tsx:56-76 | Without a connection, account or client the list is []. Otherwise it is the owner's agents, or unchanged when that read fails. |
| Dashboard.HandleAssign | frontend/src/components/Dashboard.tsx:89-126 | One toast is raised, and the battles are fetched again only after a write. |
| Dashboard.AssignGate | frontend/src/components/Dashboard.tsx:89-120 | The write happens exactly with a wallet, a selected agent, and a detected chain equal to the configured expected id, after a successful fee read. A refetch follows exactly a successful write. |
| Dashboard.AssignNeedsConfiguredChain | frontend/src/components/Dashboard.tsx:107-110 | With no expected chain id the mismatch test still runs, so every assignment is refused with 'Wrong network. Switch to chain NaN.'. |
| Dashboard.ActiveCount | frontend/src/components/Dashboard.tsx:213 | The active counter equals the number of battles in state Active. |
| Dashboard.Buttons | frontend/src/components/Dashboard.tsx:289-327 | 'View Details' is always offered first. |
| Dashboard.ButtonsOffered | frontend/src/components/Dashboard.tsx:296-327 | Assign is offered exactly for Pending battles and Claim exactly for a non-zero claimable prize. Both are disabled while disconnected. |
| Dashboard.HandleClaimPrize | frontend/src/components/Dashboard.tsx:128-145 | One toast is raised. The write is called exactly with a wallet, and the battles are refetched exactly after a successful claim. |
| Studio.HandleGenerate | frontend/src/components/AgentStudio.tsx:29-38 | Generation is called exactly for a prompt that is not blank, with the untrimmed prompt. The success toast shows exactly when the status became 'generated'. |
| Studio.HandleCompile | frontend/src/components/AgentStudio.tsx:40-49 | Compilation is called exactly when there is generated code. The success toast shows exactly on 'compiled'. |
| Studio.HandleDeploy | frontend/src/components/AgentStudio.tsx:51-67 | The deploy is called exactly when connected, compiled and holding an artifact. The connect message takes precedence over the compile message. Success toasts 'Agent deployed: address'. |
| Studio.HandleRegister | frontend/src/components/AgentStudio.tsx:69-100 | Registration is called exactly when connected, deployed, and the trimmed battle id is non-blank and parses as a BigInt. The parsed id is passed on. |
| Studio.SendRegister | frontend/src/components/AgentStudio.tsx:93-99 | The success toast shows exactly when registration succeeded with a non-empty hash. |
| Studio.RegisterRefusals | frontend/src/components/AgentStudio.tsx:70-91 | The refusals come in order: connect, deploy, enter a battle id, then the BigInt syntax error of the trimmed id. |
| Studio.RegisterSendsParsed | frontend/src/components/AgentStudio.tsx:80-99 | With a connected wallet and a deployed address, a battle id that is not blank and that `BigInt` accepts is sent as the integer it denotes. |
| Studio.GenerateEnablesCompile | frontend/src/components/AgentStudio.tsx:34-45 | A successful generation enables compilation. |
| Studio.CompileEnablesDeploy | frontend/src/components/AgentStudio.tsx:45-60 | A successful compilation enables deployment for a connected wallet. |
| Studio.DeployEnablesRegister | frontend/src/components/AgentStudio.tsx:60-94 | After a successful deploy, any integer id written in decimal is registered as that id. |
| CompileRoute.FunctionNames | frontend/src/app/api/agents/compile/route.ts:11-15 | A name is gathered exactly when some ABI entry is a function of that name. |
| CompileRoute.HasRequiredFunctionsIff | frontend/src/app/api/agents/compile/route.ts:4-16 | The ABI check holds exactly when the ABI is an array and attack, getName and owner are among its function names. |
| CompileRoute.DiagnosticText | frontend/src/app/api/agents/compile/route.ts:47-49 | The text is `formattedMessage`, else `message`, else 'Unknown compiler error'. |
| CompileRoute.ErrorTexts | frontend/src/app/api/agents/compile/route.ts:44-50 | The list is empty exactly when no diagnostic has severity 'error', and holds the text of each one that does. |
| CompileRoute.ErrorTextsSingle | frontend/src/app/api/agents/compile/route.ts:45-49 | One diagnostic gives its text exactly when its severity is 'error'. |
| CompileRoute.ErrorTextsAppend | frontend/src/app/api/agents/compile/route.ts:45-49 | The filter distributes over concatenation: only error texts appear, each once per error, in diagnostic order. |
| CompileRoute.FirstQualifying | frontend/src/app/api/agents/compile/route.ts:58-78 | Reference definition: the position of the first contract in output order with a non-empty bytecode object and all required functions, or none exactly when no contract qualifies. |
| CompileRoute.FirstAgent | frontend/src/app/api/agents/compile/route.ts:56-78 | The loop as written, `0x` test included, answers with the reference position's contract and '0x' + its bytecode object, and with nothing exactly when no contract qualifies. |
| CompileRoute.FirstAgentIff | frontend/src/app/api/agents/compile/route.ts:58-78 | A contract is answered with exactly when some contract qualifies. |
| CompileRoute.CodeOf | frontend/src/app/api/agents/compile/route.ts:19-20 | The code is trimmed, and blank for a non-string or a missing body. |
| CompileRoute.Handle | frontend/src/app/api/agents/compile/route.ts:18-83 | Blank code is answered 400 'Solidity code is required'. A throw from `solc.compile` or its `JSON.parse` is not caught. |
| CompileRoute.BlankCodeSkipsCompiler | frontend/src/app/api/agents/compile/route.ts:20-24 | Blank code is refused before solc runs: the answer is the same for every compiler. |
| CompileRoute.ErrorsReject | frontend/src/app/api/agents/compile/route.ts:44-54 | Any error-severity diagnostic gives a 400 whose message is the error texts joined by newlines, so it contains that diagnostic's text. |
| CompileRoute.WarningsDoNotReject | frontend/src/app/api/agents/compile/route.ts:44-83 | Without an error the answer is the first qualifying contract, or 400 'No contract with required IAgent functions found'. |
| CompileRoute.AnswerIsAgent | frontend/src/app/api/agents/compile/route.ts:58-77 | A compiled answer has the agent interface and a non-empty bytecode after '0x'. |
| CompileRoute.AnswerIsFirstAgent | frontend/src/app/api/agents/compile/route.ts:58-78 | A compiled answer is the first qualifying contract. |
| CompileRoute.FirstAgentIndex | frontend/src/app/api/agents/compile/route.ts:58-78 | The chosen contract qualifies, and every earlier one does not. |
| CompileRoute.AnswerCompilesInStudio | frontend/src/hooks/useAgentDeploy.ts:212-220 | The client's `compileAgent` accepts every compiled answer of the route. |
| CompileRoute.RejectionReachesClient | frontend/src/hooks/useAgentDeploy.ts:50-55 | The route's non-empty 400 error reaches the client's `request` word for word. |
| GenerateRoute.LetterRun | frontend/src/app/api/agents/generate/route.ts:61 | It is the longest prefix of ASCII letters, the `[a-z]*` of the case-insensitive regex. |
| GenerateRoute.StripFences | frontend/src/app/api/agents/generate/route.ts:60-63 | The stripped code has no leading or trailing whitespace and contains no three backticks. |
| GenerateRoute.RemoveFencesClean | frontend/src/app/api/agents/generate/route.ts:62 | After the second replacement no three backticks remain. |
| GenerateRoute.HasFenceIsContains | frontend/src/app/api/agents/generate/route.ts:62 | The fence test is the substring test for three backticks. |
| GenerateRoute.PlainPrefix | frontend/src/app/api/agents/generate/route.ts:61-62 | Text without backticks passes both replacements untouched. |
| GenerateRoute.FencedBlock | frontend/src/app/api/agents/generate/route.ts:58-63 | A fenced block with a letter tag strips to its trimmed code, and code without backticks strips to itself trimmed. |
| GenerateRoute.PromptOf | frontend/src/app/api/agents/generate/route.ts:22-23 | The prompt is trimmed, and blank for a non-string or a missing body. |
| GenerateRoute.Coalesce | frontend/src/app/api/agents/generate/route.ts:15 | The result of `??` is never null. |
| GenerateRoute.UpstreamError | frontend/src/app/api/agents/generate/route.ts:11-19 | A non-JSON failure passes its text on, or 'OpenRouter request failed (status)' when it is empty. |
| GenerateRoute.Handle | frontend/src/app/api/agents/generate/route.ts:21-69 | A blank prompt gives 400 'Missing prompt'. A missing key gives 500 'Missing OpenRouter API key'. A rejected upstream `fetch` is not caught. Code answered with is non-empty, trimmed and fence-free; `GenerateRoute.ReplyAnswered` gives the answer to each ok reply. |
| GenerateRoute.ReplyAnswered | frontend/src/app/api/agents/generate/route.ts:58-69 | An ok reply with string content answers `{ code }` with the fence-stripped content, or 502 'Model returned no code' when nothing is left. Absent or null content gives the 502. Any other content is not caught. |
| GenerateRoute.RefusedWithoutCalling | frontend/src/app/api/agents/generate/route.ts:25-35 | Both refusals come before any upstream request: the answer is the same for every upstream. |
| GenerateRoute.UpstreamFailurePassedOn | frontend/src/app/api/agents/generate/route.ts:52-56 | An upstream failure is answered with the upstream status and its error text. |
| GenerateRoute.UpstreamJsonError | frontend/src/app/api/agents/generate/route.ts:11-16 | A JSON body with a string `error` or `message` passes that text on, or the status fallback when it is empty. |
| GenerateRoute.CodeIsClean | frontend/src/app/api/agents/generate/route.ts:58-69 | Returned code is non-empty, trimmed and fence-free. Empty code is never returned. |
| GenerateRoute.CodeReachesStudio | frontend/src/hooks/useAgentDeploy.ts:183-188 | The client's `generateAgent` keeps the code the route returns. |
| GenerateRoute.FailureReachesClient | frontend/src/hooks/useAgentDeploy.ts:57-58 | A plain-text failure reaches the client's `request` word for word. |
| Decimal.ParseIntToString | frontend/src/components/AgentStudio.tsx:85 | `BigInt` of an integer's decimal string, which is already trimmed, gives that integer back (round trip). |
| Decimal.ParseTrimmed | frontend/src/components/AgentStudio.tsx:85 | Trimming before `BigInt` changes nothing, because `BigInt` trims itself. |
| Decimal.NatToStringInjective | frontend/src/hooks/useBattleChain.ts:266-268 | Distinct ids have distinct decimal keys, so keying records by `id.toString()` loses nothing. |
| Text.TrimEmptyIffAllSpace | frontend/src/components/AgentStudio.tsx:30 | `trim()` is empty exactly for an all-whitespace string. |
| Text.TrimIdempotent | frontend/src/app/api/agents/generate/route.ts:63 | Trimming twice is trimming once. |
| Text.JoinContains | frontend/src/app/api/agents/compile/route.ts:52 | Each joined part occurs in the joined text, and a single part is joined to itself. |

## Left out

- Network, wallet and server I/O are oracle parameters and are not modelled. This covers `readContract`, `getLogs`, `getGasPrice`, `getTransactionCount`, `writeContract`, `deployContract`, `waitForTransactionReceipt`, `fetch`, `solc.compile` and the OpenRouter call.
  - Each of them may fail (`Err`).
  - Where the source has no `try`/`catch`, a failure becomes the `Uncaught` answer; this is the case for the generate route's `fetch` and the compile route's `solc`.
  - A body read that rejects (`response.text()`) is not separated from the response it belongs to.
- The imported chain helpers are uninterpreted reads or writes whose outcome is a parameter. Their behaviour is not invented. These are:
  - `getGasOverrides`, the claim reads and `getAgentOwner`;
  - `getAgentsByOwner`, `getBattleAgents`;
  - `claimPrize`, `claimPayout`, `withdrawPending`;
  - `createBattle`, `registerAgent`, `placeBet`.
- Gas-price and nonce overrides do not reach the chain, because the write helpers in `frontend/src/utils/battlechain.ts` (214-271) declare no parameter for them. The retry controller hands each `{nonce, gasPrice}` offer to an abstract writer and claims nothing about its use.
- `Promise.all` is modelled as a sequential fold that fails when any element fails. Concurrency, timers, the actual back-off sleep, the event watchers and re-subscription (`useBattleChain.ts` 307-339) and the window-focus listener are left out.
- Floating point is left out:
  - `parseFloat` of form fields and `Math.round(hours*3600)`. The parsed form numbers are reals, `None` when not finite, and the form checks compare reals;
  - the rounding of JSON numbers to doubles, except for the test whether a literal rounds to 0, which `Json.Truthy` makes exactly;
  - the leaderboard's `totalExtracted` and `winRate`;
  - the ×2 potential payout.
- Some functions only render, and are parameters of the model:
  - `formatEther`;
  - `toLocaleString` of the deadline;
  - `String(value)` of a non-string JSON value in the routes.
- `Spectator.SortRows`: the model sorts stably by descending wins, as `Array.prototype.sort` does, but the contract states only order and permutation, not stability.
- `Text.Lower` lower-cases ASCII letters only. JavaScript `toLowerCase` is full Unicode, so case-insensitive comparisons of non-ASCII text are not modelled.
- `Studio.HandleRegister`: the text of the engine's `SyntaxError` for a malformed battle id is an oracle parameter. `BigInt`'s accepted syntax is modelled as: empty → 0, `0x`/`0o`/`0b` prefixes, and a signed decimal.
- Chain ids are `Option<int>`.
  - `AgentDeploy`, `CreateBattle` and `Spectator` test `Number.isFinite` before using `Number(NEXT_PUBLIC_CHAIN_ID)`, and there `None` stands for every non-finite value.
  - `Dashboard` compares the raw value, and there `None` stands for `NaN` (unset or unparsable).
  - Non-integer ids are not modelled.
- `Dashboard.HandleAssign`: an expected id of `±Infinity` is not modelled. It is refused like `NaN`, but the source's message reads 'chain Infinity'.
- The compile route's solc output is a structured value:
  - `errors` when it is an array;
  - the `Agent.sol` contracts in the order `Object.entries` lists them.

  Duplicate keys and the raw JSON text are not modelled.
- The generate route's `choices[0].message.content` is read from JSON objects and arrays. A non-string, non-null content makes `.replace` throw, which is modelled as an uncaught failure. A string `choices` value indexed by `[0]` is not modelled. The request body, model name and base URL are not modelled.
- The intermediate phases `compiling`, `submitted` and `confirming`, and the `generating`, `deploying` and `registering` flags, only drive rendering and are not modelled.
- The deploy and register writes are outcome parameters. The ABI and bytecode handed to `deployContract` are not part of them.
- `fetchBattleAgents` (`useBattleChain.ts` 288-305) is modelled only through its result, `[]` on failure, as the input of `Spectator.LoadAgents`.
- Selecting a battle from the URL, `handleViewDetails` navigation, the quick-battle form and all markup are rendering and routing, and are left out.
- `Discovery.ScanLogs`: every owner read of one address gives the same answer, and the lemmas built on `Discovery.Qualifying` hold under that assumption only. `Discovery.ScanScripted` gives each read its own outcome, and `Discovery.ScriptedIsScan` shows the two scans agree when the reads are steady.

Behaviour of the code that a reader may find surprising, kept in the model as written:

- A failed owner read during discovery is only logged and the log skipped. No per-owner error is recorded.
- Gas bumps use floored bigint arithmetic. For small node prices two steps can offer the same price, so offers are non-decreasing, and strictly increasing only from a price of 10.
- The Dashboard's assign gate compares against the expected chain id even when none is configured. Every assignment is then refused as 'Wrong network. Switch to chain NaN.' (`Dashboard.AssignNeedsConfiguredChain`). The bet gate skips that test (`Spectator.BetGateWithoutExpectedChain`).
