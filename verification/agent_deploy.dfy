/** The agent workflow hook of frontend/src/hooks/useAgentDeploy.ts: the
    wallet readiness report, the error text of a failed API request, and
    the generate, compile, deploy and register transitions. */
module AgentDeploy {
  import opened Wrappers
  import opened Text
  import opened Thrown
  import opened Json
  import Decimal
  import WalletErrors
  import Receipt
  import Feedback
  import AgentStore

  // ---------------------------------------------------------------------
  // walletStatus

  /** What `walletStatus` reads. `expectedChainId` is
      `Number(NEXT_PUBLIC_CHAIN_ID)`, `None` when not finite; `chainId` is
      `chainId ?? walletClient.chain?.id ?? publicClient.chain?.id`. */
  datatype Wallet = Wallet(
    expectedChainId: Option<int>,
    rpcUrl: string,
    hasPublicClient: bool,
    isConnected: bool,
    hasWalletClient: bool,
    chainId: Option<int>)

  /** The six checks of `walletStatus`, in the order it makes them. */
  datatype Check = NoChainId | NoRpcUrl | NoPublicClient | NotConnected | NoWalletClient | ChainMismatch

  function CheckIndex(c: Check): nat
  {
    match c
    case NoChainId => 0
    case NoRpcUrl => 1
    case NoPublicClient => 2
    case NotConnected => 3
    case NoWalletClient => 4
    case ChainMismatch => 5
  }

  /** The chain id is known: present and not 0 (a falsy id). */
  predicate ChainKnown(w: Wallet)
  {
    w.chainId.Some? && w.chainId.value != 0
  }

  /** Check `c` on its own. The mismatch check rejects only a known chain
      id that differs from the expected one (a missing expected id, `NaN`,
      differs from every id). */
  predicate Fails(c: Check, w: Wallet)
  {
    match c
    case NoChainId => !(w.expectedChainId.Some? && w.expectedChainId.value > 0)
    case NoRpcUrl => w.rpcUrl == []
    case NoPublicClient => !w.hasPublicClient
    case NotConnected => !w.isConnected
    case NoWalletClient => !w.hasWalletClient
    case ChainMismatch =>
      ChainKnown(w) && (w.expectedChainId.None? || w.chainId.value != w.expectedChainId.value)
  }

  /** The checks as written: the first one that rejects. */
  function FirstFailure(w: Wallet): (r: Option<Check>)
    ensures r.Some? ==> Fails(r.value, w)
  {
    if !(w.expectedChainId.Some? && w.expectedChainId.value > 0) then Some(NoChainId)
    else if w.rpcUrl == [] then Some(NoRpcUrl)
    else if !w.hasPublicClient then Some(NoPublicClient)
    else if !w.isConnected then Some(NotConnected)
    else if !w.hasWalletClient then Some(NoWalletClient)
    else if ChainKnown(w) && w.chainId.value != w.expectedChainId.value then Some(ChainMismatch)
    else None
  }

  /** First failure wins, and no failure exactly when all six pass. */
  lemma FirstFailureWins(w: Wallet, c: Check)
    ensures FirstFailure(w) == Some(c)
            <==> Fails(c, w) && forall d :: CheckIndex(d) < CheckIndex(c) ==> !Fails(d, w)
    ensures FirstFailure(w).None? <==> forall d :: !Fails(d, w)
  {
    if FirstFailure(w).None? {
      forall d ensures !Fails(d, w) {
      }
    }
  }

  function CheckMessage(c: Check, w: Wallet): string
  {
    match c
    case NoChainId => "Missing NEXT_PUBLIC_CHAIN_ID in frontend env config."
    case NoRpcUrl => Feedback.RpcUnavailable
    case NoPublicClient => Feedback.RpcUnavailable
    case NotConnected => "Connect your wallet from the navigation bar."
    case NoWalletClient => Feedback.WalletClientUnavailable
    case ChainMismatch =>
      "Wrong network. Switch to chain "
      + (if w.expectedChainId.Some? then Decimal.IntToString(w.expectedChainId.value) else "NaN") + "."
  }

  /** `WalletStatus`. */
  datatype WalletStatus = WalletStatus(ready: bool, reason: Option<string>)

  /** `walletStatus`: ready exactly when there is no reason, and the reason
      is the message of the first check that rejects. */
  function Status(w: Wallet): (r: WalletStatus)
    ensures r.ready <==> r.reason.None?
    ensures r.ready <==> forall c :: !Fails(c, w)
    ensures !r.ready ==> exists c :: Fails(c, w) && r.reason == Some(CheckMessage(c, w))
  {
    FirstFailureWins(w, NoChainId);
    match FirstFailure(w)
    case None => WalletStatus(true, None)
    case Some(c) => WalletStatus(false, Some(CheckMessage(c, w)))
  }

  /** An unknown chain (no id, or 0) never blocks: once the first five
      checks pass the wallet is ready; and a wrong-network reason is only
      ever given for a known chain. */
  lemma UnknownChainPasses(w: Wallet)
    ensures !ChainKnown(w) && (forall c :: c != ChainMismatch ==> !Fails(c, w)) ==> Status(w).ready
    ensures FirstFailure(w) == Some(ChainMismatch) ==> ChainKnown(w)
  {
  }

  /** `validateWalletClients`. */
  function Validate(w: Wallet): (r: Option<Thrown>)
    ensures r.None? <==> Status(w).ready
  {
    var s := Status(w);
    if !s.ready then Some(Error(s.reason.GetOr("Wallet not ready."))) else None
  }

  // ---------------------------------------------------------------------
  // request

  /** A response as `request` sees it; `contentType` is `None` when the
      header is absent. */
  datatype HttpResponse = HttpResponse(ok: bool, status: nat, contentType: Option<string>, body: string)

  function RequestFailed(status: nat): string
  {
    "Request failed (" + Decimal.NatToString(status) + ")"
  }

  /** The message `request` throws for a failed response. A JSON body
      gives its truthy `error` field, a string as is and any other value as
      `render` writes it (`String(value)`); anything else falls back to the
      status. */
  function RequestErrorMessage(r: HttpResponse, render: Json -> string): (m: string)
    ensures !Contains(r.contentType.GetOr(""), "application/json") ==>
              m == (if r.body != [] then r.body else RequestFailed(r.status))
  {
    if Contains(r.contentType.GetOr(""), "application/json") then
      match Parse(r.body)
      case Some(JObject(ms)) =>
        (match LastMember(ms, "error")
         case Some(v) =>
           if !Truthy(v) then RequestFailed(r.status)
           else if v.JString? then v.text
           else render(v)
         case None => RequestFailed(r.status))
      case _ => RequestFailed(r.status)
    else if r.body != [] then r.body
    else RequestFailed(r.status)
  }

  /** The `{ error }` body the API routes answer with reaches the caller as
      the thrown message, word for word. */
  lemma RouteErrorReachesClient(status: nat, contentType: string, message: string, render: Json -> string)
    requires Contains(contentType, "application/json") && message != []
    ensures RequestErrorMessage(HttpResponse(false, status, Some(contentType), StringifyStringMember("error", message)), render)
         == message
  {
    var r := HttpResponse(false, status, Some(contentType), StringifyStringMember("error", message));
    ParseStringMember("error", message);
    LastMemberSingle("error", JString(message));
    RequestErrorOfPayload(r, render, [("error", JString(message))], message);
  }

  /** A JSON failure body is read through its parsed `error` member. */
  lemma RequestErrorOfPayload(r: HttpResponse, render: Json -> string, ms: seq<(string, Json)>, text: string)
    requires Contains(r.contentType.GetOr(""), "application/json") && Parse(r.body) == Some(JObject(ms))
    requires LastMember(ms, "error") == Some(JString(text)) && text != []
    ensures RequestErrorMessage(r, render) == text
  {
    assert Truthy(JString(text));
  }

  /** A non-JSON failure with an empty body, or a JSON body without a
      truthy `error`, reports the status. */
  lemma RequestFallsBackToStatus(r: HttpResponse, render: Json -> string)
    requires Contains(r.contentType.GetOr(""), "application/json")
    requires Parse(r.body).None? || !Parse(r.body).value.JObject?
             || LastMember(Parse(r.body).value.members, "error").None?
             || !Truthy(LastMember(Parse(r.body).value.members, "error").value)
    ensures RequestErrorMessage(r, render) == RequestFailed(r.status)
  {
  }

  // ---------------------------------------------------------------------
  // The hook's state and its transitions

  /** `CompilationStatus`. */
  datatype CompilationStatus = Idle | Generated | Compiling | Compiled | Deployed | Failed

  /** `CompilationResult`; the ABI is kept as parsed JSON. */
  datatype Artifact = Artifact(abi: Json, bytecode: string, contractName: Option<string>)

  /** The state the hook keeps between calls. */
  datatype Hook = Hook(
    generatedCode: string,
    status: CompilationStatus,
    artifact: Option<Artifact>,
    deployedAddress: Option<string>,
    registrationHash: Option<string>,
    error: Option<string>,
    deployPhase: Feedback.Phase,
    registerPhase: Feedback.Phase,
    savedAgents: seq<string>)

  /** The generate route's reply; `None` stands for `undefined` or `null`. */
  datatype GenerateReply = GenerateReply(code: Option<string>, source: Option<string>)

  const NoGeneratedCode: string := "Generation API returned no code"

  /** `generateAgent`: `code ?? source` must be a non-empty string; any
      failure is formatted into `error` and the status becomes `error`. */
  function Generate(h: Hook, reply: Result<GenerateReply, Thrown>): (r: Hook)
    ensures r.status == Generated || r.status == Failed
    ensures r.savedAgents == h.savedAgents && r.deployedAddress == h.deployedAddress
  {
    var failure :=
      match reply
      case Err(e) => Some(e)
      case Ok(g) =>
        var code := if g.code.Some? then g.code else g.source;
        if code.None? || code.value == [] then Some(Error(NoGeneratedCode)) else None;
    match failure
    case Some(e) => h.(error := Some(WalletErrors.FormatWalletError(e)), status := Failed)
    case None =>
      var g := reply.value;
      var code := if g.code.Some? then g.code.value else g.source.value;
      h.(generatedCode := code, status := Generated, artifact := None, error := None)
  }

  /** Generation succeeds exactly when the reply holds a non-empty
      `code`, or, with `code` absent, a non-empty `source`; the code kept is
      that one and any earlier artifact is dropped. */
  lemma GenerateOutcome(h: Hook, reply: Result<GenerateReply, Thrown>)
    ensures var r := Generate(h, reply);
            (r.status == Generated <==>
               reply.Ok? && ((reply.value.code.Some? && reply.value.code.value != [])
                             || (reply.value.code.None? && reply.value.source.Some? && reply.value.source.value != [])))
            && (r.status == Generated ==>
                  r.artifact.None? && r.error.None?
                  && r.generatedCode == (if reply.value.code.Some? then reply.value.code.value else reply.value.source.value))
            && (r.status == Failed ==> r.error.Some? && r.generatedCode == h.generatedCode && r.artifact == h.artifact)
  {
  }

  /** The compile route's reply; `abi` is `None` when absent. */
  datatype CompileReply = CompileReply(abi: Option<Json>, bytecode: Option<string>, contractName: Option<string>)

  const IncompleteArtifacts: string := "Compilation API returned incomplete artifacts"

  /** `compileAgent`: a reply without a truthy `abi` or without a
      non-empty `bytecode` is an error. */
  function Compile(h: Hook, reply: Result<CompileReply, Thrown>): (r: Hook)
    ensures r.status == Compiled || r.status == Failed
    ensures r.generatedCode == h.generatedCode && r.savedAgents == h.savedAgents
  {
    var failure :=
      match reply
      case Err(e) => Some(e)
      case Ok(c) =>
        if c.abi.None? || !Truthy(c.abi.value) || c.bytecode.None? || c.bytecode.value == []
        then Some(Error(IncompleteArtifacts)) else None;
    match failure
    case Some(e) => h.(error := Some(WalletErrors.FormatWalletError(e)), status := Failed)
    case None =>
      var c := reply.value;
      h.(artifact := Some(Artifact(c.abi.value, c.bytecode.value, c.contractName)), status := Compiled, error := None)
  }

  /** Compilation succeeds exactly when both artifacts came back, and then
      the artifact is exactly the reply's. */
  lemma CompileOutcome(h: Hook, reply: Result<CompileReply, Thrown>)
    ensures var r := Compile(h, reply);
            (r.status == Compiled <==>
               reply.Ok? && reply.value.abi.Some? && Truthy(reply.value.abi.value)
               && reply.value.bytecode.Some? && reply.value.bytecode.value != [])
            && (r.status == Compiled ==>
                  r.artifact == Some(Artifact(reply.value.abi.value, reply.value.bytecode.value, reply.value.contractName)))
            && (r.status == Failed ==> r.error.Some? && r.artifact == h.artifact)
  {
  }

  /** The calls a deploy or register makes, in order: the fee read
      (`getGasOverrides`), the write, and the receipt wait. */
  datatype Chain = Chain(
    feeRead: Result<(), Thrown>,
    write: Result<string, Thrown>,
    wait: Receipt.ReceiptRequest -> Result<Receipt.TxReceipt, Thrown>)

  /** Which of those calls were made. */
  datatype Effects = Effects(feeRead: bool, written: bool)

  const NoContractAddress: string := "Contract address not found"

  /** The failure that stops a deploy, if any, the calls made, and the
      deployed address otherwise. */
  function DeploySteps(w: Wallet, c: Chain): (r: (Result<string, Thrown>, Effects))
    ensures r.1.feeRead ==> Status(w).ready
    ensures r.1.written ==> r.1.feeRead && c.feeRead.Ok?
  {
    match Validate(w)
    case Some(e) => (Err(e), Effects(false, false))
    case None =>
      match c.feeRead
      case Err(e) => (Err(e), Effects(true, false))
      case Ok(_) =>
        match c.write
        case Err(e) => (Err(e), Effects(true, true))
        case Ok(hash) =>
          match Receipt.WaitForReceipt(w.hasPublicClient, hash, c.wait)
          case Err(e) => (Err(e), Effects(true, true))
          case Ok(receipt) =>
            if receipt.contractAddress.None? || receipt.contractAddress.value == [] then
              (Err(Error(NoContractAddress)), Effects(true, true))
            else (Ok(receipt.contractAddress.value), Effects(true, true))
  }

  /** `deployAgent`: on success the address is recorded, saved through
      `addSavedAgent` and the status becomes `deployed`; on failure the
      formatted message is kept and the phase follows it. */
  function Deploy(h: Hook, b: AgentStore.Browser, w: Wallet, c: Chain): (r: (Hook, AgentStore.Browser, Effects))
    ensures r.1 == b || r.0.deployPhase == Feedback.Success
  {
    var (outcome, effects) := DeploySteps(w, c);
    match outcome
    case Ok(address) =>
      var (b', saved) := AgentStore.Add(b, address);
      (h.(deployedAddress := Some(address), status := Deployed, savedAgents := saved,
          deployPhase := Feedback.Success, error := None), b', effects)
    case Err(e) =>
      var message := WalletErrors.FormatWalletError(e);
      (h.(error := Some(message), status := Failed, deployPhase := Feedback.FailurePhase(message)), b, effects)
  }

  /** A wallet that is not ready stops a deploy before any fee read or
      write, with the formatted status reason as the error. */
  lemma DeployBlockedUntilReady(h: Hook, b: AgentStore.Browser, w: Wallet, c: Chain)
    requires !Status(w).ready
    ensures var (r, b', effects) := Deploy(h, b, w, c);
            effects == Effects(false, false) && b' == b
            && r.error == Some(WalletErrors.FormatMessage(Status(w).reason.value))
            && r.status == Failed
  {
  }

  /** A deploy succeeds exactly when every call succeeded and the receipt
      names a contract address; that address is then deployed and saved,
      and otherwise the phase is a timeout exactly when the error says so. */
  lemma DeployOutcome(h: Hook, b: AgentStore.Browser, w: Wallet, c: Chain)
    ensures var (r, b', effects) := Deploy(h, b, w, c);
            var steps := DeploySteps(w, c).0;
            (r.deployPhase == Feedback.Success <==> steps.Ok?)
            && (steps.Ok? ==>
                  r.deployedAddress == Some(steps.value) && r.status == Deployed
                  && AgentStore.HasAddress(r.savedAgents, AgentStore.Normalize(steps.value))
                  && (b.hasWindow ==> AgentStore.Load(b') == r.savedAgents))
            && (steps.Err? ==>
                  r.error.Some? && b' == b && r.status == Failed
                  && (r.deployPhase == Feedback.Timeout <==> Contains(Lower(r.error.value), "timeout")))
  {
    var steps := DeploySteps(w, c).0;
    if steps.Ok? && b.hasWindow {
      AgentStore.AddStores(b, steps.value);
    } else if steps.Ok? {
      assert AgentStore.Normalize(AgentStore.Add(b, steps.value).1[0]) == AgentStore.Normalize(steps.value);
    }
  }

  /** The register flow: no contract address is needed and the status is
      left alone. */
  function Register(h: Hook, w: Wallet, c: Chain): (r: (Hook, Effects))
    ensures r.0.status == h.status && r.0.savedAgents == h.savedAgents
  {
    var (outcome, effects) := RegisterSteps(w, c);
    match outcome
    case Ok(hash) => (h.(registrationHash := Some(hash), registerPhase := Feedback.Success, error := None), effects)
    case Err(e) =>
      var message := WalletErrors.FormatWalletError(e);
      (h.(error := Some(message), registerPhase := Feedback.FailurePhase(message)), effects)
  }

  function RegisterSteps(w: Wallet, c: Chain): (r: (Result<string, Thrown>, Effects))
    ensures r.1.feeRead ==> Status(w).ready
    ensures r.1.written ==> r.1.feeRead && c.feeRead.Ok?
  {
    match Validate(w)
    case Some(e) => (Err(e), Effects(false, false))
    case None =>
      match c.feeRead
      case Err(e) => (Err(e), Effects(true, false))
      case Ok(_) =>
        match c.write
        case Err(e) => (Err(e), Effects(true, true))
        case Ok(hash) =>
          match Receipt.WaitForReceipt(w.hasPublicClient, hash, c.wait)
          case Err(e) => (Err(e), Effects(true, true))
          case Ok(_) => (Ok(hash), Effects(true, true))
  }

  /** Registration succeeds exactly when the write's receipt arrives, and
      records the write's hash; a wallet that is not ready makes no call. */
  lemma RegisterOutcome(h: Hook, w: Wallet, c: Chain)
    ensures var (r, effects) := Register(h, w, c);
            (!Status(w).ready ==> effects == Effects(false, false) && r.registerPhase != Feedback.Success)
            && (r.registerPhase == Feedback.Success <==>
                  Status(w).ready && c.feeRead.Ok? && c.write.Ok?
                  && Receipt.WaitForReceipt(true, c.write.value, c.wait).Ok?)
            && (r.registerPhase == Feedback.Success ==> r.registrationHash == Some(c.write.value))
  {
  }

  /** The hook's first render: nothing generated, every phase idle, and
      the saved agents read from storage. */
  function Mount(b: AgentStore.Browser): (r: Hook)
    ensures r.status == Idle && r.deployPhase == Feedback.Idle && r.registerPhase == Feedback.Idle
    ensures AgentStore.AllLowerCase(r.savedAgents)
  {
    Hook([], Idle, None, None, None, None, Feedback.Idle, Feedback.Idle, AgentStore.Load(b))
  }

  /** The hook's `removeSavedAgent`: the list shown becomes the one
      `removeSavedAgent` returns. */
  function RemoveSaved(h: Hook, b: AgentStore.Browser, address: string): (r: (Hook, AgentStore.Browser))
    ensures !AgentStore.HasAddress(r.0.savedAgents, AgentStore.Normalize(address))
    ensures r.0 == h.(savedAgents := r.0.savedAgents)
    ensures b.hasWindow ==> r.0.savedAgents == AgentStore.Load(r.1)
  {
    var (b', next) := AgentStore.Remove(b, address);
    if b.hasWindow then
      AgentStore.RemoveStores(b, address);
      (h.(savedAgents := next), b')
    else (h.(savedAgents := next), b')
  }

  /** A deploy followed by removing the deployed address leaves the list
      the browser held before, when the address was new to it. */
  lemma RemoveUndoesDeploy(h: Hook, b: AgentStore.Browser, w: Wallet, c: Chain)
    requires b.hasWindow && DeploySteps(w, c).0.Ok?
    requires !AgentStore.HasAddress(AgentStore.Load(b), AgentStore.Normalize(DeploySteps(w, c).0.value))
    ensures var (r, b', _) := Deploy(h, b, w, c);
            RemoveSaved(r, b', DeploySteps(w, c).0.value).0.savedAgents == AgentStore.Load(b)
  {
    AgentStore.RemoveUndoesAdd(b, DeploySteps(w, c).0.value);
  }
}
