/** The agent studio page (AgentStudio.tsx): the checks each of its four
    buttons makes before it calls the deploy hook, and the toast it raises
    with what the hook returns. */
module Studio {
  import opened Wrappers
  import opened Text
  import Thrown
  import Decimal
  import AgentStore
  import AgentDeploy
  import opened Feedback

  const EnterPrompt: string := "Enter a prompt to generate an agent"
  const GenerateFirst: string := "Generate an agent before compiling"
  const ConnectWallet: string := "Connect your wallet from the navigation bar"
  const CompileFirst: string := "Compile your agent before deploying"
  const DeployFirst: string := "Deploy your agent before registering"
  const EnterBattleId: string := "Enter a battle ID to register"
  const AgentGenerated: string := "Agent generated"
  const CompilationSucceeded: string := "Compilation succeeded"
  const AgentRegistered: string := "Agent registered in battle"

  function AgentDeployed(address: string): string
  {
    "Agent deployed: " + address
  }

  /** One click: the hook's state and the browser storage afterwards, the
      chain calls made, the toasts raised, and whether the hook was called
      at all. */
  datatype Step = Step(
    hook: AgentDeploy.Hook,
    browser: AgentStore.Browser,
    effects: AgentDeploy.Effects,
    toasts: seq<Toast>,
    called: bool)

  /** A click that stops at one of the page's own checks. */
  function Refuse(h: AgentDeploy.Hook, b: AgentStore.Browser, message: string): (r: Step)
    ensures !r.called && r.hook == h && r.browser == b && r.toasts == [ToastError(message)]
    ensures r.effects == AgentDeploy.Effects(false, false)
  {
    Step(h, b, AgentDeploy.Effects(false, false), [ToastError(message)], false)
  }

  /** `handleGenerate`: a prompt that trims to nothing is refused; any other
      prompt is sent as typed, untrimmed. */
  function HandleGenerate(h: AgentDeploy.Hook, b: AgentStore.Browser, prompt: string,
                          generate: string -> Result<AgentDeploy.GenerateReply, Thrown.Thrown>): (r: Step)
    ensures r.called <==> !AllSpace(prompt)
    ensures !r.called ==> r.hook == h && r.toasts == [ToastError(EnterPrompt)]
    ensures r.called ==> r.hook == AgentDeploy.Generate(h, generate(prompt))
    ensures r.called ==> (r.toasts == [ToastSuccess(AgentGenerated)] <==> r.hook.status == AgentDeploy.Generated)
    ensures r.called ==> (r.toasts == [] <==> r.hook.status == AgentDeploy.Failed)
    ensures r.browser == b && r.effects == AgentDeploy.Effects(false, false)
  {
    TrimEmptyIffAllSpace(prompt);
    if Trim(prompt) == [] then Refuse(h, b, EnterPrompt)
    else
      var h' := AgentDeploy.Generate(h, generate(prompt));
      var toasts := if h'.status == AgentDeploy.Generated then [ToastSuccess(AgentGenerated)] else [];
      Step(h', b, AgentDeploy.Effects(false, false), toasts, true)
  }

  /** `handleCompile`: nothing generated yet is refused; otherwise the
      generated code is compiled. */
  function HandleCompile(h: AgentDeploy.Hook, b: AgentStore.Browser,
                         compile: string -> Result<AgentDeploy.CompileReply, Thrown.Thrown>): (r: Step)
    ensures r.called <==> h.generatedCode != []
    ensures !r.called ==> r.hook == h && r.toasts == [ToastError(GenerateFirst)]
    ensures r.called ==> r.hook == AgentDeploy.Compile(h, compile(h.generatedCode))
    ensures r.called ==> (r.toasts == [ToastSuccess(CompilationSucceeded)] <==> r.hook.status == AgentDeploy.Compiled)
    ensures r.called ==> (r.toasts == [] <==> r.hook.status == AgentDeploy.Failed)
    ensures r.browser == b && r.effects == AgentDeploy.Effects(false, false)
  {
    if h.generatedCode == [] then Refuse(h, b, GenerateFirst)
    else
      var h' := AgentDeploy.Compile(h, compile(h.generatedCode));
      var toasts := if h'.status == AgentDeploy.Compiled then [ToastSuccess(CompilationSucceeded)] else [];
      Step(h', b, AgentDeploy.Effects(false, false), toasts, true)
  }

  /** `handleDeploy`: the wallet must be connected, then an artifact must
      be compiled; a deploy that returns an address announces it. */
  function HandleDeploy(h: AgentDeploy.Hook, b: AgentStore.Browser, w: AgentDeploy.Wallet, c: AgentDeploy.Chain): (r: Step)
    ensures r.called <==> w.isConnected && h.status == AgentDeploy.Compiled && h.artifact.Some?
    ensures !w.isConnected ==> r.toasts == [ToastError(ConnectWallet)]
    ensures w.isConnected && !r.called ==> r.toasts == [ToastError(CompileFirst)]
    ensures !r.called ==> r.hook == h && r.browser == b && r.effects == AgentDeploy.Effects(false, false)
    ensures r.called ==> (r.hook, r.browser, r.effects) == AgentDeploy.Deploy(h, b, w, c)
    ensures r.called && r.hook.deployPhase == Feedback.Success ==>
              r.hook.deployedAddress.Some? && r.toasts == [ToastSuccess(AgentDeployed(r.hook.deployedAddress.value))]
    ensures r.called && r.hook.deployPhase != Feedback.Success ==> r.toasts == []
  {
    if !w.isConnected then Refuse(h, b, ConnectWallet)
    else if h.status != AgentDeploy.Compiled || h.artifact.None? then Refuse(h, b, CompileFirst)
    else
      var (h', b', effects) := AgentDeploy.Deploy(h, b, w, c);
      AgentDeploy.DeployOutcome(h, b, w, c);
      var toasts :=
        if h'.deployPhase == Feedback.Success then [ToastSuccess(AgentDeployed(h'.deployedAddress.value))] else [];
      Step(h', b', effects, toasts, true)
  }

  /** `handleRegister`: a connected wallet, a deployed address and a battle
      id that `BigInt` accepts once trimmed, checked in that order. The
      message of the SyntaxError `BigInt` throws is the engine's and is
      given by `syntaxError`. The second result is the id sent. */
  function HandleRegister(h: AgentDeploy.Hook, b: AgentStore.Browser, w: AgentDeploy.Wallet, c: AgentDeploy.Chain,
                          battleId: string, syntaxError: string -> string): (r: (Step, Option<int>))
    ensures r.0.called <==> r.1.Some?
    ensures r.0.called <==>
              w.isConnected && h.deployedAddress.Some? && h.deployedAddress.value != []
              && !AllSpace(battleId) && Decimal.ParseBigInt(battleId).Some?
    ensures r.0.called ==> r.1 == Decimal.ParseBigInt(battleId) && r.0 == SendRegister(h, b, w, c)
    ensures !r.0.called ==> r.0.hook == h && r.0.browser == b && r.0.effects == AgentDeploy.Effects(false, false)
  {
    TrimEmptyIffAllSpace(battleId);
    Decimal.ParseTrimmed(battleId);
    var id := Trim(battleId);
    if !w.isConnected then (Refuse(h, b, ConnectWallet), None)
    else if h.deployedAddress.None? || h.deployedAddress.value == [] then (Refuse(h, b, DeployFirst), None)
    else if id == [] then (Refuse(h, b, EnterBattleId), None)
    else
      var parsed := Decimal.ParseBigInt(id);
      assert parsed == Decimal.ParseBigInt(battleId);
      match parsed
      case None => (Refuse(h, b, syntaxError(id)), None)
      case Some(n) => (SendRegister(h, b, w, c), Some(n))
  }

  /** The register click once every check has passed. */
  function SendRegister(h: AgentDeploy.Hook, b: AgentStore.Browser, w: AgentDeploy.Wallet, c: AgentDeploy.Chain): (r: Step)
    ensures r.called && r.browser == b
    ensures (r.hook, r.effects) == AgentDeploy.Register(h, w, c)
    ensures r.toasts == [ToastSuccess(AgentRegistered)] <==>
              r.hook.registerPhase == Feedback.Success && c.write.value != []
    ensures r.toasts != [ToastSuccess(AgentRegistered)] ==> r.toasts == []
  {
    var (h', effects) := AgentDeploy.Register(h, w, c);
    AgentDeploy.RegisterOutcome(h, w, c);
    var toasts :=
      if h'.registerPhase == Feedback.Success && c.write.value != [] then [ToastSuccess(AgentRegistered)] else [];
    Step(h', b, effects, toasts, true)
  }

  /** The checks of a register click fail in order, each with its own
      message, and the first that fails is the one shown. */
  lemma RegisterRefusals(h: AgentDeploy.Hook, b: AgentStore.Browser, w: AgentDeploy.Wallet, c: AgentDeploy.Chain,
                         battleId: string, syntaxError: string -> string)
    ensures var toasts := HandleRegister(h, b, w, c, battleId, syntaxError).0.toasts;
            var deployed := h.deployedAddress.Some? && h.deployedAddress.value != [];
            (!w.isConnected ==> toasts == [ToastError(ConnectWallet)])
            && (w.isConnected && !deployed ==> toasts == [ToastError(DeployFirst)])
            && (w.isConnected && deployed && AllSpace(battleId) ==> toasts == [ToastError(EnterBattleId)])
            && (w.isConnected && deployed && !AllSpace(battleId) && Decimal.ParseBigInt(battleId).None? ==>
                  toasts == [ToastError(syntaxError(Trim(battleId)))])
  {
    var deployed := h.deployedAddress.Some? && h.deployedAddress.value != [];
    var r := HandleRegister(h, b, w, c, battleId, syntaxError).0;
    if !w.isConnected {
      assert r == Refuse(h, b, ConnectWallet);
    } else if !deployed {
      assert r == Refuse(h, b, DeployFirst);
    } else {
      var id := Trim(battleId);
      TrimEmptyIffAllSpace(battleId);
      if AllSpace(battleId) {
        assert id == [];
        assert r == Refuse(h, b, EnterBattleId);
      } else if Decimal.ParseBigInt(battleId).None? {
        Decimal.ParseTrimmed(battleId);
        assert id != [] && Decimal.ParseBigInt(id).None?;
        assert r == Refuse(h, b, syntaxError(id));
      }
    }
  }

  /** A generate click that produced code lets the next compile click
      through. */
  lemma GenerateEnablesCompile(h: AgentDeploy.Hook, b: AgentStore.Browser, prompt: string,
                               generate: string -> Result<AgentDeploy.GenerateReply, Thrown.Thrown>,
                               compile: string -> Result<AgentDeploy.CompileReply, Thrown.Thrown>)
    requires HandleGenerate(h, b, prompt, generate).toasts == [ToastSuccess(AgentGenerated)]
    ensures var g := HandleGenerate(h, b, prompt, generate).hook;
            HandleCompile(g, b, compile).called && g.generatedCode != []
  {
    AgentDeploy.GenerateOutcome(h, generate(prompt));
  }

  /** A compile click that succeeded lets a deploy click through once the
      wallet is connected. */
  lemma CompileEnablesDeploy(h: AgentDeploy.Hook, b: AgentStore.Browser,
                             compile: string -> Result<AgentDeploy.CompileReply, Thrown.Thrown>,
                             w: AgentDeploy.Wallet, c: AgentDeploy.Chain)
    requires HandleCompile(h, b, compile).toasts == [ToastSuccess(CompilationSucceeded)]
    requires w.isConnected
    ensures HandleDeploy(HandleCompile(h, b, compile).hook, b, w, c).called
  {
    AgentDeploy.CompileOutcome(h, compile(h.generatedCode));
  }

  /** After a deploy click that announced an address, a register click with
      any integer typed as `toString` writes it is sent with that integer. */
  lemma DeployEnablesRegister(h: AgentDeploy.Hook, b: AgentStore.Browser, w: AgentDeploy.Wallet, c: AgentDeploy.Chain,
                              c2: AgentDeploy.Chain, id: int, syntaxError: string -> string)
    requires HandleDeploy(h, b, w, c).called && HandleDeploy(h, b, w, c).hook.deployPhase == Feedback.Success
    ensures var d := HandleDeploy(h, b, w, c);
            HandleRegister(d.hook, d.browser, w, c2, Decimal.IntToString(id), syntaxError).1 == Some(id)
  {
    var d := HandleDeploy(h, b, w, c);
    assert d.hook.deployedAddress.Some? && d.hook.deployedAddress.value != [] by {
      AgentDeploy.DeployOutcome(h, b, w, c);
    }
    var s := Decimal.IntToString(id);
    assert Decimal.ParseBigInt(s) == Some(id) && !AllSpace(s) by {
      Decimal.ParseIntToString(id);
      TrimEmptyIffAllSpace(s);
    }
    RegisterSendsParsed(d.hook, d.browser, w, c2, s, syntaxError);
  }

  /** Once the wallet is connected and an address deployed, a battle id
      that `BigInt` accepts is sent as the integer it denotes. */
  lemma RegisterSendsParsed(h: AgentDeploy.Hook, b: AgentStore.Browser, w: AgentDeploy.Wallet, c: AgentDeploy.Chain,
                            battleId: string, syntaxError: string -> string)
    requires w.isConnected && h.deployedAddress.Some? && h.deployedAddress.value != []
    requires !AllSpace(battleId) && Decimal.ParseBigInt(battleId).Some?
    ensures HandleRegister(h, b, w, c, battleId, syntaxError).1 == Decimal.ParseBigInt(battleId)
  {
  }
}
