/** The compile API route (POST /api/agents/compile): it compiles the
    posted Solidity with solc and answers with the first contract that has
    bytecode and the three functions of the agent interface, or a 400 that
    says why not. solc itself is a parameter, and may throw. */
module CompileRoute {
  import opened Wrappers
  import opened Text
  import opened Json
  import Thrown
  import AgentDeploy

  /** The functions every agent contract must expose. */
  const RequiredFunctions: set<string> := {"attack", "getName", "owner"}

  const CodeRequired: string := "Solidity code is required"
  const UnknownCompilerError: string := "Unknown compiler error"
  const NoAgentContract: string := "No contract with required IAgent functions found"

  /** `entry?.type === 'function' && entry?.name === name`. */
  predicate IsFunctionNamed(entry: Json, name: string)
  {
    Property(entry, "type") == Some(JString("function")) && Property(entry, "name") == Some(JString(name))
  }

  /** `hasRequiredFunctions`: the ABI is an array and, for every required
      name, some entry is a function of that name. */
  predicate HasRequiredFunctions(abi: Option<Json>)
  {
    && abi.Some? && abi.value.JArray?
    && forall name :: name in RequiredFunctions ==>
         exists i :: 0 <= i < |abi.value.items| && IsFunctionNamed(abi.value.items[i], name)
  }

  /** The names of the functions an ABI declares, gathered entry by entry. */
  function FunctionNames(items: seq<Json>): (r: set<string>)
    ensures forall name :: name in r <==> exists i :: 0 <= i < |items| && IsFunctionNamed(items[i], name)
  {
    if items == [] then {}
    else
      var rest := FunctionNames(items[1..]);
      var here :=
        match Property(items[0], "name")
        case Some(JString(n)) => if Property(items[0], "type") == Some(JString("function")) then {n} else {}
        case _ => {};
      assert forall i :: 1 <= i < |items| ==> items[1..][i - 1] == items[i];
      assert forall name :: IsFunctionNamed(items[0], name) <==> name in here;
      here + rest
  }

  /** The required-function test is inclusion of the required names among
      the declared function names. */
  lemma HasRequiredFunctionsIff(abi: Option<Json>)
    ensures HasRequiredFunctions(abi) <==>
              abi.Some? && abi.value.JArray? && RequiredFunctions <= FunctionNames(abi.value.items)
  {
  }

  /** One entry of solc's `errors`; `None` stands for a missing field. */
  datatype Diagnostic = Diagnostic(severity: Option<string>, formattedMessage: Option<string>, message: Option<string>)

  /** One contract of `Agent.sol` in solc's output: its `abi` and its
      `evm.bytecode.object`. */
  datatype SolcArtifact = SolcArtifact(abi: Option<Json>, bytecodeObject: Option<string>)

  /** solc's standard-JSON output: `errors` when it is an array, and the
      contracts of `Agent.sol` in the order `Object.entries` lists them
      (empty when there are none). */
  datatype SolcOutput = SolcOutput(errors: Option<seq<Diagnostic>>, contracts: seq<(string, SolcArtifact)>)

  /** `JSON.parse(solc.compile(…))` as a function of the trimmed source:
      the output, or what the compiler or the parse throws. */
  type Solc = string -> Result<SolcOutput, Thrown.Thrown>

  /** The route's answers: a compiled contract, an error status with the
      `{ error }` body, or a throw the handler does not catch (Next.js
      then answers 500 on its own). */
  datatype CompileResponse =
    | Compiled(abi: Json, bytecode: string, contractName: string)
    | Rejected(status: nat, error: string)
    | Uncaught

  /** `formattedMessage ?? message ?? 'Unknown compiler error'`. */
  function DiagnosticText(d: Diagnostic): (r: string)
    ensures d.formattedMessage.Some? ==> r == d.formattedMessage.value
    ensures d.formattedMessage.None? && d.message.Some? ==> r == d.message.value
    ensures d.formattedMessage.None? && d.message.None? ==> r == UnknownCompilerError
  {
    if d.formattedMessage.Some? then d.formattedMessage.value
    else if d.message.Some? then d.message.value
    else UnknownCompilerError
  }

  predicate IsError(d: Diagnostic)
  {
    d.severity == Some("error")
  }

  /** The texts of the diagnostics whose severity is `error`, in order. */
  function ErrorTexts(ds: seq<Diagnostic>): (r: seq<string>)
    ensures |r| <= |ds|
    ensures r == [] <==> forall i :: 0 <= i < |ds| ==> !IsError(ds[i])
    ensures forall i :: 0 <= i < |ds| && IsError(ds[i]) ==> DiagnosticText(ds[i]) in r
  {
    if ds == [] then []
    else
      var rest := ErrorTexts(ds[1..]);
      assert forall i :: 1 <= i < |ds| ==> ds[1..][i - 1] == ds[i];
      if IsError(ds[0]) then [DiagnosticText(ds[0])] + rest else rest
  }

  /** One diagnostic gives its text when it is an error and nothing
      otherwise. */
  lemma ErrorTextsSingle(d: Diagnostic)
    ensures ErrorTexts([d]) == if IsError(d) then [DiagnosticText(d)] else []
  {
    assert [d][1..] == [];
  }

  /** The filter distributes over concatenation: only error texts appear,
      each once per error, in diagnostic order. */
  lemma {:induction false} ErrorTextsAppend(a: seq<Diagnostic>, b: seq<Diagnostic>)
    ensures ErrorTexts(a + b) == ErrorTexts(a) + ErrorTexts(b)
  {
    if a == [] {
      assert a + b == b;
    } else {
      assert (a + b)[1..] == a[1..] + b;
      ErrorTextsAppend(a[1..], b);
    }
  }

  /** A contract worth answering with: a truthy bytecode object and the
      required functions. */
  predicate Qualifies(a: SolcArtifact)
  {
    a.bytecodeObject.Some? && a.bytecodeObject.value != [] && HasRequiredFunctions(a.abi)
  }

  /** The position of the first element satisfying `p`, if any. */
  function FirstWhere<T>(xs: seq<T>, p: T -> bool): (r: Option<nat>)
    ensures r.Some? ==> r.value < |xs| && p(xs[r.value])
    ensures r.Some? ==> forall j :: 0 <= j < r.value ==> !p(xs[j])
    ensures r.None? <==> forall i :: 0 <= i < |xs| ==> !p(xs[i])
  {
    if xs == [] then None
    else if p(xs[0]) then Some(0)
    else
      var rest := FirstWhere(xs[1..], p);
      assert forall i :: 1 <= i < |xs| ==> xs[1..][i - 1] == xs[i];
      if rest.Some? then Some(rest.value + 1) else None
  }

  /** Reference definition: the position of the first contract that
      qualifies, if any. */
  function FirstQualifying(contracts: seq<(string, SolcArtifact)>): (r: Option<nat>)
    ensures r.Some? ==> r.value < |contracts| && Qualifies(contracts[r.value].1)
    ensures r.Some? ==> forall j :: 0 <= j < r.value ==> !Qualifies(contracts[j].1)
    ensures r.None? <==> forall i :: 0 <= i < |contracts| ==> !Qualifies(contracts[i].1)
  {
    FirstWhere(contracts, (c: (string, SolcArtifact)) => Qualifies(c.1))
  }

  /** The answer for the contract at position i. */
  function AnswerAt(contracts: seq<(string, SolcArtifact)>, i: nat): CompileResponse
    requires i < |contracts| && Qualifies(contracts[i].1)
  {
    Compiled(contracts[i].1.abi.value, "0x" + contracts[i].1.bytecodeObject.value, contracts[i].0)
  }

  /** The loop over the contracts: the first that qualifies, with its
      bytecode prefixed by `0x`. The `0x` test of the loop is kept as
      written. */
  function FirstAgent(contracts: seq<(string, SolcArtifact)>): (r: Option<CompileResponse>)
    ensures var k := FirstQualifying(contracts);
            r == if k.Some? then Some(AnswerAt(contracts, k.value)) else None
  {
    if contracts == [] then None
    else
      var (name, artifact) := contracts[0];
      var rest := FirstAgent(contracts[1..]);
      if !Qualifies(artifact) then
        var k := FirstQualifying(contracts[1..]);
        assert k.Some? ==> contracts[1..][k.value] == contracts[k.value + 1];
        rest
      else
        var bytecode := "0x" + artifact.bytecodeObject.value;
        assert |bytecode| > 2;
        if bytecode == "0x" then rest
        else Some(Compiled(artifact.abi.value, bytecode, name))
  }

  /** `body?.code` when it is a string, trimmed; anything else is blank. */
  function CodeOf(body: Option<Json>): (r: string)
    ensures IsTrimmed(r)
  {
    match body
    case Some(j) =>
      (match Property(j, "code")
       case Some(JString(code)) => Trim(code)
       case _ => [])
    case None => []
  }

  /** The route: the request body (`None` when it is not JSON), and solc as
      a function of the trimmed source. */
  function Handle(body: Option<Json>, solc: Solc): (r: CompileResponse)
    ensures CodeOf(body) == [] ==> r == Rejected(400, CodeRequired)
    ensures CodeOf(body) != [] && solc(CodeOf(body)).Err? ==> r == Uncaught
  {
    var code := CodeOf(body);
    if code == [] then Rejected(400, CodeRequired)
    else if solc(code).Err? then Uncaught
    else
      var output := solc(code).value;
      var errors := if output.errors.Some? then ErrorTexts(output.errors.value) else [];
      if errors != [] then Rejected(400, Join(errors, "\n"))
      else
        match FirstAgent(output.contracts)
        case Some(compiled) => compiled
        case None => Rejected(400, NoAgentContract)
  }

  /** Blank code is refused before solc runs: the answer does not depend on
      the compiler. */
  lemma BlankCodeSkipsCompiler(body: Option<Json>, solc: Solc, other: Solc)
    requires CodeOf(body) == []
    ensures Handle(body, solc) == Handle(body, other) == Rejected(400, CodeRequired)
  {
  }

  /** A compile error rejects the code, and the message is the texts of the
      errors joined by newlines, so it holds the text of every error. */
  lemma ErrorsReject(body: Option<Json>, solc: Solc, i: nat)
    requires CodeOf(body) != []
    requires solc(CodeOf(body)).Ok?
    requires var output := solc(CodeOf(body)).value;
             output.errors.Some? && i < |output.errors.value| && IsError(output.errors.value[i])
    ensures Handle(body, solc).Rejected? && Handle(body, solc).status == 400
    ensures Contains(Handle(body, solc).error, DiagnosticText(solc(CodeOf(body)).value.errors.value[i]))
    ensures Handle(body, solc) == Rejected(400, Join(ErrorTexts(solc(CodeOf(body)).value.errors.value), "\n"))
  {
    var ds := solc(CodeOf(body)).value.errors.value;
    JoinContains(ErrorTexts(ds), "\n");
    var k :| 0 <= k < |ErrorTexts(ds)| && ErrorTexts(ds)[k] == DiagnosticText(ds[i]);
  }

  /** Warnings and other non-error diagnostics never reject: without an
      error the answer is the first agent contract, or the 400 that none
      was found. */
  lemma WarningsDoNotReject(body: Option<Json>, solc: Solc)
    requires CodeOf(body) != []
    requires solc(CodeOf(body)).Ok?
    requires var output := solc(CodeOf(body)).value;
             output.errors.Some? ==> forall i :: 0 <= i < |output.errors.value| ==> !IsError(output.errors.value[i])
    ensures var first := FirstAgent(solc(CodeOf(body)).value.contracts);
            Handle(body, solc) == if first.Some? then first.value else Rejected(400, NoAgentContract)
  {
  }

  /** A contract the route answers with has the agent interface and a
      non-empty bytecode behind the `0x`. */
  lemma AnswerIsAgent(body: Option<Json>, solc: Solc)
    requires Handle(body, solc).Compiled?
    ensures var r := Handle(body, solc);
            HasRequiredFunctions(Some(r.abi)) && Text.StartsWith(r.bytecode, "0x") && |r.bytecode| > 2
  {
    var contracts := solc(CodeOf(body)).value.contracts;
    var r := Handle(body, solc);
    AnswerIsFirstAgent(body, solc);
    var i := FirstAgentIndex(contracts);
    var a := contracts[i].1;
    assert Some(r.abi) == a.abi;
    assert r.bytecode[..2] == "0x";
  }

  /** The contract answered with is the first of solc's output that
      qualifies. */
  lemma AnswerIsFirstAgent(body: Option<Json>, solc: Solc)
    requires Handle(body, solc).Compiled?
    ensures FirstAgent(solc(CodeOf(body)).value.contracts) == Some(Handle(body, solc))
  {
  }

  /** The position of the contract `FirstAgent` picks. */
  lemma FirstAgentIndex(contracts: seq<(string, SolcArtifact)>) returns (i: nat)
    requires FirstAgent(contracts).Some?
    ensures i < |contracts| && Qualifies(contracts[i].1)
    ensures forall j :: 0 <= j < i ==> !Qualifies(contracts[j].1)
    ensures FirstAgent(contracts).value
              == Compiled(contracts[i].1.abi.value, "0x" + contracts[i].1.bytecodeObject.value, contracts[i].0)
  {
    i := FirstQualifying(contracts).value;
  }

  /** A contract is answered with exactly when some contract qualifies. */
  lemma FirstAgentIff(contracts: seq<(string, SolcArtifact)>)
    ensures FirstAgent(contracts).Some? <==> exists i :: 0 <= i < |contracts| && Qualifies(contracts[i].1)
  {
    if FirstAgent(contracts).Some? {
      var i := FirstAgentIndex(contracts);
    }
  }

  /** The client's `compileAgent` accepts every contract the route answers
      with. */
  lemma AnswerCompilesInStudio(h: AgentDeploy.Hook, body: Option<Json>, solc: Solc)
    requires Handle(body, solc).Compiled?
    ensures var r := Handle(body, solc);
            AgentDeploy.Compile(h, Ok(AgentDeploy.CompileReply(Some(r.abi), Some(r.bytecode), Some(r.contractName)))).status
              == AgentDeploy.Compiled
  {
    var r := Handle(body, solc);
    AnswerIsAgent(body, solc);
    assert Truthy(r.abi);
    var reply := AgentDeploy.CompileReply(Some(r.abi), Some(r.bytecode), Some(r.contractName));
    AgentDeploy.CompileOutcome(h, Ok(reply));
  }

  /** A rejection reaches the client's `request` as the thrown message,
      word for word, whenever it is not empty. */
  lemma RejectionReachesClient(body: Option<Json>, solc: Solc, contentType: string,
                               render: Json -> string)
    requires Handle(body, solc).Rejected? && Handle(body, solc).error != []
    requires Contains(contentType, "application/json")
    ensures var r := Handle(body, solc);
            AgentDeploy.RequestErrorMessage(
              AgentDeploy.HttpResponse(false, r.status, Some(contentType), StringifyStringMember("error", r.error)),
              render) == r.error
  {
    var r := Handle(body, solc);
    AgentDeploy.RouteErrorReachesClient(r.status, contentType, r.error, render);
  }
}
