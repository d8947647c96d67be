/** The generate API route (POST /api/agents/generate): it forwards the
    trimmed prompt to an OpenRouter chat completion and answers with the
    code of the first choice, stripped of Markdown fences. The upstream
    service is a parameter. */
module GenerateRoute {
  import opened Wrappers
  import opened Text
  import opened Json
  import Thrown
  import Decimal
  import AgentDeploy

  const MissingPrompt: string := "Missing prompt"
  const MissingApiKey: string := "Missing OpenRouter API key"
  const NoCode: string := "Model returned no code"

  /** The content type `new Response(text)` answers with. */
  const PlainText: string := "text/plain;charset=UTF-8"

  function UpstreamFailed(status: nat): string
  {
    "OpenRouter request failed (" + Decimal.NatToString(status) + ")"
  }

  /** The upstream call as a function of the trimmed prompt: the response,
      or what `fetch` rejects with (an unreachable host, a refused
      connection, a malformed base URL). */
  type Upstream = string -> Result<AgentDeploy.HttpResponse, Thrown.Thrown>

  /** The route's answers: the code as `{ code }`, a plain-text error with
      its status, or a rejection the handler does not catch (a TypeError
      from `.replace`, or `fetch` failing; Next.js then answers 500 on its
      own). */
  datatype GenerateResponse =
    | Generated(code: string)
    | Failure(status: nat, text: string)
    | Uncaught

  // ---------------------------------------------------------------------
  // Markdown fences

  predicate IsLetter(c: char)
  {
    'a' <= c <= 'z' || 'A' <= c <= 'Z'
  }

  /** Three backticks start at index `i` of `s`. */
  predicate FenceAt(s: string, i: int)
  {
    0 <= i && i + 3 <= |s| && s[i] == '`' && s[i + 1] == '`' && s[i + 2] == '`'
  }

  predicate HasFence(s: string)
  {
    exists i :: 0 <= i < |s| && FenceAt(s, i)
  }

  /** The length of the run of letters `s` starts with. */
  function LetterRun(s: string): (n: nat)
    ensures n <= |s|
    ensures forall i :: 0 <= i < n ==> IsLetter(s[i])
    ensures n < |s| ==> !IsLetter(s[n])
  {
    if s != [] && IsLetter(s[0]) then 1 + LetterRun(s[1..]) else 0
  }

  /** `s.replace(/```[a-z]*\n?/gi, '')`: scanning left to right, each run of
      three backticks goes together with the letters of either case that
      follow it and one line feed after those. */
  function RemoveOpeners(s: string): (r: string)
    ensures |r| <= |s|
    decreases |s|
  {
    if s == [] then []
    else if FenceAt(s, 0) then
      var t := s[3..];
      var u := t[LetterRun(t)..];
      RemoveOpeners(if u != [] && u[0] == '\n' then u[1..] else u)
    else [s[0]] + RemoveOpeners(s[1..])
  }

  /** `s.replace(/```/g, '')`. */
  function RemoveFences(s: string): (r: string)
    ensures |r| <= |s|
    decreases |s|
  {
    if s == [] then []
    else if FenceAt(s, 0) then RemoveFences(s[3..])
    else [s[0]] + RemoveFences(s[1..])
  }

  /** The route's clean-up of the model's answer: both replacements, then
      `trim`. */
  function StripFences(raw: string): (r: string)
    ensures IsTrimmed(r) && !HasFence(r)
  {
    RemoveFencesClean(RemoveOpeners(raw));
    TrimKeepsNoFence(RemoveFences(RemoveOpeners(raw)));
    Trim(RemoveFences(RemoveOpeners(raw)))
  }

  /** An empty answer stays empty. */
  lemma StripFencesEmpty()
    ensures StripFences([]) == []
  {
    assert RemoveOpeners([]) == [];
    assert RemoveFences([]) == [];
  }

  /** The number of backticks `s` starts with. */
  function Ticks(s: string): nat
  {
    if s != [] && s[0] == '`' then 1 + Ticks(s[1..]) else 0
  }

  lemma TicksOfFence(s: string)
    requires FenceAt(s, 0)
    ensures Ticks(s) == 3 + Ticks(s[3..])
  {
    assert Ticks(s) == 1 + Ticks(s[1..]);
    assert Ticks(s[1..]) == 1 + Ticks(s[1..][1..]);
    assert Ticks(s[1..][1..]) == 1 + Ticks(s[1..][1..][1..]);
    assert s[1..][1..][1..] == s[3..];
  }

  /** A character put before a fence-free text makes no fence, unless it is
      a backtick and the text starts with two. */
  lemma ConsNoFence(c: char, t: string)
    requires !HasFence(t) && (c != '`' || Ticks(t) < 2)
    ensures !HasFence([c] + t)
  {
    var s := [c] + t;
    forall i | FenceAt(s, i)
      ensures false
    {
      if i == 0 {
        assert t[0] == '`' && t[1] == '`';
        assert Ticks(t[1..]) >= 1;
      } else {
        assert FenceAt(t, i - 1);
      }
    }
  }

  /** After the global removal no fence is left, and the result starts
      with no more backticks than the input did. */
  lemma {:induction false} RemoveFencesClean(s: string)
    ensures !HasFence(RemoveFences(s))
    ensures Ticks(RemoveFences(s)) <= Ticks(s)
    decreases |s|
  {
    if s == [] {
    } else if FenceAt(s, 0) {
      RemoveFencesClean(s[3..]);
      TicksOfFence(s);
    } else {
      var t := RemoveFences(s[1..]);
      RemoveFencesClean(s[1..]);
      if s[0] == '`' {
        assert !(s[1..] != [] && s[1] == '`' && s[1..][1..] != [] && s[2] == '`');
        assert Ticks(s[1..]) < 2;
      }
      ConsNoFence(s[0], t);
    }
  }

  /** A slice of a fence-free text is fence-free. */
  lemma SliceKeepsNoFence(s: string, i: nat, j: nat)
    requires i <= j <= |s| && !HasFence(s)
    ensures !HasFence(s[i..j])
  {
    var r := s[i..j];
    forall k | 0 <= k < |r| && FenceAt(r, k)
      ensures false
    {
      assert FenceAt(s, i + k);
    }
  }

  lemma TrimKeepsNoFence(s: string)
    requires !HasFence(s)
    ensures !HasFence(Trim(s))
  {
    var t := TrimStart(s);
    SliceKeepsNoFence(s, |s| - |t|, |s|);
    assert s[|s| - |t|..|s|] == t;
    var r := TrimEnd(t);
    SliceKeepsNoFence(t, 0, |r|);
    assert Trim(s) == r;
  }

  /** `HasFence` is `includes('```')`. */
  lemma HasFenceIsContains(s: string)
    ensures HasFence(s) <==> Contains(s, "```")
  {
    var f := "```";
    if HasFence(s) {
      var i :| 0 <= i < |s| && FenceAt(s, i);
      assert s[i..i + 3] == f;
      assert OccursAt(s, f, i);
    }
    if Contains(s, f) {
      var i :| 0 <= i <= |s| - |f| && OccursAt(s, f, i);
      assert s[i..i + 3][0] == s[i] && s[i..i + 3][1] == s[i + 1] && s[i..i + 3][2] == s[i + 2];
      assert FenceAt(s, i);
    }
  }

  /** A character other than a backtick is kept by both removals. */
  lemma PlainStep(c: char, t: string)
    requires c != '`'
    ensures RemoveOpeners([c] + t) == [c] + RemoveOpeners(t)
    ensures RemoveFences([c] + t) == [c] + RemoveFences(t)
  {
    var s := [c] + t;
    assert s[0] == c && s[1..] == t;
    assert !FenceAt(s, 0);
  }

  /** Text without backticks passes both removals unchanged. */
  lemma {:induction false} PlainPrefix(a: string, b: string)
    requires '`' !in a
    ensures RemoveOpeners(a + b) == a + RemoveOpeners(b)
    ensures RemoveFences(a + b) == a + RemoveFences(b)
    decreases |a|
  {
    if a == [] {
      assert a + b == b;
    } else {
      var t := a[1..] + b;
      assert a + b == [a[0]] + t;
      assert a[0] in a;
      PlainStep(a[0], t);
      PlainPrefix(a[1..], b);
      assert [a[0]] + (a[1..] + RemoveOpeners(b)) == a + RemoveOpeners(b);
      assert [a[0]] + (a[1..] + RemoveFences(b)) == a + RemoveFences(b);
    }
  }

  lemma {:induction false} LetterRunOf(lang: string, rest: string)
    requires forall i :: 0 <= i < |lang| ==> IsLetter(lang[i])
    requires rest != [] && !IsLetter(rest[0])
    ensures LetterRun(lang + rest) == |lang|
    decreases |lang|
  {
    var s := lang + rest;
    if lang == [] {
      assert s == rest;
    } else {
      assert s[0] == lang[0] && IsLetter(s[0]);
      assert s[1..] == lang[1..] + rest;
      LetterRunOf(lang[1..], rest);
    }
  }

  /** The cleanup the fences are there for: an answer that is one fenced
      block, with or without a language tag, yields the code inside it,
      trimmed. Code without backticks is just trimmed. */
  lemma FencedBlock(lang: string, code: string)
    requires forall i :: 0 <= i < |lang| ==> IsLetter(lang[i])
    requires '`' !in code
    ensures StripFences("```" + lang + "\n" + code + "```") == Trim(code)
    ensures StripFences(code) == Trim(code)
  {
    var fence := "```";
    var e: string := [];
    var s := fence + lang + "\n" + code + fence;
    assert FenceAt(s, 0);
    var t := s[3..];
    assert t == lang + ("\n" + code + fence);
    LetterRunOf(lang, "\n" + code + fence);
    var u := t[LetterRun(t)..];
    assert u == "\n" + code + fence;
    assert u[1..] == code + fence;
    PlainPrefix(code, fence);
    assert FenceAt(fence, 0);
    assert fence[3..] == e;
    assert LetterRun(e) == 0;
    assert RemoveOpeners(fence) == [];
    assert RemoveOpeners(s) == code;
    PlainPrefix(code, e);
    assert code + e == code;
  }

  // ---------------------------------------------------------------------
  // The handler

  /** `body?.prompt` when it is a string, trimmed; anything else is blank. */
  function PromptOf(body: Option<Json>): (r: string)
    ensures IsTrimmed(r)
  {
    match body
    case Some(j) =>
      (match Property(j, "prompt")
       case Some(JString(prompt)) => Trim(prompt)
       case _ => [])
    case None => []
  }

  /** `a ?? b` on optional JSON values: `null` and absence both fall
      through. */
  function Coalesce(a: Option<Json>, b: Option<Json>): (r: Option<Json>)
    ensures r.Some? ==> r.value != JNull
  {
    if a.Some? && a.value != JNull then a
    else if b.Some? && b.value != JNull then b
    else None
  }

  /** `parseErrorMessage` followed by `|| 'OpenRouter request failed (…)'`:
      a JSON body gives its `error`, else its `message`; a string is used as
      is and any other truthy value as `render` writes it; any other body
      is used as text; an empty result falls back to the status. */
  function UpstreamError(r: AgentDeploy.HttpResponse, render: Json -> string): (m: string)
    ensures !Contains(r.contentType.GetOr(""), "application/json") ==>
              m == (if r.body != [] then r.body else UpstreamFailed(r.status))
  {
    if Contains(r.contentType.GetOr(""), "application/json") then
      var payload := Parse(r.body);
      var v :=
        if payload.None? then None
        else Coalesce(Property(payload.value, "error"), Property(payload.value, "message"));
      if v.None? || !Truthy(v.value) then UpstreamFailed(r.status)
      else if v.value.JString? then v.value.text
      else render(v.value)
    else if r.body != [] then r.body
    else UpstreamFailed(r.status)
  }

  /** `data?.choices?.[0]?.message?.content`: the first entry of an array,
      or the member named `0` of an object. Any other value has no `message`
      member to read. */
  function ContentOf(data: Option<Json>): (r: Option<Json>)
  {
    if data.None? then None
    else
      var first :=
        match Property(data.value, "choices")
        case Some(JArray(items)) => if items == [] then None else Some(items[0])
        case Some(JObject(ms)) => LastMember(ms, "0")
        case _ => None;
      if first.None? then None
      else
        var message := Property(first.value, "message");
        if message.None? then None else Property(message.value, "content")
  }

  /** The handler: the request body (`None` when it is not JSON), the
      configured API key, and the upstream call as a function of the
      trimmed prompt. */
  function Handle(body: Option<Json>, apiKey: Option<string>,
                  upstream: Upstream, render: Json -> string): (r: GenerateResponse)
    ensures PromptOf(body) == [] ==> r == Failure(400, MissingPrompt)
    ensures PromptOf(body) != [] && (apiKey.None? || apiKey.value == []) ==> r == Failure(500, MissingApiKey)
    ensures r.Generated? ==> r.code != [] && IsTrimmed(r.code) && !HasFence(r.code)
    ensures PromptOf(body) != [] && apiKey.Some? && apiKey.value != [] && upstream(PromptOf(body)).Err? ==> r == Uncaught
  {
    var prompt := PromptOf(body);
    if prompt == [] then Failure(400, MissingPrompt)
    else if apiKey.None? || apiKey.value == [] then Failure(500, MissingApiKey)
    else if upstream(prompt).Err? then Uncaught
    else
      var response := upstream(prompt).value;
      if !response.ok then Failure(response.status, UpstreamError(response, render))
      else
        var content := ContentOf(Parse(response.body));
        if content.Some? && content.value != JNull && !content.value.JString? then Uncaught
        else
          var raw := if content.Some? && content.value.JString? then content.value.text else [];
          var code := StripFences(raw);
          if code == [] then Failure(502, NoCode) else Generated(code)
  }

  /** Without a prompt or without a key the upstream service is never
      called: the answer does not depend on it. */
  lemma RefusedWithoutCalling(body: Option<Json>, apiKey: Option<string>,
                              upstream: Upstream,
                              other: Upstream, render: Json -> string)
    requires PromptOf(body) == [] || apiKey.None? || apiKey.value == []
    ensures Handle(body, apiKey, upstream, render) == Handle(body, apiKey, other, render)
    ensures Handle(body, apiKey, upstream, render).Failure?
  {
  }

  /** An upstream failure is passed on with the upstream status and the
      message read from it. */
  lemma UpstreamFailurePassedOn(body: Option<Json>, apiKey: Option<string>,
                                upstream: Upstream, render: Json -> string)
    requires PromptOf(body) != [] && apiKey.Some? && apiKey.value != []
    requires upstream(PromptOf(body)).Ok? && !upstream(PromptOf(body)).value.ok
    ensures var response := upstream(PromptOf(body)).value;
            Handle(body, apiKey, upstream, render) == Failure(response.status, UpstreamError(response, render))
  {
  }

  /** An ok reply is answered from `choices[0].message.content`: a string
      is stripped of its fences and sent as `{ code }`, or refused with 502
      when nothing is left; an absent or null content reads as the empty
      string; any other content makes `.replace` throw. */
  lemma ReplyAnswered(body: Option<Json>, apiKey: Option<string>,
                      upstream: Upstream, render: Json -> string)
    requires PromptOf(body) != [] && apiKey.Some? && apiKey.value != []
    requires upstream(PromptOf(body)).Ok? && upstream(PromptOf(body)).value.ok
    ensures var content := ContentOf(Parse(upstream(PromptOf(body)).value.body));
            var r := Handle(body, apiKey, upstream, render);
            (content.None? || content.value == JNull ==> r == Failure(502, NoCode))
            && (content.Some? && content.value.JString? ==>
                  r == if StripFences(content.value.text) == [] then Failure(502, NoCode)
                       else Generated(StripFences(content.value.text)))
            && (content.Some? && content.value != JNull && !content.value.JString? ==> r == Uncaught)
  {
    var content := ContentOf(Parse(upstream(PromptOf(body)).value.body));
    var r := Handle(body, apiKey, upstream, render);
    if content.Some? && content.value.JString? {
      assert r == if StripFences(content.value.text) == [] then Failure(502, NoCode)
                  else Generated(StripFences(content.value.text));
    } else if content.None? || content.value == JNull {
      StripFencesEmpty();
      assert r == Failure(502, NoCode);
    } else {
      assert r == Uncaught;
    }
  }

  /** A JSON failure body is read through its parsed value. */
  lemma UpstreamErrorOfPayload(r: AgentDeploy.HttpResponse, render: Json -> string, j: Json, text: string)
    requires Contains(r.contentType.GetOr(""), "application/json") && Parse(r.body) == Some(j)
    requires Coalesce(Property(j, "error"), Property(j, "message")) == Some(JString(text))
    ensures UpstreamError(r, render) == if text != [] then text else UpstreamFailed(r.status)
  {
  }

  /** The only member of a one-member object is what `?? ` reads when it is
      named `error` or `message`. */
  lemma CoalesceSingle(key: string, v: Json)
    requires (key == "error" || key == "message") && v != JNull
    ensures Coalesce(Property(JObject([(key, v)]), "error"), Property(JObject([(key, v)]), "message")) == Some(v)
  {
    LastMemberSingle(key, v);
    if key == "message" {
      assert LastMember([(key, v)], "error") == None;
    }
  }

  /** A JSON error body of the form `{ "error": text }` or
      `{ "message": text }` is passed on as that text; an empty text falls
      back to the status. */
  lemma UpstreamJsonError(status: nat, contentType: string, key: string, text: string, render: Json -> string)
    requires Contains(contentType, "application/json") && (key == "error" || key == "message")
    ensures UpstreamError(AgentDeploy.HttpResponse(false, status, Some(contentType), StringifyStringMember(key, text)), render)
         == if text != [] then text else UpstreamFailed(status)
  {
    var r := AgentDeploy.HttpResponse(false, status, Some(contentType), StringifyStringMember(key, text));
    var j := JObject([(key, JString(text))]);
    ParseStringMember(key, text);
    CoalesceSingle(key, JString(text));
    UpstreamErrorOfPayload(r, render, j, text);
  }

  /** Code the route answers with is never empty, never holds a fence and
      is trimmed. */
  lemma CodeIsClean(body: Option<Json>, apiKey: Option<string>,
                    upstream: Upstream, render: Json -> string)
    requires Handle(body, apiKey, upstream, render).Generated?
    ensures var code := Handle(body, apiKey, upstream, render).code;
            code != [] && IsTrimmed(code) && !Contains(code, "```")
  {
    HasFenceIsContains(Handle(body, apiKey, upstream, render).code);
  }

  /** The client's `generateAgent` takes the code the route answers with
      as the generated code. */
  lemma CodeReachesStudio(h: AgentDeploy.Hook, body: Option<Json>, apiKey: Option<string>,
                          upstream: Upstream, render: Json -> string)
    requires Handle(body, apiKey, upstream, render).Generated?
    ensures var code := Handle(body, apiKey, upstream, render).code;
            var g := AgentDeploy.Generate(h, Ok(AgentDeploy.GenerateReply(Some(code), None)));
            g.status == AgentDeploy.Generated && g.generatedCode == code
  {
    var code := Handle(body, apiKey, upstream, render).code;
    AgentDeploy.GenerateOutcome(h, Ok(AgentDeploy.GenerateReply(Some(code), None)));
  }

  /** A plain-text failure reaches the client's `request` as the thrown
      message, word for word. */
  lemma FailureReachesClient(status: nat, text: string, render: Json -> string)
    requires text != []
    ensures AgentDeploy.RequestErrorMessage(AgentDeploy.HttpResponse(false, status, Some(PlainText), text), render)
         == text
  {
    var json := "application/json";
    assert json[12] == 'j';
    NotContainsByChar(PlainText, json, 12);
  }
}
