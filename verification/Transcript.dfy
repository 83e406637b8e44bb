/**
 The tool-calling turn loop and its stateful owner: what a transcript looks like
 whatever the model and the tools do.
 */
module Transcript {
  datatype Result<+T> = Ok(value: T) | Err(error: string)

  datatype ToolCall = ToolCall(id: string, name: string, arguments: string)

  // One item of a model response or assistant message. `Rest` is what the loop drops:
  // reasoning, images.
  datatype Content = Text(text: string) | Call(call: ToolCall) | Rest

  datatype Message =
    | User(text: string)
    | Assistant(contents: seq<Content>)
    | ToolResult(id: string, content: string)

  type History = seq<Message>

  // The model may answer differently each time, so it also gets the number of the
  // call. So does a tool.
  type Completer = (nat, History) -> Result<seq<Content>>

  datatype Tool = Tool(name: string, call: (nat, string) -> Result<string>)

  // What `Agent::new` sets.
  const DEFAULT_ROUNDS: nat := 8

  const MAX_ROUNDS_ERROR := "agent exceeded the maximum number of tool-call rounds"
  const NOTHING_ERROR := "agent produced neither text nor a tool call"

  // --------------------------------------------------------------- response contents

  function TextIn(item: Content): seq<string> {
    if item.Text? then [item.text] else []
  }

  function CallIn(item: Content): seq<ToolCall> {
    if item.Call? then [item.call] else []
  }

  function Texts(items: seq<Content>): seq<string> {
    if items == [] then [] else TextIn(items[0]) + Texts(items[1..])
  }

  function Calls(items: seq<Content>): seq<ToolCall> {
    if items == [] then [] else CallIn(items[0]) + Calls(items[1..])
  }

  // `join("\n")`
  function Join(parts: seq<string>): string {
    if parts == [] then ""
    else if |parts| == 1 then parts[0]
    else parts[0] + "\n" + Join(parts[1..])
  }

  // The parts in order with one newline between any two of them.
  lemma {:induction false} JoinExact(a: seq<string>, b: seq<string>)
    ensures Join([]) == "" && forall t :: Join([t]) == t
    ensures a != [] && b != [] ==> Join(a + b) == Join(a) + "\n" + Join(b)
  {
    if |a| == 1 && b != [] {
      assert (a + b)[1..] == b;
    } else if |a| > 1 && b != [] {
      JoinExact(a[1..], b);
      assert (a + b)[1..] == a[1..] + b;
      assert Join(a + b) == a[0] + "\n" + (Join(a[1..]) + "\n" + Join(b));
    }
  }

  // Of one item, what is text and what is a call.
  lemma ItemsExact(t: string, c: ToolCall)
    ensures Texts([Text(t)]) == [t] && Texts([Call(c)]) == [] && Texts([Rest]) == [] == Texts([])
    ensures Calls([Text(t)]) == [] && Calls([Call(c)]) == [c] && Calls([Rest]) == [] == Calls([])
  {
    assert [Text(t)][1..] == [] && [Call(c)][1..] == [] && [Rest][1..] == [];
  }

  // The assistant message of a round: the texts, then the calls.
  function RoundContents(texts: seq<string>, calls: seq<ToolCall>): seq<Content> {
    seq(|texts|, i requires 0 <= i < |texts| => Text(texts[i]))
    + seq(|calls|, i requires 0 <= i < |calls| => Call(calls[i]))
  }

  lemma Regroup<T>(a: seq<T>, b: seq<T>, c: seq<T>)
    ensures a + (b + c) == (a + b) + c
  {
  }

  lemma FirstOfConcat<T>(a: seq<T>, b: seq<T>)
    requires a != []
    ensures (a + b)[0] == a[0] && (a + b)[1..] == a[1..] + b
  {
  }

  lemma {:induction false} CallsConcat(a: seq<Content>, b: seq<Content>)
    ensures Calls(a + b) == Calls(a) + Calls(b)
  {
    if a == [] {
      assert a + b == b;
    } else {
      CallsConcat(a[1..], b);
      FirstOfConcat(a, b);
      Regroup(CallIn(a[0]), Calls(a[1..]), Calls(b));
    }
  }

  lemma {:induction false} TextsConcat(a: seq<Content>, b: seq<Content>)
    ensures Texts(a + b) == Texts(a) + Texts(b)
  {
    if a == [] {
      assert a + b == b;
    } else {
      TextsConcat(a[1..], b);
      FirstOfConcat(a, b);
      Regroup(TextIn(a[0]), Texts(a[1..]), Texts(b));
    }
  }

  lemma OneMore(items: seq<Content>, i: nat)
    requires i < |items|
    ensures Texts(items[..i + 1]) == Texts(items[..i]) + TextIn(items[i])
    ensures Calls(items[..i + 1]) == Calls(items[..i]) + CallIn(items[i])
  {
    var one := [items[i]];
    assert items[..i + 1] == items[..i] + one;
    assert Texts(one) == TextIn(items[i]) + Texts([]) && Calls(one) == CallIn(items[i]) + Calls([]);
    TextsConcat(items[..i], one);
    CallsConcat(items[..i], one);
  }

  lemma {:induction false} CallsOfTexts(items: seq<Content>)
    requires forall i :: 0 <= i < |items| ==> items[i].Text?
    ensures Calls(items) == [] && |Texts(items)| == |items|
    ensures forall i :: 0 <= i < |items| ==> Texts(items)[i] == items[i].text
  {
    if items != [] { CallsOfTexts(items[1..]); }
  }

  lemma {:induction false} CallsOfCalls(items: seq<Content>)
    requires forall i :: 0 <= i < |items| ==> items[i].Call?
    ensures Texts(items) == [] && |Calls(items)| == |items|
    ensures forall i :: 0 <= i < |items| ==> Calls(items)[i] == items[i].call
  {
    if items != [] { CallsOfCalls(items[1..]); }
  }

  // No prose and no call of the response is lost.
  lemma RoundContentsExact(texts: seq<string>, calls: seq<ToolCall>)
    ensures Calls(RoundContents(texts, calls)) == calls && Texts(RoundContents(texts, calls)) == texts
  {
    var a := seq(|texts|, i requires 0 <= i < |texts| => Text(texts[i]));
    var b := seq(|calls|, i requires 0 <= i < |calls| => Call(calls[i]));
    CallsConcat(a, b);
    TextsConcat(a, b);
    CallsOfTexts(a);
    CallsOfCalls(b);
  }

  // --------------------------------------------------------------- the grammar

  // `results` answer `calls`, one each, in order.
  predicate Answers(results: History, calls: seq<ToolCall>) {
    && |results| == |calls|
    && forall i :: 0 <= i < |calls| ==> results[i].ToolResult? && results[i].id == calls[i].id
  }

  // The number of messages in the first round of a transcript.
  function Width(h: History): nat
    requires h != []
  {
    1 + if h[0].Assistant? then |Calls(h[0].contents)| else 0
  }

  // The first message is no result, and is followed by the results of its calls.
  predicate FirstRoundOk(h: History)
    requires h != []
  {
    && !h[0].ToolResult? && Width(h) <= |h|
    && forall x :: 1 <= x < Width(h) ==> h[x].ToolResult? && h[x].id == Calls(h[0].contents)[x - 1].id
  }

  // Each assistant message with k calls is followed at once by the k results, in
  // order; there are no other results.
  predicate Paired(h: History) {
    h == [] || (FirstRoundOk(h) && Paired(h[Width(h)..]))
  }

  lemma FirstRoundKept(a: History, b: History)
    requires a != [] && FirstRoundOk(a)
    ensures Width(a + b) == Width(a) && FirstRoundOk(a + b)
    ensures (a + b)[Width(a)..] == a[Width(a)..] + b
  {
    var h := a + b;
    assert forall x :: 0 <= x < |a| ==> h[x] == a[x];
  }

  lemma {:induction false} PairedConcat(a: History, b: History)
    requires Paired(a) && Paired(b)
    ensures Paired(a + b)
    decreases |a|
  {
    if a == [] {
      assert a + b == b;
    } else {
      PairedConcat(a[Width(a)..], b);
      FirstRoundKept(a, b);
    }
  }

  lemma PairedRound(contents: seq<Content>, results: History)
    requires Answers(results, Calls(contents))
    ensures Paired([Assistant(contents)] + results)
  {
    var h := [Assistant(contents)] + results;
    assert forall x :: 1 <= x < |h| ==> h[x] == results[x - 1];
    assert h[Width(h)..] == [];
  }

  // The same, read by position: results and calls match one to one.
  lemma {:induction false} PairedMeans(h: History, i: nat, j: nat)
    requires Paired(h) && i < |h| && h[i].Assistant? && j < |Calls(h[i].contents)|
    ensures i + 1 + j < |h| && h[i + 1 + j].ToolResult? && h[i + 1 + j].id == Calls(h[i].contents)[j].id
    decreases |h|
  {
    if i > 0 {
      var k := Width(h);
      assert i >= k;
      var rest := h[k..];
      assert rest[i - k] == h[i];
      PairedMeans(rest, i - k, j);
      assert rest[i - k + 1 + j] == h[i + 1 + j];
    } else {
      assert h[1 + j].ToolResult?;
    }
  }

  // The prompts of a transcript, in order.
  function Prompts(h: History): seq<string> {
    if h == [] then []
    else (if h[0].User? then [h[0].text] else []) + Prompts(h[1..])
  }

  lemma {:induction false} PromptsConcat(a: History, b: History)
    ensures Prompts(a + b) == Prompts(a) + Prompts(b)
  {
    if a == [] {
      assert a + b == b;
    } else {
      assert (a + b)[1..] == a[1..] + b;
      PromptsConcat(a[1..], b);
    }
  }

  lemma {:induction false} NoPrompts(h: History)
    requires forall i :: 0 <= i < |h| ==> !h[i].User?
    ensures Prompts(h) == []
  {
    if h != [] { NoPrompts(h[1..]); }
  }

  // --------------------------------------------------------------------- the loop

  // The first registered tool of that name, if any.
  function Dispatch(tools: seq<Tool>, n: nat, call: ToolCall): Result<string> {
    if tools == [] then Err("unknown tool: " + call.name)
    else if tools[0].name == call.name then tools[0].call(n, call.arguments)
    else Dispatch(tools[1..], n, call)
  }

  function ResultText(r: Result<string>): string {
    match r
    case Ok(s) => s
    case Err(e) => "tool error: " + e
  }

  // What the tools are given and what goes into the transcript. `n` is the number of
  // tool calls made before.
  function ResultsOf(tools: seq<Tool>, n: nat, calls: seq<ToolCall>): (h: History)
    ensures Answers(h, calls)
  {
    seq(|calls|, i requires 0 <= i < |calls| =>
      ToolResult(calls[i].id, ResultText(Dispatch(tools, n + i, calls[i]))))
  }

  // The first tool of that name is number `j`.
  predicate FirstNamed(tools: seq<Tool>, name: string, j: nat) {
    j < |tools| && tools[j].name == name && forall i :: 0 <= i < j ==> tools[i].name != name
  }

  // What the `n`-th call of a turn is answered with.
  ghost predicate ToolSays(tools: seq<Tool>, n: nat, call: ToolCall, content: string) {
    && (forall j: nat :: FirstNamed(tools, call.name, j) ==>
          match tools[j].call(n, call.arguments)
          case Ok(text) => content == text
          case Err(e) => content == "tool error: " + e)
    && ((forall j :: 0 <= j < |tools| ==> tools[j].name != call.name) ==>
          content == "tool error: unknown tool: " + call.name)
  }

  lemma {:induction false} DispatchFinds(tools: seq<Tool>, n: nat, call: ToolCall, j: nat)
    requires FirstNamed(tools, call.name, j)
    ensures Dispatch(tools, n, call) == tools[j].call(n, call.arguments)
  {
    if j > 0 {
      assert forall i :: 0 <= i < j ==> tools[1..][i] == tools[i + 1];
      DispatchFinds(tools[1..], n, call, j - 1);
    }
  }

  lemma {:induction false} DispatchMisses(tools: seq<Tool>, n: nat, call: ToolCall)
    requires forall j :: 0 <= j < |tools| ==> tools[j].name != call.name
    ensures Dispatch(tools, n, call) == Err("unknown tool: " + call.name)
  {
    if tools != [] { DispatchMisses(tools[1..], n, call); }
  }

  lemma UnknownTool(name: string)
    ensures "tool error: " + ("unknown tool: " + name) == "tool error: unknown tool: " + name
  {
  }

  lemma ResultSays(tools: seq<Tool>, n: nat, call: ToolCall)
    ensures ToolSays(tools, n, call, ResultText(Dispatch(tools, n, call)))
  {
    forall j: nat | FirstNamed(tools, call.name, j)
      ensures Dispatch(tools, n, call) == tools[j].call(n, call.arguments)
    {
      DispatchFinds(tools, n, call, j);
    }
    if forall j :: 0 <= j < |tools| ==> tools[j].name != call.name {
      DispatchMisses(tools, n, call);
      UnknownTool(call.name);
    }
  }

  // One answer, with the id of its call and what its tool says.
  ghost predicate AnswerSays(tools: seq<Tool>, n: nat, call: ToolCall, result: Message) {
    result.ToolResult? && result.id == call.id && ToolSays(tools, n, call, result.content)
  }

  // Each call is answered, in order.
  ghost predicate AnswersSay(tools: seq<Tool>, n: nat, calls: seq<ToolCall>, results: History) {
    |results| == |calls| && forall j :: 0 <= j < |calls| ==> AnswerSays(tools, n + j, calls[j], results[j])
  }

  lemma ResultsSay(tools: seq<Tool>, n: nat, calls: seq<ToolCall>)
    ensures AnswersSay(tools, n, calls, ResultsOf(tools, n, calls))
  {
    forall j | 0 <= j < |calls| ensures AnswerSays(tools, n + j, calls[j], ResultsOf(tools, n, calls)[j]) {
      ResultSays(tools, n + j, calls[j]);
    }
  }

  // One turn as the loop should run it: the outcome, and the transcripts the model saw.
  datatype Turn = Turn(outcome: Result<(string, History)>, seen: seq<History>)

  // How the loop takes a response: a text to return, calls to run, or a reason to stop.
  datatype Reply = Final(text: string) | Round(message: Message, calls: seq<ToolCall>) | Stop(error: string)

  function Read(choice: seq<Content>): Reply {
    var texts, calls := Texts(choice), Calls(choice);
    if calls != [] then Round(Assistant(RoundContents(texts, calls)), calls)
    else if Join(texts) == "" then Stop(NOTHING_ERROR)
    else Final(Join(texts))
  }

  // The assistant message of a round carries exactly the calls that are run.
  lemma ReadExact(choice: seq<Content>)
    ensures Read(choice).Round? ==>
              Read(choice).calls == Calls(choice) == Calls(Read(choice).message.contents)
              && Texts(Read(choice).message.contents) == Texts(choice) && Read(choice).message.Assistant?
    ensures Read(choice).Final? ==> Read(choice).text != ""
  {
    RoundContentsExact(Texts(choice), Calls(choice));
  }

  function Ask(complete: Completer, turn: nat, h: History): Reply {
    match complete(turn, h)
    case Err(e) => Stop(e)
    case Ok(choice) => Read(choice)
  }

  function AddRound(h: History, message: Message, results: History): History {
    h + [message] + results
  }

  // How a turn ends on a reply that is not a round.
  function EndOf(h: History, reply: Reply): Result<(string, History)>
    requires !reply.Round?
  {
    match reply
    case Final(text) => Ok((text, h + [Assistant([Text(text)])]))
    case Stop(e) => Err(e)
  }

  function RunFrom(complete: Completer, tools: seq<Tool>, rounds: nat, turn: nat, n: nat, h: History): Turn
    decreases rounds
  {
    if rounds == 0 then Turn(Err(MAX_ROUNDS_ERROR), [])
    else
      var reply := Ask(complete, turn, h);
      if !reply.Round? then Turn(EndOf(h, reply), [h])
      else
        var h' := AddRound(h, reply.message, ResultsOf(tools, n, reply.calls));
        Continued([h], RunFrom(complete, tools, rounds - 1, turn + 1, n + |reply.calls|, h'))
  }

  // A turn in whose earlier rounds the model saw `seen`.
  function Continued(seen: seq<History>, t: Turn): Turn {
    Turn(t.outcome, seen + t.seen)
  }

  // The model is asked at most `rounds` times, on strictly growing transcripts that
  // start from `h` and add complete rounds.
  ghost predicate GoodSeen(h: History, rounds: nat, seen: seq<History>) {
    && |seen| <= rounds
    && (seen != [] ==> seen[0] == h)
    && (forall i :: 0 <= i < |seen| ==> h <= seen[i] && Paired(seen[i][|h|..]))
    && (forall i, j :: 0 <= i < j < |seen| ==> seen[i] < seen[j])
  }

  predicate NoUser(h: History) {
    forall i :: 0 <= i < |h| ==> !h[i].User?
  }

  // A successful outcome extends `h` by complete rounds and one last message, which is
  // the non-empty text returned.
  predicate GoodOutcome(h: History, outcome: Result<(string, History)>) {
    outcome.Ok? ==>
      var (text, h') := outcome.value;
      && h < h' && Paired(h'[|h|..]) && NoUser(h'[|h|..])
      && text != "" && h'[|h'| - 1] == Assistant([Text(text)])
  }

  ghost predicate GoodTurn(h: History, rounds: nat, t: Turn) {
    GoodSeen(h, rounds, t.seen) && GoodOutcome(h, t.outcome)
  }

  // What `h'` adds to `h` starts with the round that it has after `h`.
  lemma RoundFirst(h: History, round: History, h': History)
    requires h + round <= h' && Paired(round) && Paired(h'[|h + round|..])
    ensures h <= h' && h'[|h|..] == round + h'[|h + round|..] && Paired(h'[|h|..])
  {
    assert h'[..|h + round|] == h + round;
    assert h'[|h|..] == round + h'[|h + round|..];
    PairedConcat(round, h'[|h + round|..]);
  }

  lemma SeenAfterRound(h: History, round: History, rounds: nat, seen: seq<History>)
    requires Paired(round) && round != [] && GoodSeen(h + round, rounds, seen)
    ensures GoodSeen(h, rounds + 1, [h] + seen)
  {
    var h1, all := h + round, [h] + seen;
    assert h[|h|..] == [];
    forall i | 0 <= i < |all| ensures h <= all[i] && Paired(all[i][|h|..]) {
      if i > 0 {
        assert all[i] == seen[i - 1];
        RoundFirst(h, round, seen[i - 1]);
      }
    }
    forall i, j | 0 <= i < j < |all| ensures all[i] < all[j] {
      assert all[j] == seen[j - 1] && h1 <= seen[j - 1];
      assert i > 0 ==> all[i] == seen[i - 1];
    }
  }

  lemma OutcomeAfterRound(h: History, round: History, outcome: Result<(string, History)>)
    requires Paired(round) && NoUser(round) && GoodOutcome(h + round, outcome)
    ensures GoodOutcome(h, outcome)
  {
    if outcome.Ok? { RoundFirst(h, round, outcome.value.1); }
  }

  lemma LastRound(h: History, text: string)
    requires text != ""
    ensures GoodOutcome(h, Ok((text, h + [Assistant([Text(text)])])))
  {
    var final := Assistant([Text(text)]);
    assert (h + [final])[|h|..] == [final];
    assert Calls([Text(text)]) == Calls([Text(text)][1..]) == [];
    PairedRound([Text(text)], []);
    assert [final] + [] == [final];
  }

  lemma GoodEnd(h: History, rounds: nat, reply: Reply)
    requires rounds > 0 && !reply.Round? && (reply.Final? ==> reply.text != "")
    ensures GoodTurn(h, rounds, Turn(EndOf(h, reply), [h]))
  {
    assert h[|h|..] == [];
    if reply.Final? { LastRound(h, reply.text); }
  }

  // A round of tool calls and the good turn after it.
  lemma GoodAfterRound(h: History, message: Message, results: History, rounds: nat, rest: Turn)
    requires message.Assistant? && Answers(results, Calls(message.contents))
    requires GoodTurn(AddRound(h, message, results), rounds, rest)
    ensures GoodTurn(h, rounds + 1, Continued([h], rest))
  {
    var round := [message] + results;
    PairedRound(message.contents, results);
    assert h + round == AddRound(h, message, results);
    SeenAfterRound(h, round, rounds, rest.seen);
    OutcomeAfterRound(h, round, rest.outcome);
  }

  // Every turn is good, whatever the model and the tools return.
  lemma {:induction false} EveryTurnGood(complete: Completer, tools: seq<Tool>, rounds: nat, turn: nat, n: nat,
                                         h: History)
    ensures GoodTurn(h, rounds, RunFrom(complete, tools, rounds, turn, n, h))
    decreases rounds
  {
    if rounds > 0 {
      var reply := Ask(complete, turn, h);
      if complete(turn, h).Ok? { ReadExact(complete(turn, h).value); }
      if reply.Round? {
        var results := ResultsOf(tools, n, reply.calls);
        var h' := AddRound(h, reply.message, results);
        EveryTurnGood(complete, tools, rounds - 1, turn + 1, n + |reply.calls|, h');
        GoodAfterRound(h, reply.message, results, rounds - 1,
                       RunFrom(complete, tools, rounds - 1, turn + 1, n + |reply.calls|, h'));
      } else {
        GoodEnd(h, rounds, reply);
      }
    }
  }

  // One round: the turn ends there or goes on with what it adds to the transcript.
  lemma ContinuesOrEnds(complete: Completer, tools: seq<Tool>, rounds: nat, turn: nat, n: nat, h: History,
                        seen: seq<History>, whole: Turn)
    requires rounds > 0 && whole == Continued(seen, RunFrom(complete, tools, rounds, turn, n, h))
    ensures var reply := Ask(complete, turn, h);
            whole == if reply.Round? then
                       Continued(seen + [h], RunFrom(complete, tools, rounds - 1, turn + 1, n + |reply.calls|,
                                                     AddRound(h, reply.message, ResultsOf(tools, n, reply.calls))))
                     else Turn(EndOf(h, reply), seen + [h])
  {
    var reply := Ask(complete, turn, h);
    if reply.Round? {
      var rest := RunFrom(complete, tools, rounds - 1, turn + 1, n + |reply.calls|,
                          AddRound(h, reply.message, ResultsOf(tools, n, reply.calls)));
      Regroup(seen, [h], rest.seen);
    }
  }

  // ------------------------------------------------------------- the code as written

  class Agent {
    const complete: Completer
    const tools: seq<Tool>
    const maxRounds: nat

    constructor (complete: Completer, tools: seq<Tool>, maxRounds: nat)
      ensures this.complete == complete && this.tools == tools && this.maxRounds == maxRounds
    {
      this.complete, this.tools, this.maxRounds := complete, tools, maxRounds;
    }

    // `dispatch`: a search for the first tool of that name.
    method DispatchCall(n: nat, call: ToolCall) returns (r: Result<string>)
      ensures r == Dispatch(tools, n, call)
      ensures forall j: nat :: FirstNamed(tools, call.name, j) ==> r == tools[j].call(n, call.arguments)
      ensures (forall j :: 0 <= j < |tools| ==> tools[j].name != call.name) ==> r == Err("unknown tool: " + call.name)
    {
      forall j: nat | FirstNamed(tools, call.name, j)
        ensures Dispatch(tools, n, call) == tools[j].call(n, call.arguments)
      {
        DispatchFinds(tools, n, call, j);
      }
      for i := 0 to |tools|
        invariant Dispatch(tools, n, call) == Dispatch(tools[i..], n, call)
      {
        if tools[i].name == call.name {
          return tools[i].call(n, call.arguments);
        }
        assert tools[i..][1..] == tools[i + 1..];
      }
      return Err("unknown tool: " + call.name);
    }

    // The response loop: texts and calls are collected in order.
    method Collect(choice: seq<Content>) returns (texts: seq<string>, calls: seq<ToolCall>)
      ensures texts == Texts(choice) && calls == Calls(choice)
    {
      texts, calls := [], [];
      for i := 0 to |choice|
        invariant texts == Texts(choice[..i]) && calls == Calls(choice[..i])
      {
        OneMore(choice, i);
        match choice[i] {
          case Text(t) => texts := texts + [t];
          case Call(c) => calls := calls + [c];
          case Rest =>
        }
      }
      assert choice[..|choice|] == choice;
    }

    method Interpret(choice: seq<Content>) returns (reply: Reply)
      ensures reply == Read(choice)
    {
      var texts, calls := Collect(choice);
      if calls != [] {
        return Round(Assistant(RoundContents(texts, calls)), calls);
      }
      var text := Join(texts);
      reply := if text == "" then Stop(NOTHING_ERROR) else Final(text);
    }

    // The calls of one response, in order.
    method RunCalls(n: nat, calls: seq<ToolCall>) returns (results: History)
      ensures results == ResultsOf(tools, n, calls) && AnswersSay(tools, n, calls, results)
    {
      ResultsSay(tools, n, calls);
      results := [];
      for i := 0 to |calls|
        invariant results == ResultsOf(tools, n, calls)[..i]
      {
        var r := DispatchCall(n + i, calls[i]);
        results := results + [ToolResult(calls[i].id, ResultText(r))];
      }
    }

    // `run_transcript`: what it computes, and what holds of it for every model and
    // every set of tools. `seen` is the transcripts the model was given.
    method RunTranscript(input: History) returns (outcome: Result<(string, History)>, seen: seq<History>)
      ensures Turn(outcome, seen) == RunFrom(complete, tools, maxRounds, 0, 0, input)
      ensures GoodTurn(input, maxRounds, Turn(outcome, seen))
      ensures Paired(input) && outcome.Ok? ==> Paired(outcome.value.1)
    {
      outcome, seen := RunRounds(input);
      EveryTurnGood(complete, tools, maxRounds, 0, 0, input);
      WholePaired(input, outcome);
    }

    // The loop of `run_transcript`.
    method RunRounds(input: History) returns (outcome: Result<(string, History)>, seen: seq<History>)
      ensures Turn(outcome, seen) == RunFrom(complete, tools, maxRounds, 0, 0, input)
    {
      var history := input;
      seen := [];
      var toolCalls: nat := 0;
      ghost var whole := RunFrom(complete, tools, maxRounds, 0, 0, input);
      assert whole == Continued([], whole);
      for round := 0 to maxRounds
        invariant whole == Continued(seen, RunFrom(complete, tools, maxRounds - round, round, toolCalls, history))
      {
        ContinuesOrEnds(complete, tools, maxRounds - round, round, toolCalls, history, seen, whole);
        var response := complete(round, history);
        seen := seen + [history];
        if response.Err? {
          return Err(response.error), seen;
        }
        var reply := Interpret(response.value);
        if reply.Stop? {
          return Err(reply.error), seen;
        }
        if reply.Final? {
          return Ok((reply.text, history + [Assistant([Text(reply.text)])])), seen;
        }
        var results := RunCalls(toolCalls, reply.calls);
        history := history + [reply.message] + results;
        toolCalls := toolCalls + |reply.calls|;
      }
      outcome := Err(MAX_ROUNDS_ERROR);
    }
  }

  lemma WholePaired(h: History, outcome: Result<(string, History)>)
    requires GoodOutcome(h, outcome)
    ensures Paired(h) && outcome.Ok? ==> Paired(outcome.value.1)
    ensures outcome.Ok? ==> Prompts(outcome.value.1) == Prompts(h)
  {
    if outcome.Ok? {
      var h' := outcome.value.1;
      assert h' == h + h'[|h|..];
      if Paired(h) { PairedConcat(h, h'[|h|..]); }
      PromptsConcat(h, h'[|h|..]);
      NoPrompts(h'[|h|..]);
    }
  }

  // -------------------------------------------------------- the owner of a conversation

  // The stateful agent: a transcript carried across turns. Building the model client
  // may fail, which ends the turn before anything is recorded.
  class AgentHandle {
    var tools: seq<Tool>
    var history: History
    ghost var submitted: seq<string>

    ghost predicate Valid()
      reads this
    {
      Paired(history) && Prompts(history) == submitted
    }

    constructor ()
      ensures Valid() && history == [] && tools == [] && submitted == []
    {
      tools, history, submitted := [], [], [];
    }

    method AddTool(tool: Tool)
      requires Valid()
      modifies this`tools
      ensures Valid() && tools == old(tools) + [tool]
    {
      tools := tools + [tool];
    }

    // `run`: over any mix of successful and failed turns the transcript stays paired and
    // holds every submitted prompt, in order. A failed turn leaves only its prompt.
    method Run(client: Result<Completer>, prompt: string) returns (reply: Result<string>)
      requires Valid()
      modifies this`history, this`submitted
      ensures Valid()
      ensures submitted == if client.Ok? then old(submitted) + [prompt] else old(submitted)
      ensures client.Err? ==> reply == Err(client.error) && history == old(history)
      ensures client.Ok? ==>
                var start := old(history) + [User(prompt)];
                match RunFrom(client.value, tools, 8, 0, 0, start).outcome
                case Ok((text, h)) => reply == Ok(text) && history == h && start < h
                case Err(e) => reply == Err(e) && history == start
    {
      if client.Err? {
        return Err(client.error);
      }
      var agent := new Agent(client.value, tools, DEFAULT_ROUNDS);
      PromptsConcat(history, [User(prompt)]);
      assert Prompts([User(prompt)]) == [prompt] + Prompts([User(prompt)][1..]) == [prompt];
      assert [User(prompt)][Width([User(prompt)])..] == [];
      PairedConcat(history, [User(prompt)]);
      history := history + [User(prompt)];
      submitted := submitted + [prompt];
      var outcome, seen := agent.RunTranscript(history);
      if outcome.Err? {
        return Err(outcome.error);
      }
      WholePaired(history, outcome);
      history := outcome.value.1;
      reply := Ok(outcome.value.0);
    }
  }
}
