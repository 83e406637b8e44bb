/**
 A turn as it shows from outside: which transcripts the model is given, what answers
 are in them, and how it ends, said without the functions that compute it.
 */
module TranscriptShown {
  import opened Transcript

  // `h'` is `h`, the texts and then the calls of the response as one message, and the
  // answers to the calls.
  ghost predicate RoundAdded(tools: seq<Tool>, n: nat, choice: seq<Content>, h: History, h': History) {
    var texts, calls := Texts(choice), Calls(choice);
    && |h'| == |h| + 1 + |calls| && h'[..|h|] == h
    && h'[|h|].Assistant? && |h'[|h|].contents| == |texts| + |calls|
    && (forall i :: 0 <= i < |texts| ==> h'[|h|].contents[i] == Text(texts[i]))
    && (forall i :: 0 <= i < |calls| ==> h'[|h|].contents[|texts| + i] == Call(calls[i]))
    && AnswersSay(tools, n, calls, h'[|h| + 1..])
  }

  // A response without calls, or an error, ends the turn.
  predicate Ends(response: Result<seq<Content>>, h: History, outcome: Result<(string, History)>) {
    match response
    case Err(e) => outcome == Err(e)
    case Ok(choice) =>
      var text := Join(Texts(choice));
      if text == "" then outcome == Err("agent produced neither text nor a tool call")
      else outcome == Ok((text, h + [Assistant([Text(text)])]))
  }

  predicate HasCalls(response: Result<seq<Content>>) {
    response.Ok? && Calls(response.value) != []
  }

  // How a transcript goes on after round number `r`; `c` makes the number of tool calls
  // made before out of its length and the number of the round.
  ghost predicate RoundShown(complete: Completer, tools: seq<Tool>, c: int, r: nat, h: History, h': History) {
    HasCalls(complete(r, h)) && c + |h| - r >= 0 && RoundAdded(tools, c + |h| - r, complete(r, h).value, h, h')
  }

  type RoundRule = (nat, History, History) -> bool

  ghost function RoundsOf(complete: Completer, tools: seq<Tool>, c: int): RoundRule {
    (r: nat, h: History, h': History) => RoundShown(complete, tools, c, r, h, h')
  }

  // The model is asked at least once, if it may be, and on until a response has no
  // calls, fails, or is the last one allowed; after a response with calls the next
  // transcript has that round added.
  ghost predicate Shown(complete: Completer, round: RoundRule, rounds: nat, turn: nat, h: History, t: Turn) {
    && |t.seen| <= rounds && (rounds > 0 ==> t.seen != []) && (t.seen != [] ==> t.seen[0] == h)
    && (forall k :: 0 <= k < |t.seen| - 1 ==> round(turn + k, t.seen[k], t.seen[k + 1]))
    && LastShown(complete, rounds, turn, t)
  }

  predicate LastShown(complete: Completer, rounds: nat, turn: nat, t: Turn) {
    if t.seen == [] then t.outcome == Err("agent exceeded the maximum number of tool-call rounds")
    else
      var h := t.seen[|t.seen| - 1];
      var response := complete(turn + |t.seen| - 1, h);
      if HasCalls(response)
      then |t.seen| == rounds && t.outcome == Err("agent exceeded the maximum number of tool-call rounds")
      else Ends(response, h, t.outcome)
  }

  lemma RoundIsAdded(tools: seq<Tool>, n: nat, choice: seq<Content>, h: History)
    requires Calls(choice) != []
    ensures var reply := Read(choice);
            && reply.Round? && reply.calls == Calls(choice)
            && RoundAdded(tools, n, choice, h, AddRound(h, reply.message, ResultsOf(tools, n, reply.calls)))
  {
    var reply := Read(choice);
    var results := ResultsOf(tools, n, reply.calls);
    var h' := AddRound(h, reply.message, results);
    ResultsSay(tools, n, reply.calls);
    assert h'[..|h|] == h && h'[|h|] == reply.message && h'[|h| + 1..] == results;
  }

  // One more round in front.
  lemma ShownAfterRound(complete: Completer, round: RoundRule, rounds: nat, turn: nat, h: History, h': History,
                        rest: Turn, t: Turn)
    requires HasCalls(complete(turn, h)) && round(turn, h, h')
    requires Shown(complete, round, rounds, turn + 1, h', rest) && t == Turn(rest.outcome, [h] + rest.seen)
    ensures Shown(complete, round, rounds + 1, turn, h, t)
  {
    forall k | 0 <= k < |t.seen| - 1 ensures round(turn + k, t.seen[k], t.seen[k + 1]) {
      assert t.seen[k + 1] == rest.seen[k];
      if k > 0 {
        assert t.seen[k] == rest.seen[k - 1] && turn + k == turn + 1 + (k - 1);
      }
    }
    if rest.seen != [] { assert t.seen[|t.seen| - 1] == rest.seen[|rest.seen| - 1]; }
  }

  lemma CallsMakeARound(complete: Completer, turn: nat, h: History)
    ensures HasCalls(complete(turn, h)) <==> Ask(complete, turn, h).Round?
  {
  }

  lemma RoundIsShown(complete: Completer, tools: seq<Tool>, turn: nat, n: nat, h: History, h': History)
    requires HasCalls(complete(turn, h))
    requires var reply := Ask(complete, turn, h);
             reply.Round? ==> h' == AddRound(h, reply.message, ResultsOf(tools, n, reply.calls))
    ensures Ask(complete, turn, h).Round?
    ensures RoundShown(complete, tools, n + turn - |h|, turn, h, h')
    ensures |h'| == |h| + 1 + |Ask(complete, turn, h).calls|
  {
    RoundIsAdded(tools, n, complete(turn, h).value, h);
  }

  // The first round of a turn, if its response has calls.
  lemma FirstRound(complete: Completer, tools: seq<Tool>, rounds: nat, turn: nat, n: nat, h: History, t: Turn)
    returns (n': nat, h': History)
    requires rounds > 0 && Ask(complete, turn, h).Round? && t == RunFrom(complete, tools, rounds, turn, n, h)
    ensures var reply := Ask(complete, turn, h);
            h' == AddRound(h, reply.message, ResultsOf(tools, n, reply.calls)) && n' == n + |reply.calls|
    ensures var rest := RunFrom(complete, tools, rounds - 1, turn + 1, n', h');
            t == Turn(rest.outcome, [h] + rest.seen)
  {
    var reply := Ask(complete, turn, h);
    n' := n + |reply.calls|;
    h' := AddRound(h, reply.message, ResultsOf(tools, n, reply.calls));
  }

  // Every turn shows as that, whatever the model and the tools do: it succeeds if and
  // only if the last response it saw has text and no calls.
  lemma {:induction false} EveryTurnShown(complete: Completer, tools: seq<Tool>, rounds: nat, turn: nat, n: nat,
                                          h: History, round: RoundRule, t: Turn)
    requires round == RoundsOf(complete, tools, n + turn - |h|)
    requires t == RunFrom(complete, tools, rounds, turn, n, h)
    ensures Shown(complete, round, rounds, turn, h, t)
    decreases rounds
  {
    if rounds > 0 && HasCalls(complete(turn, h)) {
      CallsMakeARound(complete, turn, h);
      var n', h' := FirstRound(complete, tools, rounds, turn, n, h, t);
      RoundIsShown(complete, tools, turn, n, h, h');
      var rest := RunFrom(complete, tools, rounds - 1, turn + 1, n', h');
      EveryTurnShown(complete, tools, rounds - 1, turn + 1, n', h', round, rest);
      ShownAfterRound(complete, round, rounds - 1, turn, h, h', rest, t);
    } else if rounds > 0 {
      EndIsShown(complete, round, rounds, turn, h, t);
    }
  }

  lemma EndIsShown(complete: Completer, round: RoundRule, rounds: nat, turn: nat, h: History, t: Turn)
    requires rounds > 0 && !HasCalls(complete(turn, h))
    requires !Ask(complete, turn, h).Round? ==> t == Turn(EndOf(h, Ask(complete, turn, h)), [h])
    ensures Shown(complete, round, rounds, turn, h, t)
  {
  }

  // A whole turn.
  lemma TurnShown(complete: Completer, tools: seq<Tool>, rounds: nat, h: History)
    ensures Shown(complete, RoundsOf(complete, tools, -|h|), rounds, 0, h, RunFrom(complete, tools, rounds, 0, 0, h))
  {
    EveryTurnShown(complete, tools, rounds, 0, 0, h, RoundsOf(complete, tools, -|h|),
                   RunFrom(complete, tools, rounds, 0, 0, h));
  }

  // A turn succeeds if and only if the last response the model gave has no calls and
  // some text, and then with that text.
  lemma SucceedsIff(complete: Completer, tools: seq<Tool>, rounds: nat, h: History)
    ensures var t := RunFrom(complete, tools, rounds, 0, 0, h);
            t.outcome.Ok? <==>
              && t.seen != []
              && var response := complete(|t.seen| - 1, t.seen[|t.seen| - 1]);
              response.Ok? && Calls(response.value) == [] && Join(Texts(response.value)) != ""
    ensures var t := RunFrom(complete, tools, rounds, 0, 0, h);
            t.outcome.Ok? ==>
              t.outcome.value.0 == Join(Texts(complete(|t.seen| - 1, t.seen[|t.seen| - 1]).value))
  {
    TurnShown(complete, tools, rounds, h);
  }
}
