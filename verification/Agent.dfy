/**
 The conversation loop of an agent (src/components/Agent/Agent.cpp): whatever the LLM sends and whichever
 tool, console or LLM call fails, the history is a well-formed conversation whenever the LLM sees it.
 */
module Agents {
  import opened Basics

  /** What an LLM sends as a tool call: any JSON value. */
  datatype Json = Null | Bool(b: bool) | Number | Str(s: string) | Array(elements: seq<Json>) | Object(fields: map<string, Json>)

  /** The string in a field, or the empty string when there is none or it is of another type. */
  function StringField(holder: Json, key: string): string
  {
    if holder.Object? && key in holder.fields && holder.fields[key].Str? then holder.fields[key].s else ""
  }

  /** The name of the tool asked for: under "function" in one shape, at the top in the other. */
  function ToolCallName(call: Json): string
  {
    if call.Object? && "function" in call.fields && call.fields["function"].Object? then
      StringField(call.fields["function"], "name")
    else StringField(call, "name")
  }

  datatype Role = System | User | Assistant | ToolRole

  datatype Message = Message(role: Role, content: string, name: string, toolCalls: seq<Json>, toolCallId: string, isError: bool)

  function ToolResultMessage(name: string, content: string, id: string, isError: bool): (m: Message)
    ensures m.role == ToolRole && m.name == name && m.toolCallId == id && m.isError == isError
  {
    Message(ToolRole, "\n--- BEGIN TOOL RESULT ---\n" + content + "\n--- END TOOL RESULT ---\n", name, [], id, isError)
  }

  // ---- Well-formed conversations ------------------------------------------------------------------------

  /** A tool result for the call: its name and its id. */
  predicate Answers(m: Message, call: Json)
  {
    m.role == ToolRole && m.name == ToolCallName(call) && m.toolCallId == StringField(call, "id")
  }

  /** The calls still to be answered after one message more; none when it is out of place. */
  function Expecting(pending: seq<Json>, m: Message): Option<seq<Json>>
  {
    match m.role
    case Assistant => if pending == [] then Some(m.toolCalls) else None
    case ToolRole => if pending != [] && Answers(m, pending[0]) then Some(pending[1..]) else None
    case _ => if pending == [] then Some([]) else None
  }

  function Pending(history: seq<Message>): Option<seq<Json>>
  {
    if history == [] then Some([])
    else
      match Pending(history[..|history| - 1])
      case None => None
      case Some(pending) => Expecting(pending, history[|history| - 1])
  }

  /**
   Every assistant message with k tool calls is followed by k results, in order and with their ids, before
   anything else; and no result stands anywhere else.
   */
  predicate WellFormed(history: seq<Message>)
  {
    Pending(history) == Some([])
  }

  lemma PendingSnoc(history: seq<Message>, m: Message)
    ensures Pending(history + [m]) ==
            match Pending(history)
            case None => None
            case Some(pending) => Expecting(pending, m)
  {
    assert (history + [m])[..|history|] == history;
  }

  /** One result for each call, in order. */
  ghost predicate AnswerAll(results: seq<Message>, calls: seq<Json>)
  {
    |results| == |calls| && forall i :: 0 <= i < |calls| ==> Answers(results[i], calls[i])
  }

  /** One result for each call, in order, an error that says why. */
  ghost predicate AreFailures(results: seq<Message>, calls: seq<Json>, reason: string)
  {
    && AnswerAll(results, calls)
    && forall m :: m in results ==>
         m.isError && m.content == "\n--- BEGIN TOOL RESULT ---\n" + reason + "\n--- END TOOL RESULT ---\n"
  }

  // ---- What a well-formed conversation is ---------------------------------------------------------------------

  /** The `j`-th call of the message at `i` has its result in its place. */
  predicate IsAnsweredIn(history: seq<Message>, i: nat, j: nat)
    requires i < |history| && j < |history[i].toolCalls|
  {
    && i + 1 + j < |history|
    && var (m, call) := (history[i + 1 + j], history[i].toolCalls[j]);
       m.role == ToolRole && m.name == ToolCallName(call) && m.toolCallId == StringField(call, "id")
  }

  /** What follows the message answers its calls in order, as far as the history goes. */
  ghost predicate Answered(history: seq<Message>, i: nat)
    requires i < |history|
  {
    forall j :: 0 <= j < |history[i].toolCalls| && j < |history| - 1 - i ==> IsAnsweredIn(history, i, j)
  }

  /** The message at `i` stands where a result for a call of the assistant's at `a` belongs. */
  predicate BelongsTo(history: seq<Message>, a: nat, i: nat)
    requires i < |history|
  {
    a < i && history[a].role == Assistant && i <= a + |history[a].toolCalls|
  }

  ghost predicate Stands(history: seq<Message>, i: nat)
    requires i < |history|
  {
    && (history[i].role == Assistant ==> Answered(history, i))
    && (history[i].role == ToolRole ==> exists a: nat :: BelongsTo(history, a, i))
  }

  ghost predicate AllStand(history: seq<Message>)
  {
    forall i :: 0 <= i < |history| ==> Stands(history, i)
  }

  /** The assistant's message has calls that the history is too short to answer. */
  predicate Awaits(history: seq<Message>, a: nat)
  {
    a < |history| && history[a].role == Assistant && a + |history[a].toolCalls| >= |history|
  }

  /** The calls pending are those that the last assistant's message still awaits results for. */
  ghost predicate PendingFits(history: seq<Message>, pending: Option<seq<Json>>)
  {
    && (pending.Some? <==> AllStand(history))
    && (pending.Some? ==>
          && (forall a: nat :: Awaits(history, a) ==> pending.value == history[a].toolCalls[|history| - 1 - a..])
          && ((forall a: nat :: !Awaits(history, a)) ==> pending.value == []))
  }

  lemma StandsEarlier(front: seq<Message>, last: Message)
    requires AllStand(front + [last])
    ensures AllStand(front)
    ensures forall a: nat :: Awaits(front, a) ==> last.role == ToolRole && Answers(last, front[a].toolCalls[|front| - 1 - a])
    ensures last.role == ToolRole ==> exists a: nat :: Awaits(front, a)
  {
    var h := front + [last];
    forall i | 0 <= i < |front|
      ensures Stands(front, i)
    {
      assert Stands(h, i);
      EarlierStands(front, last, i);
    }
    forall a: nat | Awaits(front, a)
      ensures last.role == ToolRole && Answers(last, front[a].toolCalls[|front| - 1 - a])
    {
      var j := |front| - 1 - a;
      assert Stands(h, a) && h[a] == front[a] && a + 1 + j == |front| && h[|front|] == last;
      assert IsAnsweredIn(h, a, j);
    }
    assert Stands(h, |front|);
    if last.role == ToolRole {
      var a: nat :| BelongsTo(h, a, |front|);
      assert Awaits(front, a);
    }
  }

  lemma EarlierStands(front: seq<Message>, last: Message, i: nat)
    requires i < |front| && Stands(front + [last], i)
    ensures Stands(front, i)
  {
    var h := front + [last];
    assert forall j :: 0 <= j < |front| ==> h[j] == front[j];
    if front[i].role == ToolRole {
      var a: nat :| BelongsTo(h, a, i);
      assert BelongsTo(front, a, i);
    }
    if front[i].role == Assistant {
      forall j | 0 <= j < |front[i].toolCalls| && j < |front| - 1 - i
        ensures IsAnsweredIn(front, i, j)
      {
        assert IsAnsweredIn(h, i, j);
      }
    }
  }

  /** A message still stands when one more comes that answers the call it awaits, if it awaits one. */
  lemma StillStands(front: seq<Message>, last: Message, i: nat)
    requires i < |front| && Stands(front, i)
    requires Awaits(front, i) ==> last.role == ToolRole && Answers(last, front[i].toolCalls[|front| - 1 - i])
    ensures Stands(front + [last], i)
  {
    var h := front + [last];
    assert forall j :: 0 <= j < |front| ==> h[j] == front[j];
    if front[i].role == ToolRole {
      var a: nat :| BelongsTo(front, a, i);
      assert BelongsTo(h, a, i);
    }
    if front[i].role == Assistant {
      var calls := front[i].toolCalls;
      forall j | 0 <= j < |calls| && i + 1 + j < |h|
        ensures IsAnsweredIn(h, i, j)
      {
        if i + 1 + j < |front| {
          assert IsAnsweredIn(front, i, j) && h[i + 1 + j] == front[i + 1 + j];
        } else {
          assert Awaits(front, i) && j == |front| - 1 - i;
        }
      }
    }
  }

  /** One message more that is expected stands, and all before it still do. */
  lemma ExpectedStands(front: seq<Message>, last: Message, pending: seq<Json>)
    requires PendingFits(front, Some(pending)) && Expecting(pending, last).Some?
    ensures AllStand(front + [last])
  {
    var h := front + [last];
    assert forall a: nat :: Awaits(front, a) ==>
             pending != [] && pending[0] == front[a].toolCalls[|front| - 1 - a];
    forall i | 0 <= i < |h|
      ensures Stands(h, i)
    {
      if i < |front| {
        assert Stands(front, i);
        hide Answers;
        StillStands(front, last, i);
      } else if last.role == ToolRole {
        var a: nat :| Awaits(front, a);
        assert BelongsTo(h, a, i);
      }
    }
  }

  /** And what is pending then fits. */
  lemma ExpectedFits(front: seq<Message>, last: Message, pending: seq<Json>)
    requires PendingFits(front, Some(pending)) && Expecting(pending, last).Some?
    ensures PendingFits(front + [last], Expecting(pending, last))
  {
    ExpectedStands(front, last, pending);
    hide AllStand, Answers;
    var (h, next) := (front + [last], Expecting(pending, last).value);
    forall a: nat | Awaits(h, a)
      ensures next == h[a].toolCalls[|h| - 1 - a..]
    {
      if a < |front| {
        assert Awaits(front, a);
        assert front[a].toolCalls[|front| - 1 - a..][1..] == front[a].toolCalls[|front| - a..];
      } else {
        assert last.toolCalls[0..] == last.toolCalls;
      }
    }
    if forall a: nat :: !Awaits(h, a) {
      assert last.role == Assistant ==> last.toolCalls == [] by { assert !Awaits(h, |front|); }
      if last.role == ToolRole {
        var a: nat :| Awaits(front, a);
        assert !Awaits(h, a) && h[a] == front[a];
        assert |pending| == 1;
      }
    }
  }

  /** A message that stands is expected. */
  lemma StandingIsExpected(front: seq<Message>, last: Message, pending: seq<Json>)
    requires PendingFits(front, Some(pending)) && AllStand(front + [last])
    ensures Expecting(pending, last).Some?
  {
    StandsEarlier(front, last);
    hide AllStand, Answers;
    if last.role == ToolRole {
      var a: nat :| Awaits(front, a);
      assert pending[0] == front[a].toolCalls[|front| - 1 - a];
    } else {
      assert forall a: nat :: !Awaits(front, a);
    }
  }

  lemma {:induction false} PendingIs(history: seq<Message>)
    ensures PendingFits(history, Pending(history))
  {
    if history != [] {
      var (front, last) := (history[..|history| - 1], history[|history| - 1]);
      assert history == front + [last];
      PendingIs(front);
      PendingSnoc(front, last);
      hide Pending, Expecting;
      match Pending(front)
      case None =>
        if AllStand(history) {
          StandsEarlier(front, last);
        }
      case Some(pending) =>
        if AllStand(history) {
          StandingIsExpected(front, last, pending);
        }
        if Expecting(pending, last).Some? {
          ExpectedFits(front, last, pending);
        }
    }
  }

  /**
   Every assistant message is followed by one result for each of its calls, in order, with its name and id, and no
   result stands anywhere else.
   */
  ghost predicate IsConversation(history: seq<Message>)
  {
    && (forall i, j :: 0 <= i < |history| && history[i].role == Assistant && 0 <= j < |history[i].toolCalls| ==>
          IsAnsweredIn(history, i, j))
    && (forall i :: 0 <= i < |history| && history[i].role == ToolRole ==> exists a: nat :: BelongsTo(history, a, i))
  }

  lemma AllAnswered(history: seq<Message>, a: nat)
    requires IsConversation(history)
    ensures !Awaits(history, a)
  {
    if a < |history| && history[a].role == Assistant && history[a].toolCalls != [] {
      assert IsAnsweredIn(history, a, |history[a].toolCalls| - 1);
    }
  }

  lemma EachStands(history: seq<Message>, i: nat)
    requires IsConversation(history) && i < |history|
    ensures Stands(history, i)
  {
    hide ToolCallName, StringField;
    if history[i].role == Assistant {
      assert forall j :: 0 <= j < |history[i].toolCalls| ==> IsAnsweredIn(history, i, j);
    }
  }

  lemma StandingConverses(history: seq<Message>)
    requires AllStand(history) && forall a: nat :: !Awaits(history, a)
    ensures IsConversation(history)
  {
    hide ToolCallName, StringField;
    forall i, j | 0 <= i < |history| && history[i].role == Assistant && 0 <= j < |history[i].toolCalls|
      ensures IsAnsweredIn(history, i, j)
    {
      assert Stands(history, i) && !Awaits(history, i);
    }
    forall i | 0 <= i < |history| && history[i].role == ToolRole
      ensures exists a: nat :: BelongsTo(history, a, i)
    {
      assert Stands(history, i);
    }
  }

  lemma ConversationStands(history: seq<Message>)
    ensures IsConversation(history) <==> AllStand(history) && forall a: nat :: !Awaits(history, a)
  {
    hide IsConversation, Stands, Awaits;
    if IsConversation(history) {
      forall a: nat
        ensures !Awaits(history, a)
      {
        AllAnswered(history, a);
      }
      forall i | 0 <= i < |history|
        ensures Stands(history, i)
      {
        EachStands(history, i);
      }
    }
    if AllStand(history) && forall a: nat :: !Awaits(history, a) {
      StandingConverses(history);
    }
  }

  /** A history is well-formed exactly when it is such a conversation. */
  lemma WellFormedIs(history: seq<Message>)
    ensures WellFormed(history) <==> IsConversation(history)
  {
    PendingIs(history);
    ConversationStands(history);
    hide Pending, AllStand, IsConversation;
    if AllStand(history) && exists a: nat :: Awaits(history, a) {
      var a: nat :| Awaits(history, a);
      assert |history[a].toolCalls[|history| - 1 - a..]| > 0;
    }
  }

  /** Results for all the calls awaited make the conversation well-formed. */
  lemma {:induction false} AnsweredAll(history: seq<Message>, results: seq<Message>, calls: seq<Json>)
    requires Pending(history) == Some(calls) && AnswerAll(results, calls)
    ensures WellFormed(history + results)
    decreases |results|
  {
    if results == [] {
      assert history + results == history;
    } else {
      PendingSnoc(history, results[0]);
      AnsweredAll(history + [results[0]], results[1..], calls[1..]);
      assert history + [results[0]] + results[1..] == history + results;
    }
  }

  /** Whether a response leaves the conversation well-formed once its tool calls, if any, are dealt with. */
  predicate Answerable(hasTools: bool, m: Message)
  {
    match m.role
    case Assistant => hasTools || m.toolCalls == []
    case ToolRole => false
    case _ => !hasTools || m.toolCalls == []
  }

  /**
   What a round adds to a well-formed conversation, the response and then a result for each of its tool
   calls when there are tools to run, leaves it so exactly when the response is answerable.
   */
  lemma RoundKeepsIffAnswerable(history: seq<Message>, m: Message, hasTools: bool, results: seq<Message>)
    requires WellFormed(history) && AnswerAll(results, if hasTools then m.toolCalls else [])
    ensures WellFormed(history + [m] + results) <==> Answerable(hasTools, m)
  {
    PendingSnoc(history, m);
    if m.role == Assistant && hasTools {
      hide Pending, Answers;
      AnsweredAll(history + [m], results, m.toolCalls);
    } else if results == [] {
      hide Pending;
      assert history + [m] + results == history + [m];
    } else {
      assert results[0].role == ToolRole;
      hide Pending, Answers;
      ResultBreaks(history + [m], results);
    }
  }

  /** A tool result that no call waits for leaves no conversation. */
  lemma ResultBreaks(history: seq<Message>, results: seq<Message>)
    requires results != [] && results[0].role == ToolRole && Pending(history) in {None, Some([])}
    ensures Pending(history + results) == None
  {
    PendingSnoc(history, results[0]);
    hide Pending;
    assert history + results == history + [results[0]] + results[1..];
    BrokenStays(history + [results[0]], results[1..]);
  }

  lemma {:induction false} BrokenStays(history: seq<Message>, more: seq<Message>)
    requires Pending(history) == None
    ensures Pending(history + more) == None
    decreases |more|
  {
    if more == [] {
      assert history + more == history;
    } else {
      PendingSnoc(history, more[0]);
      BrokenStays(history + [more[0]], more[1..]);
      assert history + [more[0]] + more[1..] == history + more;
    }
  }

  /** After the last assistant message there are only its results and, once they are all there, other messages. */
  lemma {:induction false} PendingIsTheRest(history: seq<Message>, at: nat)
    requires at < |history| && history[at].role == Assistant && Pending(history).Some?
    requires forall i :: at < i < |history| ==> history[i].role != Assistant
    ensures var answered := Results(history[at + 1..]);
            answered <= |history[at].toolCalls| && Pending(history) == Some(history[at].toolCalls[answered..])
    decreases |history|
  {
    hide Answers, Pending;
    var front, last := history[..|history| - 1], history[|history| - 1];
    assert history == front + [last];
    PendingSnoc(front, last);
    if at == |front| {
      assert history[at + 1..] == [];
      assert last.toolCalls[0..] == last.toolCalls;
    } else {
      PendingIsTheRest(front, at);
      assert history[at + 1..] == front[at + 1..] + [last];
      ResultsSnoc(front[at + 1..], last);
      OneAwaitedLess(history[at].toolCalls, Results(front[at + 1..]), last);
    }
  }

  lemma OneAwaitedLess(calls: seq<Json>, answered: nat, m: Message)
    requires answered <= |calls| && m.role != Assistant && Expecting(calls[answered..], m).Some?
    ensures var now := answered + if m.role == ToolRole then 1 else 0;
            now <= |calls| && Expecting(calls[answered..], m) == Some(calls[now..])
  {
    hide Answers;
    assert answered < |calls| ==> calls[answered..][1..] == calls[answered + 1..];
    assert calls[|calls|..] == [];
  }

  /** How many tool results there are. */
  function Results(messages: seq<Message>): nat
  {
    if messages == [] then 0 else (if messages[0].role == ToolRole then 1 else 0) + Results(messages[1..])
  }

  lemma {:induction false} ResultsSnoc(messages: seq<Message>, m: Message)
    ensures Results(messages + [m]) == Results(messages) + if m.role == ToolRole then 1 else 0
  {
    if messages != [] {
      ResultsSnoc(messages[1..], m);
      assert (messages + [m])[1..] == messages[1..] + [m];
    }
  }

  lemma {:induction false} NoAssistantNothingPending(history: seq<Message>)
    requires Pending(history).Some? && forall i :: 0 <= i < |history| ==> history[i].role != Assistant
    ensures Pending(history) == Some([])
  {
    if history != [] {
      NoAssistantNothingPending(history[..|history| - 1]);
    }
  }

  /** Nothing said is unsaid. */
  predicate Extends(before: seq<Message>, after: seq<Message>)
  {
    before <= after
  }

  lemma ExtendsOn(a: seq<Message>, b: seq<Message>, c: seq<Message>)
    requires Extends(a, b) && Extends(b, c)
    ensures Extends(a, c)
  {
  }

  // ---- The world ------------------------------------------------------------------------------------------

  datatype LLMOutcome = Response(message: Message, isErrorResponse: bool) | LLMThrows(what: string)

  datatype ToolOutcome = ToolResult(content: string, isError: bool) | NoSuchTool | ToolThrows(what: string)

  /**
   How everything outside the agent turns out: the n-th LLM call, run of a tool with its arguments, console write and
   look at the stop flag.
   */
  datatype World = World(llm: nat -> LLMOutcome, tool: (nat, string, Json) -> ToolOutcome, consoleThrows: nat -> Option<string>,
                         stopRequested: nat -> bool, parse: string -> Option<Json>)

  /** The arguments a call hands its tool: where they are, a string of them parsed. */
  function ArgumentsOf(call: Json, parse: string -> Option<Json>): Json
  {
    var holder := if call.Object? && "function" in call.fields && call.fields["function"].Object? then call.fields["function"] else call;
    if !holder.Object? || "arguments" !in holder.fields then Object(map[])
    else
      var field := holder.fields["arguments"];
      if field.Str? then (match parse(field.s) case Some(args) => args case None => Object(map[])) else field
  }

  /** Whether a tool is looked for: the call names one and its arguments can be an object. */
  predicate IsRunnable(call: Json, parse: string -> Option<Json>)
  {
    var args := ArgumentsOf(call, parse);
    ToolCallName(call) != "" && (args.Null? || args.Object?)
  }

  /** How often the stop flag is looked at for the calls: once for each that may run. */
  function Looks(calls: seq<Json>, w: World): nat
  {
    if calls == [] then 0
    else Looks(calls[..|calls| - 1], w) + if IsRunnable(calls[|calls| - 1], w.parse) then 1 else 0
  }

  /** How many of the calls run a tool, the flag being looked at for the `from`-th time next. */
  function Runs(calls: seq<Json>, w: World, from: nat): nat
  {
    if calls == [] then 0
    else
      var (front, last) := (calls[..|calls| - 1], calls[|calls| - 1]);
      Runs(front, w, from) + if IsRunnable(last, w.parse) && !w.stopRequested(from + Looks(front, w)) then 1 else 0
  }

  /** A call that runs no tool, being none that may or coming after a stop request. */
  predicate RunsNothing(call: Json, w: World, look: nat)
  {
    !IsRunnable(call, w.parse) || w.stopRequested(look)
  }

  /** Dealing with the calls has looked at the flag so often, and run so many tools. */
  predicate Ran(calls: seq<Json>, w: World, looks: nat, looks': nat, runs: nat, runs': nat)
  {
    looks' == looks + Looks(calls, w) && runs' == runs + Runs(calls, w, looks)
  }

  /** A tool's result as the LLM is to see it. */
  predicate Says(m: Message, text: string, isError: bool)
  {
    m.content == "\n--- BEGIN TOOL RESULT ---\n" + text + "\n--- END TOOL RESULT ---\n" && m.isError == isError
  }

  /** What kind of JSON value it is. */
  function Kind(value: Json): string
  {
    match value
    case Null => "a null"
    case Bool(_) => "a boolean"
    case Number => "a number"
    case Str(_) => "a string"
    case Array(_) => "an array"
    case Object(_) => "an object"
  }

  /**
   What a call is answered with, and whether as an error: what its tool gave, run with the call's arguments, or
   why none was run. The flag is looked at for the `look`-th time and a tool run for the `run`-th.
   */
  function Reported(call: Json, w: World, look: nat, run: nat): (string, bool)
  {
    var (name, args) := (ToolCallName(call), ArgumentsOf(call, w.parse));
    if name == "" then ("Error: the tool call names no tool (its name must be a non-empty string)", true)
    else if !args.Null? && !args.Object? then
      ("Error: the arguments of tool " + name + " must be a JSON object, not " + Kind(args), true)
    else if w.stopRequested(look) then ("Error: the agent was asked to stop", true)
    else
      match w.tool(run, name, if args.Null? then Object(map[]) else args)
      case ToolResult(content, isError) => (content, isError)
      case NoSuchTool => ("Error: Unknown tool - " + name, true)
      case ToolThrows(what) => ("Error: tool " + name + " failed: " + what, true)
  }

  predicate IsResult(m: Message, call: Json, w: World, look: nat, run: nat)
  {
    var (text, isError) := Reported(call, w, look, run);
    Answers(m, call) && m.toolCalls == [] && Says(m, text, isError)
  }

  /** The answers to the first calls, in order. */
  ghost predicate AreResults(results: seq<Message>, calls: seq<Json>, w: World, looks: nat, runs: nat)
  {
    |results| <= |calls|
    && forall i :: 0 <= i < |results| ==>
         IsResult(results[i], calls[i], w, looks + Looks(calls[..i], w), runs + Runs(calls[..i], w, looks))
  }

  /** Once every look at the flag says stop, no further tool runs. */
  lemma {:induction false} NothingRunsOnceStopped(calls: seq<Json>, w: World, from: nat)
    requires forall look :: from <= look ==> w.stopRequested(look)
    ensures Runs(calls, w, from) == 0
  {
    if calls != [] {
      NothingRunsOnceStopped(calls[..|calls| - 1], w, from);
    }
  }

  const MAX_LLM_ROUNDS: nat := 20

  // ---- The agent --------------------------------------------------------------------------------------------

  class Agent {
    const world: World
    const hasTools: bool
    const interactive: bool
    var history: seq<Message>
    var lastCommandFailed: bool
    var llmCalls: nat
    var toolRuns: nat
    var consoleWrites: nat
    var stopLooks: nat
    /** The histories the LLM was called with, and those that commands ended with. */
    ghost var asked: seq<seq<Message>>
    ghost var left: seq<seq<Message>>

    /** Every response is one the conversation can go on from. */
    ghost predicate Provided()
    {
      forall n :: world.llm(n).Response? ==> Answerable(hasTools, world.llm(n).message)
    }

    ghost predicate Valid()
      reads this`history, this`asked, this`llmCalls, this`left
    {
      && Pending(history).Some?
      && |asked| == llmCalls
      && (forall i :: 0 <= i < |asked| ==> WellFormed(asked[i]))
      && forall i :: 0 <= i < |left| ==> WellFormed(left[i])
    }

    constructor (w: World, tools: bool, interacts: bool)
      ensures Valid() && history == [] && llmCalls == 0 && left == [] && !lastCommandFailed
      ensures world == w && hasTools == tools && interactive == interacts
    {
      world, hasTools, interactive := w, tools, interacts;
      history, lastCommandFailed, asked, left := [], false, [], [];
      llmCalls, toolRuns, consoleWrites, stopLooks := 0, 0, 0, 0;
    }

    /** The exception the next console write throws, if any. */
    method WriteToConsole() returns (thrown: Option<string>)
      modifies this`consoleWrites
      ensures thrown == world.consoleThrows(old(consoleWrites)) && consoleWrites == old(consoleWrites) + 1
    {
      thrown := world.consoleThrows(consoleWrites);
      consoleWrites := consoleWrites + 1;
    }

    method StopRequested() returns (stop: bool)
      modifies this`stopLooks
      ensures stop == world.stopRequested(old(stopLooks)) && stopLooks == old(stopLooks) + 1
    {
      stop := world.stopRequested(stopLooks);
      stopLooks := stopLooks + 1;
    }

    /**
     One result for each tool call, unless an exception leaves the loop; the calls dealt with run a tool
     just when they may and the flag, looked at for each of them, does not say stop.
     */
    method ExecuteToolCalls(calls: seq<Json>) returns (results: seq<Message>, thrown: Option<string>)
      modifies this`toolRuns, this`consoleWrites, this`stopLooks
      ensures thrown == None ==> AnswerAll(results, if hasTools then calls else [])
      ensures thrown.Some? ==> hasTools && |results| < |calls|
      ensures !hasTools ==> results == [] && stopLooks == old(stopLooks) && toolRuns == old(toolRuns)
      ensures hasTools ==> Ran(if thrown == None then calls else calls[..|results| + 1], world,
                               old(stopLooks), stopLooks, old(toolRuns), toolRuns)
      ensures AreResults(results, calls, world, old(stopLooks), old(toolRuns))
    {
      results, thrown := [], None;
      NoCallYet(calls, world, stopLooks, toolRuns);
      hide *;
      if !hasTools {
        return;
      }
      for i := 0 to |calls|
        invariant thrown == None && AnswerAll(results, calls[..i])
        invariant Ran(calls[..i], world, old(stopLooks), stopLooks, old(toolRuns), toolRuns)
        invariant |results| == i && AreResults(results, calls, world, old(stopLooks), old(toolRuns))
      {
        var result;
        ghost var looks, runs := stopLooks, toolRuns;
        result, thrown := ExecuteToolCall(calls[i]);
        OneCallMore(calls, i, world, old(stopLooks), looks, stopLooks, old(toolRuns), runs, toolRuns);
        if thrown.Some? {
          return;
        }
        OneResultMore(results, result, calls, world, old(stopLooks), old(toolRuns));
        results := results + [result];
      }
      assert calls[..|calls|] == calls;
    }

    /** One call's answer. Asked to stop, an agent runs no tool. */
    method ExecuteToolCall(call: Json) returns (result: Message, thrown: Option<string>)
      modifies this`toolRuns, this`consoleWrites, this`stopLooks
      ensures IsResult(result, call, world, old(stopLooks), old(toolRuns))
      ensures stopLooks == old(stopLooks) + if IsRunnable(call, world.parse) then 1 else 0
      ensures if RunsNothing(call, world, old(stopLooks)) then thrown == None && toolRuns == old(toolRuns)
              else toolRuns == old(toolRuns) + 1
    {
      hide ToolCallName, StringField, ArgumentsOf, Kind, IsResult, ToolResultMessage;
      var id, name := StringField(call, "id"), ToolCallName(call);
      var text, isError;
      text, isError, thrown := AnswerTo(call, name);
      result := ToolResultMessage(name, text, id, isError);
      MessageIsResult(call, text, isError, world, old(stopLooks), old(toolRuns));
    }

    method AnswerTo(call: Json, name: string) returns (text: string, isError: bool, thrown: Option<string>)
      requires name == ToolCallName(call)
      modifies this`toolRuns, this`consoleWrites, this`stopLooks
      ensures (text, isError) == Reported(call, world, old(stopLooks), old(toolRuns))
      ensures stopLooks == old(stopLooks) + if IsRunnable(call, world.parse) then 1 else 0
      ensures if RunsNothing(call, world, old(stopLooks)) then thrown == None && toolRuns == old(toolRuns)
              else toolRuns == old(toolRuns) + 1
    {
      hide ToolCallName, StringField, ArgumentsOf, Kind;
      var args := ArgumentsOf(call, world.parse);
      if name == "" {
        return "Error: the tool call names no tool (its name must be a non-empty string)", true, None;
      }
      if args.Null? {
        args := Object(map[]);
      }
      if !args.Object? {
        return "Error: the arguments of tool " + name + " must be a JSON object, not " + Kind(args), true, None;
      }
      text, isError, thrown := RunTool(call, name, args);
    }

    /** Runs the tool a call may run, unless asked to stop. */
    method RunTool(call: Json, name: string, args: Json) returns (text: string, isError: bool, thrown: Option<string>)
      requires name == ToolCallName(call) && IsRunnable(call, world.parse)
      requires var given := ArgumentsOf(call, world.parse); args == if given.Null? then Object(map[]) else given
      modifies this`toolRuns, this`consoleWrites, this`stopLooks
      ensures (text, isError) == Reported(call, world, old(stopLooks), old(toolRuns))
      ensures stopLooks == old(stopLooks) + 1
      ensures if world.stopRequested(old(stopLooks)) then thrown == None && toolRuns == old(toolRuns)
              else toolRuns == old(toolRuns) + 1
    {
      hide ToolCallName, StringField, ArgumentsOf, Kind;
      var stop := StopRequested();
      if stop {
        return "Error: the agent was asked to stop", true, None;
      }
      var outcome := world.tool(toolRuns, name, args);
      toolRuns := toolRuns + 1;
      thrown := None;
      match outcome
      case ToolResult(content, failed) => text, isError := content, failed;
      case ToolThrows(what) => text, isError := "Error: tool " + name + " failed: " + what, true;
      case NoSuchTool =>
        thrown := WriteToConsole();
        text, isError := "Error: Unknown tool - " + name, true;
    }

    /** A round trip to the LLM, on the history as it stands. */
    method CallLLM() returns (outcome: LLMOutcome)
      requires Valid() && WellFormed(history)
      modifies this`llmCalls, this`asked
      ensures Valid() && llmCalls == old(llmCalls) + 1 && asked == old(asked) + [history]
      ensures outcome == world.llm(old(llmCalls))
    {
      outcome := world.llm(llmCalls);
      llmCalls := llmCalls + 1;
      asked := asked + [history];
    }

    /** The response goes into the history, and a result for each of its tool calls. */
    method TakeResponse(message: Message) returns (ends: bool, thrown: Option<string>)
      requires Valid() && WellFormed(history) && Answerable(hasTools, message)
      modifies this`history, this`toolRuns, this`consoleWrites, this`stopLooks
      ensures Valid() && Extends(old(history), history)
      ensures thrown == None ==> WellFormed(history)
      ensures |history| > |old(history)| && history[|old(history)|] == message
      ensures var results := history[|old(history)| + 1..];
              if thrown == None && hasTools then
                AnswerAll(results, message.toolCalls)
                && AreResults(results, message.toolCalls, world, old(stopLooks), old(toolRuns))
              else results == []
      ensures message.toolCalls == [] ==> ends && thrown == None && history == old(history) + [message]
      ensures thrown == None && message.toolCalls != [] ==> stopLooks > 0 && (ends <==> world.stopRequested(stopLooks - 1))
    {
      hide Pending, Expecting, Answerable, AnswerAll, Ran, AreResults;
      ResponseTaken(history, message, hasTools);
      NoCallYet(message.toolCalls, world, stopLooks, toolRuns);
      history := history + [message];
      assert history[|history|..] == [];
      if message.toolCalls == [] {
        return true, None;
      }
      var results;
      results, thrown := ExecuteToolCalls(message.toolCalls);
      if thrown.Some? {
        return true, thrown;
      }
      RoundKeepsIffAnswerable(old(history), message, hasTools, results);
      history := history + results;
      assert history[|old(history)| + 1..] == results;
      ends := StopRequested();
    }

    lemma ResponseTaken(said: seq<Message>, m: Message, tools: bool)
      requires WellFormed(said) && Answerable(tools, m)
      ensures Pending(said + [m]).Some? && (m.toolCalls == [] ==> WellFormed(said + [m]))
    {
      PendingSnoc(said, m);
    }

    /** One round: the LLM call, what the console is shown of the response, and the response taken. */
    method RunRound() returns (ends: bool, thrown: Option<string>)
      requires Valid() && WellFormed(history) && Provided()
      modifies this
      ensures left == old(left) && Valid() && llmCalls == old(llmCalls) + 1 && Extends(old(history), history)
      ensures thrown == None ==> WellFormed(history) && (ends <==> LastRoundEnds())
      ensures thrown == None && !ends ==> GoesOnAfter(world.llm(llmCalls - 1))
      ensures lastCommandFailed <==> old(lastCommandFailed) || IsErrorResponse(world.llm(old(llmCalls)))
    {
      hide Pending, Expecting;
      var response := CallLLM();
      if response.LLMThrows? {
        return true, Some(response.what);
      }
      if response.isErrorResponse {
        lastCommandFailed := true;
      }
      if response.message.content != "" {
        thrown := WriteToConsole();
        if thrown.Some? {
          return true, thrown;
        }
      }
      assert Answerable(hasTools, world.llm(llmCalls - 1).message);
      ends, thrown := TakeResponse(response.message);
    }

    /** The last response asked for no tool, or the stop flag said stop after its tools were dealt with. */
    predicate LastRoundEnds()
      reads this`llmCalls, this`stopLooks
    {
      llmCalls > 0 && match world.llm(llmCalls - 1)
                      case Response(m, _) => m.toolCalls == [] || (stopLooks > 0 && world.stopRequested(stopLooks - 1))
                      case LLMThrows(_) => false
    }

    /** One command: at most 20 LLM calls, each on a well-formed conversation; failed by an error response or the cap. */
    method ProcessCommand(command: string) returns (thrown: Option<string>)
      requires Valid() && WellFormed(history) && Provided()
      modifies this
      ensures left == old(left) && Valid() && (thrown == None ==> WellFormed(history))
      ensures Extends(old(history) + [Message(User, "\n--- BEGIN USER INPUT ---\n" + command + "\n--- END USER INPUT ---\n",
                                              "", [], "", false)], history)
      ensures IsProcessed(old(llmCalls), llmCalls, thrown == None, LastRoundEnds(), lastCommandFailed)
    {
      hide *;
      thrown := None;
      TakeCommand(command);
      ghost var start := history;
      var rounds := 0;
      while true
        invariant left == old(left) && Valid() && WellFormed(history) && thrown == None
        invariant IsUnderWay(old(llmCalls), llmCalls, rounds, LastRoundEnds(), lastCommandFailed)
        invariant Extends(start, history)
        decreases MAX_LLM_ROUNDS - rounds
      {
        ghost var calls, ended, failed := llmCalls, LastRoundEnds(), lastCommandFailed;
        RoundsAreCapped(old(llmCalls), calls, rounds, ended, failed);
        rounds := rounds + 1;
        if rounds > MAX_LLM_ROUNDS {
          lastCommandFailed := true;
          thrown := WriteToConsole();
          return;
        }
        ghost var before := history;
        var ends;
        ends, thrown := RunRound();
        OneRoundMore(old(llmCalls), calls, rounds, ended, failed, thrown == None, LastRoundEnds(), lastCommandFailed);
        ExtendsOn(start, before, history);
        if thrown.Some? || ends {
          return;
        }
      }
    }

    /** A command goes in whole, and starts un-failed. */
    method TakeCommand(command: string)
      requires Valid() && WellFormed(history)
      modifies this`history, this`lastCommandFailed
      ensures Valid() && WellFormed(history) && Extends(history, history)
      ensures history == old(history) + [Message(User, "\n--- BEGIN USER INPUT ---\n" + command + "\n--- END USER INPUT ---\n",
                                                 "", [], "", false)]
      ensures forall ended :: IsUnderWay(llmCalls, llmCalls, 0, ended, lastCommandFailed)
    {
      hide Pending, WellFormed, Extends, UserMessage, IsUnderWay;
      lastCommandFailed := false;
      CommandKeeps(history, command);
      history := history + [UserMessage(command)];
      NothingFailedYet(llmCalls);
    }

    lemma CommandKeeps(said: seq<Message>, command: string)
      requires WellFormed(said)
      ensures WellFormed(said + [UserMessage(command)]) && Pending(said + [UserMessage(command)]).Some?
      ensures Extends(said + [UserMessage(command)], said + [UserMessage(command)])
      ensures UserMessage(command) ==
              Message(User, "\n--- BEGIN USER INPUT ---\n" + command + "\n--- END USER INPUT ---\n", "", [], "", false)
    {
      PendingSnoc(said, UserMessage(command));
      hide Pending;
    }

    lemma NothingFailedYet(calls: nat)
      ensures forall ended :: IsUnderWay(calls, calls, 0, ended, false)
    {
    }

    /** In a command's loop: so many rounds were made, each to be followed by another. */
    ghost predicate IsUnderWay(from: nat, calls: nat, rounds: nat, ended: bool, failed: bool)
    {
      && calls == from + rounds && rounds <= MAX_LLM_ROUNDS && (rounds > 0 ==> !ended)
      && AllGoOn(from, calls) && (failed <==> ErrorAmong(from, calls))
    }

    /**
     A command's LLM calls: at most 20, and another only after one that asked for tools. Unless an exception
     left it, it is failed exactly when an error response was among them or the cap cut it short.
     */
    ghost predicate IsProcessed(from: nat, calls: nat, normally: bool, ended: bool, failed: bool)
    {
      && from < calls <= from + 20 && AllGoOn(from, calls - 1)
      && (normally ==> (failed <==> ErrorAmong(from, calls) || !ended) && (!ended ==> calls == from + 20))
    }

    lemma CallsAreCapped(from: nat, calls: nat, normally: bool, ended: bool, failed: bool)
      requires IsProcessed(from, calls, normally, ended, failed)
      ensures calls <= from + 20
    {
    }

    lemma RoundsAreCapped(from: nat, calls: nat, rounds: nat, ended: bool, failed: bool)
      requires IsUnderWay(from, calls, rounds, ended, failed)
      ensures rounds <= MAX_LLM_ROUNDS
      ensures rounds + 1 > MAX_LLM_ROUNDS ==> forall normally :: IsProcessed(from, calls, normally, ended, true)
    {
    }

    lemma OneRoundMore(from: nat, calls: nat, rounds: nat, before: bool, failed: bool, normally: bool, ended: bool, failed': bool)
      requires 1 <= rounds <= MAX_LLM_ROUNDS && IsUnderWay(from, calls, rounds - 1, before, failed)
      requires failed' <==> failed || IsErrorResponse(world.llm(calls))
      requires normally && !ended ==> GoesOnAfter(world.llm(calls))
      ensures !normally || ended ==> IsProcessed(from, calls + 1, normally, ended, failed')
      ensures normally && !ended ==> IsUnderWay(from, calls + 1, rounds, ended, failed')
    {
      hide IsErrorResponse, GoesOnAfter;
    }

    /** Each of these LLM calls asked for tools, so that another had to follow. */
    ghost predicate AllGoOn(from: nat, to: nat)
    {
      forall n :: from <= n < to ==> GoesOnAfter(world.llm(n))
    }

    /** Whether one of these LLM calls gave an error response. */
    ghost predicate ErrorAmong(from: nat, to: nat)
    {
      exists n :: from <= n < to && IsErrorResponse(world.llm(n))
    }

    /** The index of the last assistant message, the length when there is none. */
    method LastAssistant() returns (at: nat)
      ensures at <= |history|
      ensures at < |history| ==> history[at].role == Assistant
      ensures forall i :: at < i < |history| ==> history[i].role != Assistant
      ensures at == |history| ==> forall i :: 0 <= i < |history| ==> history[i].role != Assistant
    {
      at := |history|;
      var i := |history|;
      while i > 0
        invariant 0 <= i <= |history| && at == |history|
        invariant forall j :: i <= j < |history| ==> history[j].role != Assistant
      {
        i := i - 1;
        if history[i].role == Assistant {
          return i;
        }
      }
    }

    method ResultsAfter(at: nat) returns (answered: nat)
      requires at < |history|
      ensures answered == Results(history[at + 1..])
    {
      answered := 0;
      for i := at + 1 to |history|
        invariant answered + Results(history[i..]) == Results(history[at + 1..])
      {
        assert history[i..][1..] == history[i + 1..];
        if history[i].role == ToolRole {
          answered := answered + 1;
        }
      }
    }

    /** Gives every tool call left open a result that says why. */
    method AnswerUnansweredToolCalls(reason: string)
      requires Valid()
      modifies this`history
      ensures Valid() && WellFormed(history) && Extends(old(history), history)
      ensures AreFailures(history[|old(history)|..], Pending(old(history)).value, reason)
    {
      var at := LastAssistant();
      if at == |history| {
        NoAssistantNothingPending(history);
        assert history[|history|..] == [];
        return;
      }
      PendingIsTheRest(history, at);
      var answered := ResultsAfter(at);
      var answers := FailedResults(history[at].toolCalls[answered..], reason);
      AnsweredAll(history, answers, history[at].toolCalls[answered..]);
      history := history + answers;
      assert history[|old(history)|..] == answers;
    }

    method FailedResults(calls: seq<Json>, reason: string) returns (answers: seq<Message>)
      ensures AreFailures(answers, calls, reason)
    {
      answers := [];
      for i := 0 to |calls|
        invariant AreFailures(answers, calls[..i], reason)
      {
        assert calls[..i + 1] == calls[..i] + [calls[i]];
        answers := answers + [ToolResultMessage(ToolCallName(calls[i]), reason, StringField(calls[i], "id"), true)];
      }
      assert calls[..|calls|] == calls;
    }

    /** What a command that failed leaves behind: a failed command and a well-formed conversation. */
    method OnCommandFailed(what: string)
      requires Valid()
      modifies this`history, this`lastCommandFailed, this`consoleWrites
      ensures Valid() && WellFormed(history) && lastCommandFailed && Extends(old(history), history)
      ensures AreFailures(history[|old(history)|..], Pending(old(history)).value,
                          "Error: the command failed before this tool call was answered: " + what)
    {
      lastCommandFailed := true;
      AnswerUnansweredToolCalls("Error: the command failed before this tool call was answered: " + what);
      var ignored := WriteToConsole();
    }

    /** A command, and what is done when it fails: it ends with a well-formed conversation, which is noted. */
    method HandleCommand(command: string)
      requires Valid() && WellFormed(history) && Provided()
      modifies this
      ensures Valid() && WellFormed(history) && left == old(left) + [history]
      ensures Extends(old(history) + [UserMessage(command)], history)
      ensures llmCalls <= old(llmCalls) + 20
    {
      hide Pending, WellFormed, AreFailures, Provided, ErrorAmong, AllGoOn, Extends, LastRoundEnds, UserMessage, IsProcessed;
      CommandKeeps(history, command);
      var thrown := ProcessCommand(command);
      CallsAreCapped(old(llmCalls), llmCalls, thrown == None, LastRoundEnds(), lastCommandFailed);
      if thrown.Some? {
        ghost var before := history;
        OnCommandFailed(thrown.value);
        ExtendsOn(old(history) + [UserMessage(command)], before, history);
      }
      left := left + [history];
    }

    /**
     The agent's thread, over the commands its queue hands out before it closes or fails: every LLM call and
     the end of every command see a well-formed conversation. It starts with the system prompts, and the commands
     that are not empty go in whole, in order; only the first of them when the agent is not interactive.
     */
    method RunThread(systemPrompts: seq<string>, commands: seq<string>)
      requires Valid() && history == [] && llmCalls == 0 && left == [] && Provided()
      modifies this
      ensures Valid() && WellFormed(history)
      ensures var given := NonEmpty(commands);
              Handled(Prompts(systemPrompts), if interactive then given else given[..Min(|given|, 1)], left)
      ensures history == LastOf(Prompts(systemPrompts), left)
      ensures |asked| == llmCalls <= 20 * |left|
    {
      hide Pending, WellFormed, Provided, Extends, UserMessage, Prompts, Handled, NonEmpty, LastOf;
      TakePrompts(systemPrompts);
      ghost var first := history;
      NoneHandled(first, commands);
      for i := 0 to |commands|
        invariant Valid() && WellFormed(history) && llmCalls <= 20 * |left|
        invariant Handled(first, NonEmpty(commands[..i]), left) && (!interactive ==> left == [])
        invariant history == LastOf(first, left)
      {
        ghost var before, said := left, history;
        GivenOneMore(commands, i);
        if commands[i] == "" {
          continue;
        }
        HandleCommand(commands[i]);
        HandledMore(first, NonEmpty(commands[..i]), before, commands[i], history);
        if !interactive {
          FirstGiven(first, commands, i, left);
          return;
        }
      }
      AllGiven(first, commands, left, interactive);
    }

    method TakePrompts(systemPrompts: seq<string>)
      requires Valid() && history == []
      modifies this`history
      ensures Valid() && WellFormed(history) && history == Prompts(systemPrompts)
    {
      assert WellFormed([]);
      hide Pending, Expecting;
      for i := 0 to |systemPrompts|
        invariant Valid() && WellFormed(history) && history == Prompts(systemPrompts[..i])
      {
        SystemPromptKeeps(history, systemPrompts[i]);
        assert systemPrompts[..i + 1] == systemPrompts[..i] + [systemPrompts[i]];
        history := history + [Message(System, systemPrompts[i], "", [], "", false)];
      }
      assert systemPrompts[..|systemPrompts|] == systemPrompts;
    }
  }

  function Prompts(texts: seq<string>): seq<Message>
  {
    seq(|texts|, i requires 0 <= i < |texts| => Message(System, texts[i], "", [], "", false))
  }

  /** The history as the last command left it. */
  function LastOf(first: seq<Message>, left: seq<seq<Message>>): seq<Message>
  {
    if left == [] then first else left[|left| - 1]
  }

  /** Each command was put, whole, behind the history the one before it left. */
  ghost predicate Handled(first: seq<Message>, commands: seq<string>, left: seq<seq<Message>>)
  {
    |left| == |commands|
    && forall k :: 0 <= k < |left| ==>
         Extends(LastOf(first, left[..k])
                 + [Message(User, "\n--- BEGIN USER INPUT ---\n" + commands[k] + "\n--- END USER INPUT ---\n", "", [], "", false)],
                 left[k])
  }

  lemma NoneHandled(first: seq<Message>, commands: seq<string>)
    ensures Handled(first, NonEmpty(commands[..0]), []) && LastOf(first, []) == first
  {
  }

  lemma GivenOneMore(commands: seq<string>, i: nat)
    requires i < |commands|
    ensures var before := NonEmpty(commands[..i]);
            NonEmpty(commands[..i + 1]) == if commands[i] == "" then before else before + [commands[i]]
  {
    assert commands[..i + 1][..i] == commands[..i];
    assert NonEmpty(commands[..i]) + [] == NonEmpty(commands[..i]);
  }

  lemma HandledMore(first: seq<Message>, commands: seq<string>, left: seq<seq<Message>>, command: string, after: seq<Message>)
    requires Handled(first, commands, left) && Extends(LastOf(first, left) + [UserMessage(command)], after)
    ensures Handled(first, commands + [command], left + [after]) && LastOf(first, left + [after]) == after
  {
    hide Extends;
    var more := left + [after];
    assert forall k :: 0 <= k <= |left| ==> more[..k] == left[..k];
    assert left[..|left|] == left;
  }

  lemma FirstGiven(first: seq<Message>, commands: seq<string>, i: nat, left: seq<seq<Message>>)
    requires i < |commands| && Handled(first, NonEmpty(commands[..i + 1]), left) && |left| == 1
    ensures var given := NonEmpty(commands); Handled(first, given[..Min(|given|, 1)], left)
  {
    GivenStarts(commands, i + 1);
    hide Extends, NonEmpty;
  }

  lemma AllGiven(first: seq<Message>, commands: seq<string>, left: seq<seq<Message>>, interactive: bool)
    requires Handled(first, NonEmpty(commands[..|commands|]), left) && (!interactive ==> left == [])
    ensures var given := NonEmpty(commands);
            Handled(first, if interactive then given else given[..Min(|given|, 1)], left)
  {
    assert commands[..|commands|] == commands;
    hide Extends, NonEmpty;
  }

  lemma SystemPromptKeeps(said: seq<Message>, prompt: string)
    requires WellFormed(said)
    ensures WellFormed(said + [Message(System, prompt, "", [], "", false)])
  {
    PendingSnoc(said, Message(System, prompt, "", [], "", false));
  }

  /** The commands that are not empty. */
  function NonEmpty(commands: seq<string>): seq<string>
  {
    if commands == [] then []
    else
      var last := commands[|commands| - 1];
      NonEmpty(commands[..|commands| - 1]) + if last == "" then [] else [last]
  }

  lemma {:induction false} GivenStarts(commands: seq<string>, i: nat)
    requires i <= |commands|
    ensures NonEmpty(commands[..i]) <= NonEmpty(commands)
    decreases |commands|
  {
    if i < |commands| {
      var front := commands[..|commands| - 1];
      GivenStarts(front, i);
      assert front[..i] == commands[..i];
    } else {
      assert commands[..i] == commands;
    }
  }

  lemma OneCallMore(calls: seq<Json>, i: nat, w: World, from: nat, looks: nat, looks': nat, ran: nat, runs: nat, runs': nat)
    requires i < |calls| && Ran(calls[..i], w, from, looks, ran, runs)
    requires looks' == looks + if IsRunnable(calls[i], w.parse) then 1 else 0
    requires runs' == runs + if RunsNothing(calls[i], w, looks) then 0 else 1
    ensures Ran(calls[..i + 1], w, from, looks', ran, runs')
    ensures looks == from + Looks(calls[..i], w) && runs == ran + Runs(calls[..i], w, from)
  {
    assert calls[..i + 1][..i] == calls[..i];
  }

  lemma NoCallYet(calls: seq<Json>, w: World, looks: nat, runs: nat)
    ensures AreResults([], calls, w, looks, runs)
    ensures AnswerAll([], []) && AnswerAll([], calls[..0]) && Ran(calls[..0], w, looks, looks, runs, runs)
  {
  }

  lemma MessageIsResult(call: Json, text: string, isError: bool, w: World, look: nat, run: nat)
    requires (text, isError) == Reported(call, w, look, run)
    ensures IsResult(ToolResultMessage(ToolCallName(call), text, StringField(call, "id"), isError), call, w, look, run)
  {
    hide ToolCallName, StringField, Reported;
  }

  lemma OneResultMore(results: seq<Message>, result: Message, calls: seq<Json>, w: World, looks: nat, runs: nat)
    requires |results| < |calls| && AreResults(results, calls, w, looks, runs) && AnswerAll(results, calls[..|results|])
    requires var front := calls[..|results|];
             IsResult(result, calls[|results|], w, looks + Looks(front, w), runs + Runs(front, w, looks))
    ensures AnswerAll(results + [result], calls[..|results| + 1])
    ensures AreResults(results + [result], calls, w, looks, runs)
  {
    hide Answers, IsResult, Looks, Runs, RunsNothing;
    ResultAnswers(result, calls[|results|], w, looks + Looks(calls[..|results|], w), runs + Runs(calls[..|results|], w, looks));
    var more := results + [result];
    forall i | 0 <= i < |more|
      ensures more[i] == if i < |results| then results[i] else result
      ensures i < |results| ==> Answers(more[i], calls[..|results|][i])
    {
    }
  }

  /** A call that may not run, or comes after a stop request, is answered with an error. */
  lemma ResultAnswers(result: Message, call: Json, w: World, look: nat, run: nat)
    requires IsResult(result, call, w, look, run)
    ensures result.role == ToolRole && result.name == ToolCallName(call) && result.toolCallId == StringField(call, "id")
    ensures Answers(result, call) && (RunsNothing(call, w, look) ==> result.isError)
  {
    hide ToolCallName, StringField, ArgumentsOf, Kind;
  }

  /**
   What a tool gives reaches the LLM whole, between two marks, and as the error or success it was; a tool that is not
   there or throws gives an error. The tool is the one the call names, run with the call's arguments.
   */
  lemma ToolResultReaches(result: Message, call: Json, w: World, look: nat, run: nat)
    requires IsResult(result, call, w, look, run) && !RunsNothing(call, w, look)
    ensures result.role == ToolRole && result.name == ToolCallName(call) && result.toolCalls == []
    ensures var args := ArgumentsOf(call, w.parse);
            match w.tool(run, ToolCallName(call), if args.Null? then Object(map[]) else args)
            case ToolResult(content, isError) =>
              result.isError == isError
              && result.content == "\n--- BEGIN TOOL RESULT ---\n" + content + "\n--- END TOOL RESULT ---\n"
            case _ => result.isError
  {
    hide ToolCallName, StringField, ArgumentsOf;
  }

  // ---- Calls ----------------------------------------------------------------------------------

  /** The tool and its arguments where a call has them, or under "function" when that is an object. */
  lemma CallIsRead(fields: map<string, Json>, holder: map<string, Json>, parse: string -> Option<Json>)
    requires if "function" in fields && fields["function"].Object? then fields["function"] == Object(holder)
             else holder == fields
    ensures var call := Object(fields);
            && ToolCallName(call) == (if "name" in holder && holder["name"].Str? then holder["name"].s else "")
            && StringField(call, "id") == (if "id" in fields && fields["id"].Str? then fields["id"].s else "")
            && ArgumentsOf(call, parse) ==
                 if "arguments" !in holder then Object(map[])
                 else if !holder["arguments"].Str? then holder["arguments"]
                 else if parse(holder["arguments"].s) == None then Object(map[])
                 else parse(holder["arguments"].s).value
  {
  }

  /** A call runs its tool exactly when it names one, its arguments are an object or null, and no stop was requested. */
  lemma RunsExactlyWhen(call: Json, w: World, look: nat)
    ensures !RunsNothing(call, w, look) <==>
              ToolCallName(call) != "" && (ArgumentsOf(call, w.parse).Object? || ArgumentsOf(call, w.parse) == Null) && !w.stopRequested(look)
  {
  }

  /** What is no object names no tool and runs none. */
  lemma NoObjectNamesNothing(call: Json, w: World, look: nat)
    requires !call.Object?
    ensures ToolCallName(call) == "" && StringField(call, "id") == "" && RunsNothing(call, w, look)
  {
  }

  /** A response that the conversation goes on from: one that asks for tools. */
  predicate GoesOnAfter(o: LLMOutcome)
  {
    o.Response? && o.message.toolCalls != []
  }

  predicate IsErrorResponse(o: LLMOutcome)
  {
    o.Response? && o.isErrorResponse
  }

  function UserMessage(command: string): Message
  {
    Message(User, "\n--- BEGIN USER INPUT ---\n" + command + "\n--- END USER INPUT ---\n", "", [], "", false)
  }
}
