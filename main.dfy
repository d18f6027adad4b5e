/** The classroom simulation of `main.py`: students whose task schemas are checked against
    the discussion, the keyword reflection, the math-problem game and its turn order. */
module Classroom {
  import opened Wrappers
  import opened Strings
  import opened Dicts
  import opened Draws
  import opened LlmUtils
  import G = TournamentGame

  // ---------------------------------------------------------------------------
  // Task schemas and the schema-difference scan

  /** A JSON value as far as the scan looks at it: a text, or anything else. */
  datatype Value = Str(s: string) | NonStr

  /** A task of a schema: its `variables` dict. */
  datatype Task = Task(variables: Dict<Value>)

  type TaskSchema = Dict<Task>

  datatype Difference = Difference(taskKey: string, variable: string, expectedValue: string, foundInMessage: string)

  /** A text variable value that the lower-cased message does not contain. */
  predicate Fails(value: Value, message: string) {
    value.Str? && !Contains(Lower(message), Lower(value.s))
  }

  /** The differences of one task against one text message, in variable order. */
  function MessageDifferences(taskKey: string, variables: Dict<Value>, message: string): seq<Difference>
    decreases |variables|
  {
    if |variables| == 0 then []
    else
      var (v, value) := variables[|variables| - 1];
      MessageDifferences(taskKey, variables[..|variables| - 1], message) +
        (if Fails(value, message) then [Difference(taskKey, v, value.s, message)] else [])
  }

  /** The differences of one task against the history, in message order; other than text
      messages are skipped. */
  function TaskDifferences(taskKey: string, variables: Dict<Value>, history: seq<Value>): seq<Difference>
    decreases |history|
  {
    if |history| == 0 then []
    else
      var message := history[|history| - 1];
      TaskDifferences(taskKey, variables, history[..|history| - 1]) +
        (if message.Str? then MessageDifferences(taskKey, variables, message.s) else [])
  }

  /** The differences of a whole schema, in task order. */
  function Differences(taskSchema: TaskSchema, history: seq<Value>): seq<Difference>
    decreases |taskSchema|
  {
    if |taskSchema| == 0 then []
    else
      var (key, task) := taskSchema[|taskSchema| - 1];
      Differences(taskSchema[..|taskSchema| - 1], history) + TaskDifferences(key, task.variables, history)
  }

  /** `_compare_with_schema`: the differences, or `None` when there are none. */
  method CompareWithSchema(taskSchema: TaskSchema, history: seq<Value>) returns (differences: Option<seq<Difference>>)
    ensures differences == if Differences(taskSchema, history) == [] then None else Some(Differences(taskSchema, history))
  {
    var detected := [];
    for t := 0 to |taskSchema|
      invariant detected == Differences(taskSchema[..t], history)
    {
      var (taskKey, task) := taskSchema[t];
      assert taskSchema[..t + 1][..t] == taskSchema[..t];
      var done := detected;
      for m := 0 to |history|
        invariant detected == done + TaskDifferences(taskKey, task.variables, history[..m])
      {
        var message := history[m];
        assert history[..m + 1][..m] == history[..m];
        var before := detected;
        if message.Str? {
          for v := 0 to |task.variables|
            invariant detected == before + MessageDifferences(taskKey, task.variables[..v], message.s)
          {
            var (variable, value) := task.variables[v];
            assert task.variables[..v + 1][..v] == task.variables[..v];
            if value.Str? && !Contains(Lower(message.s), Lower(value.s)) {
              detected := detected + [Difference(taskKey, variable, value.s, message.s)];
            }
          }
          assert task.variables[..|task.variables|] == task.variables;
        }
      }
      assert history[..|history|] == history;
    }
    assert taskSchema[..|taskSchema|] == taskSchema;
    if |detected| == 0 {
      differences := None;
    } else {
      differences := Some(detected);
    }
  }

  lemma {:induction false} MessageDifferencesEmpty(taskKey: string, variables: Dict<Value>, message: string)
    ensures MessageDifferences(taskKey, variables, message) == [] <==>
      forall v :: 0 <= v < |variables| ==> !Fails(variables[v].1, message)
    decreases |variables|
  {
    if |variables| > 0 {
      MessageDifferencesEmpty(taskKey, variables[..|variables| - 1], message);
    }
  }

  lemma {:induction false} TaskDifferencesEmpty(taskKey: string, variables: Dict<Value>, history: seq<Value>)
    ensures TaskDifferences(taskKey, variables, history) == [] <==>
      forall m, v :: 0 <= m < |history| && 0 <= v < |variables| && history[m].Str? ==> !Fails(variables[v].1, history[m].s)
    decreases |history|
  {
    if |history| > 0 {
      var n := |history|;
      TaskDifferencesEmpty(taskKey, variables, history[..n - 1]);
      if history[n - 1].Str? {
        MessageDifferencesEmpty(taskKey, variables, history[n - 1].s);
      }
      assert forall m :: 0 <= m < n - 1 ==> history[..n - 1][m] == history[m];
    }
  }

  /** `_compare_with_schema` finds nothing exactly when, for every task, every text message
      and every text variable value, the lower-cased value occurs in the lower-cased message. */
  lemma {:induction false} NoDifferencesIff(taskSchema: TaskSchema, history: seq<Value>)
    ensures Differences(taskSchema, history) == [] <==>
      forall t, m, v ::
        (0 <= t < |taskSchema| && 0 <= m < |history| && 0 <= v < |taskSchema[t].1.variables| && history[m].Str?) ==>
        !Fails(taskSchema[t].1.variables[v].1, history[m].s)
    decreases |taskSchema|
  {
    if |taskSchema| > 0 {
      var n := |taskSchema|;
      NoDifferencesIff(taskSchema[..n - 1], history);
      TaskDifferencesEmpty(taskSchema[n - 1].0, taskSchema[n - 1].1.variables, history);
      assert forall t :: 0 <= t < n - 1 ==> taskSchema[..n - 1][t] == taskSchema[t];
    }
  }

  /** A difference is explained by the schema and the history: its value is a text value of
      a variable of the task, its message a text message of the history, and the first does
      not occur in the second (ignoring case). */
  predicate Explained(taskSchema: TaskSchema, history: seq<Value>, d: Difference) {
    Str(d.foundInMessage) in history
    && !Contains(Lower(d.foundInMessage), Lower(d.expectedValue))
    && exists t :: 0 <= t < |taskSchema| && taskSchema[t].0 == d.taskKey &&
         (d.variable, Str(d.expectedValue)) in taskSchema[t].1.variables
  }

  lemma {:induction false} MessageDifferencesSound(taskKey: string, variables: Dict<Value>, message: string)
    ensures forall i :: 0 <= i < |MessageDifferences(taskKey, variables, message)| ==>
      var d := MessageDifferences(taskKey, variables, message)[i];
      d.taskKey == taskKey && d.foundInMessage == message &&
      !Contains(Lower(message), Lower(d.expectedValue)) && (d.variable, Str(d.expectedValue)) in variables
    decreases |variables|
  {
    if |variables| > 0 {
      var n := |variables|;
      MessageDifferencesSound(taskKey, variables[..n - 1], message);
      assert forall x :: x in variables[..n - 1] ==> x in variables;
      var (v, value) := variables[n - 1];
      assert (v, value) in variables;
      if Fails(value, message) {
        assert (v, Str(value.s)) == variables[n - 1];
      }
    }
  }

  lemma {:induction false} TaskDifferencesSound(taskKey: string, variables: Dict<Value>, history: seq<Value>)
    ensures forall i :: 0 <= i < |TaskDifferences(taskKey, variables, history)| ==>
      var d := TaskDifferences(taskKey, variables, history)[i];
      d.taskKey == taskKey && Str(d.foundInMessage) in history &&
      !Contains(Lower(d.foundInMessage), Lower(d.expectedValue)) && (d.variable, Str(d.expectedValue)) in variables
    decreases |history|
  {
    if |history| > 0 {
      var n := |history|;
      TaskDifferencesSound(taskKey, variables, history[..n - 1]);
      if history[n - 1].Str? {
        MessageDifferencesSound(taskKey, variables, history[n - 1].s);
      }
      assert forall x :: x in history[..n - 1] ==> x in history;
    }
  }

  /** Every reported difference is a failing (task, text message, text value) triple; in
      particular a value or message that is not text never yields one. */
  lemma {:induction false} DifferencesSound(taskSchema: TaskSchema, history: seq<Value>)
    ensures forall i :: 0 <= i < |Differences(taskSchema, history)| ==>
      Explained(taskSchema, history, Differences(taskSchema, history)[i])
    decreases |taskSchema|
  {
    if |taskSchema| > 0 {
      var n := |taskSchema|;
      var init := taskSchema[..n - 1];
      DifferencesSound(init, history);
      TaskDifferencesSound(taskSchema[n - 1].0, taskSchema[n - 1].1.variables, history);
      var ds := Differences(taskSchema, history);
      forall i | 0 <= i < |ds|
        ensures Explained(taskSchema, history, ds[i])
      {
        if i < |Differences(init, history)| {
          var d := ds[i];
          assert Explained(init, history, d);
          var t :| 0 <= t < |init| && init[t].0 == d.taskKey && (d.variable, Str(d.expectedValue)) in init[t].1.variables;
          assert taskSchema[t] == init[t];
        } else {
          assert taskSchema[n - 1].0 == ds[i].taskKey;
        }
      }
    }
  }

  /** The difference a failing (task, text message, variable) triple gives rise to. */
  function DifferenceOf(taskKey: string, variable: (string, Value), message: string): Difference
    requires variable.1.Str?
  {
    Difference(taskKey, variable.0, variable.1.s, message)
  }

  lemma {:induction false} MessageDifferencesComplete(taskKey: string, variables: Dict<Value>, message: string)
    ensures forall v :: 0 <= v < |variables| && Fails(variables[v].1, message) ==>
      DifferenceOf(taskKey, variables[v], message) in MessageDifferences(taskKey, variables, message)
    decreases |variables|
  {
    if |variables| > 0 {
      var n := |variables|;
      MessageDifferencesComplete(taskKey, variables[..n - 1], message);
      assert forall v :: 0 <= v < n - 1 ==> variables[..n - 1][v] == variables[v];
    }
  }

  lemma {:induction false} TaskDifferencesComplete(taskKey: string, variables: Dict<Value>, history: seq<Value>)
    ensures forall m, v ::
      (0 <= m < |history| && 0 <= v < |variables| && history[m].Str? && Fails(variables[v].1, history[m].s)) ==>
      DifferenceOf(taskKey, variables[v], history[m].s) in TaskDifferences(taskKey, variables, history)
    decreases |history|
  {
    if |history| > 0 {
      var n := |history|;
      TaskDifferencesComplete(taskKey, variables, history[..n - 1]);
      if history[n - 1].Str? {
        MessageDifferencesComplete(taskKey, variables, history[n - 1].s);
      }
      assert forall m :: 0 <= m < n - 1 ==> history[..n - 1][m] == history[m];
    }
  }

  /** The scan misses nothing: every failing (task, text message, text value) triple is
      reported, with its task key, variable, value and message. */
  lemma {:induction false} DifferencesComplete(taskSchema: TaskSchema, history: seq<Value>)
    ensures forall t, m, v ::
      (0 <= t < |taskSchema| && 0 <= m < |history| && 0 <= v < |taskSchema[t].1.variables| &&
       history[m].Str? && Fails(taskSchema[t].1.variables[v].1, history[m].s)) ==>
      DifferenceOf(taskSchema[t].0, taskSchema[t].1.variables[v], history[m].s) in Differences(taskSchema, history)
    decreases |taskSchema|
  {
    if |taskSchema| > 0 {
      var n := |taskSchema|;
      DifferencesComplete(taskSchema[..n - 1], history);
      TaskDifferencesComplete(taskSchema[n - 1].0, taskSchema[n - 1].1.variables, history);
      assert forall t :: 0 <= t < n - 1 ==> taskSchema[..n - 1][t] == taskSchema[t];
    }
  }

  // ---------------------------------------------------------------------------
  // Reflection and schema regeneration

  const ProgressSentence := "They made progress in correcting a misconception."
  const NoChangeSentence := "They did not detect a change in their understanding."
  const MistakesSentence := "There was discussion about potential mistakes."

  /** `any("mistake" in msg.lower() for msg in history)`. */
  predicate MentionsMistake(history: seq<string>)
    decreases |history|
  {
    |history| > 0 && (Contains(Lower(history[0]), "mistake") || MentionsMistake(history[1..]))
  }

  lemma {:induction false} MentionsMistakeIff(history: seq<string>)
    ensures MentionsMistake(history) <==> exists i :: 0 <= i < |history| && Contains(Lower(history[i]), "mistake")
    decreases |history|
  {
    if |history| > 0 {
      MentionsMistakeIff(history[1..]);
      if exists i :: 0 <= i < |history| && Contains(Lower(history[i]), "mistake") {
        var i :| 0 <= i < |history| && Contains(Lower(history[i]), "mistake");
        if i > 0 {
          assert history[1..][i - 1] == history[i];
        }
      }
      if MentionsMistake(history[1..]) {
        var i :| 0 <= i < |history[1..]| && Contains(Lower(history[1..][i]), "mistake");
        assert history[i + 1] == history[1..][i];
      }
    }
  }

  /** The interaction mentions a correction or a realisation, ignoring case. */
  predicate MadeProgress(interaction: string) {
    Contains(Lower(interaction), "correct") || Contains(Lower(interaction), "realize")
  }

  /** The reflection points of `_reflect_on_conversation`. */
  function ReflectionPoints(interaction: string, history: seq<string>): seq<string> {
    (if MadeProgress(interaction) then [ProgressSentence] else [NoChangeSentence]) +
    (if MentionsMistake(history) then [MistakesSentence] else [])
  }

  const ReflectionLeadIn := " reflected on their interactions and summarized as follows: "

  /** `_reflect_on_conversation`: the name, the fixed lead-in and the points joined by spaces,
      that is the progress or no-change sentence, then the mistakes sentence after one space
      when some message mentions a mistake. */
  function ReflectionSummary(name: string, interaction: string, history: seq<string>): (summary: string)
    ensures summary == name + ReflectionLeadIn +
      (if MadeProgress(interaction) then ProgressSentence else NoChangeSentence) +
      (if MentionsMistake(history) then " " + MistakesSentence else "")
  {
    var points := ReflectionPoints(interaction, history);
    assert |points| == 2 ==> Join(points, " ") == points[0] + " " + Join(points[1..], " ");
    name + ReflectionLeadIn + Join(points, " ")
  }

  /** The progress sentence is there exactly when the interaction says "correct" or
      "realize"; otherwise the no-change sentence is; the mistakes sentence is there exactly
      when some message says "mistake"; the first point is always one of the first two. */
  lemma ReflectionSentences(interaction: string, history: seq<string>)
    ensures ProgressSentence in ReflectionPoints(interaction, history) <==> MadeProgress(interaction)
    ensures NoChangeSentence in ReflectionPoints(interaction, history) <==> !MadeProgress(interaction)
    ensures MistakesSentence in ReflectionPoints(interaction, history) <==>
      exists i :: 0 <= i < |history| && Contains(Lower(history[i]), "mistake")
    ensures |ReflectionPoints(interaction, history)| == (if MentionsMistake(history) then 2 else 1)
  {
    MentionsMistakeIff(history);
    assert ProgressSentence != NoChangeSentence && ProgressSentence != MistakesSentence;
    assert NoChangeSentence != MistakesSentence;
  }

  /** What `parse_json` made of the regeneration reply. */
  datatype SchemaReply = NotADict | ADict(schema: TaskSchema)

  /** `_regenerate_task_schema`: a non-empty dict replaces the schema, anything else keeps it. */
  function RegenerateTaskSchema(current: TaskSchema, reply: SchemaReply): (schema: TaskSchema)
    ensures reply.ADict? && reply.schema != [] ==> schema == reply.schema
    ensures reply.NotADict? || reply.schema == [] ==> schema == current
  {
    match reply
    case ADict(s) => if s == [] then current else s
    case NotADict => current
  }

  /** The history as the scan sees it: every message is a text. */
  function AsValues(history: seq<string>): (values: seq<Value>)
    ensures |values| == |history| && forall i :: 0 <= i < |history| ==> values[i] == Str(history[i])
  {
    seq(|history|, i requires 0 <= i < |history| => Str(history[i]))
  }

  /** A simulated student and the task schema it currently holds. */
  class Student {
    const name: string
    var taskSchema: TaskSchema

    constructor (name: string, taskSchema: TaskSchema)
      ensures this.name == name && this.taskSchema == taskSchema
    {
      this.name := name;
      this.taskSchema := taskSchema;
    }

    /** `reflect_and_decide`: reflects, scans the schema against the history and regenerates
        the schema from `reply` only when a difference was found; returns the reflection
        summary and the schema the student then holds. */
    method ReflectAndDecide(interaction: string, history: seq<string>, reply: SchemaReply)
      returns (reflection: string, schema: TaskSchema)
      modifies this
      ensures reflection == ReflectionSummary(name, interaction, history)
      ensures Differences(old(taskSchema), AsValues(history)) == [] ==> taskSchema == old(taskSchema)
      ensures Differences(old(taskSchema), AsValues(history)) != [] ==>
        taskSchema == RegenerateTaskSchema(old(taskSchema), reply)
      ensures schema == taskSchema
    {
      reflection := ReflectionSummary(name, interaction, history);
      var differences := CompareWithSchema(taskSchema, AsValues(history));
      if differences.Some? {
        taskSchema := RegenerateTaskSchema(taskSchema, reply);
      }
      schema := taskSchema;
    }
  }

  /** A student whose schema the whole history confirms keeps it, whatever the reply. */
  lemma ConfirmedSchemaIsKept(current: TaskSchema, history: seq<string>)
    requires forall t, m, v :: 0 <= t < |current| && 0 <= m < |history| && 0 <= v < |current[t].1.variables| ==>
      !Fails(current[t].1.variables[v].1, history[m])
    ensures Differences(current, AsValues(history)) == []
  {
    var values := AsValues(history);
    forall t, m, v | 0 <= t < |current| && 0 <= m < |values| && 0 <= v < |current[t].1.variables| && values[m].Str?
      ensures !Fails(current[t].1.variables[v].1, values[m].s)
    {
      assert values[m].s == history[m];
    }
    NoDifferencesIff(current, values);
  }

  // ---------------------------------------------------------------------------
  // The math-problem game

  const Intro := Module(Some("introduction"),
    "Introduce yourself and share any initial thoughts you have on approaching the math problem.")
  const Reflect := Module(Some("reflection"),
    "Reflect on what has been discussed so far. What do you know about the problem now? What potential solutions or mistakes have been identified?")
  const Plan := Module(Some("plan"),
    "Based on your reflection, write a plan for how to approach solving the math problem.")
  const Message := Module(Some("message"),
    "Write a concise message to the group with your next step or question to help solve the math problem.")

  const DefaultProblem := "Simplify the following, if possible: (m^2 + 2m - 3) / (m - 3)"

  /** `_get_modules_for_round`: the first round introduces, every later one reflects, plans
      and speaks; the number of rounds plays no part. */
  function ModulesForRound(currentRound: int, totalRounds: int): (modules: seq<Module>)
    ensures G.ModuleNames(modules) == if currentRound == 1 then [Some("introduction"), Some("message")]
                                      else [Some("reflection"), Some("plan"), Some("message")]
    ensures modules[|modules| - 1] == Message
    ensures G.WellNamed(modules)
  {
    if currentRound == 1 then [Intro, Message] else [Reflect, Plan, Message]
  }

  /** The game state once messages have been published. */
  function Discussion(problem: string, messages: seq<string>): string {
    "MATH PROBLEM: " + problem + "\n\nDISCUSSION SO FAR:\n" + Join(messages, "\n")
  }

  /** The state of `main.py`'s `Game`. */
  class MathGame {
    const mathProblem: string
    var publicMessages: seq<string>
    var gamestate: string
    var log: string
    var roundNumber: int

    constructor (mathProblem: string)
      ensures this.mathProblem == mathProblem && publicMessages == [] && log == "" && roundNumber == 0
      ensures gamestate == "Math Problem: " + mathProblem + "\nStart by analyzing the problem.\n"
    {
      this.mathProblem := mathProblem;
      publicMessages := [];
      gamestate := "Math Problem: " + mathProblem + "\nStart by analyzing the problem.\n";
      log := "";
      roundNumber := 0;
    }

    /** `update_gamestate`: appends `"name: message"` and shows the problem and the transcript. */
    method UpdateGamestate(agentName: string, message: string)
      modifies this
      ensures publicMessages == old(publicMessages) + [agentName + ": " + message]
      ensures gamestate == Discussion(mathProblem, publicMessages)
      ensures log == old(log) && roundNumber == old(roundNumber)
    {
      publicMessages := publicMessages + [agentName + ": " + message];
      gamestate := "MATH PROBLEM: " + mathProblem + "\n\nDISCUSSION SO FAR:\n" + Join(publicMessages, "\n");
    }

    /** `_update_log`, which is the same as in the tournament game. */
    method UpdateLog(agentData: Dict<string>, currentRound: int)
      requires Get(agentData, "name").Some?
      modifies this
      ensures roundNumber == currentRound
      ensures log == old(log) + G.RoundHeader(old(roundNumber), currentRound) + G.LogEntry(agentData)
      ensures publicMessages == old(publicMessages) && gamestate == old(gamestate)
    {
      var header := "";
      if currentRound != roundNumber {
        roundNumber := currentRound;
        header := "\n\n## Round " + IntToString(currentRound) + "\n\n";
        log := log + header;
      }
      assert log == old(log) + header;
      var entry := G.RenderEntry(agentData);
      log := log + entry;
    }

    /** `log_user_agent`: starts the log afresh with the user's agent. */
    method LogUserAgent(name: string, persona: string)
      modifies this
      ensures log == UserAgentLog(name, persona)
      ensures publicMessages == old(publicMessages) && gamestate == old(gamestate) && roundNumber == old(roundNumber)
    {
      log := "# Game Log\n\n## User-defined Agent\n\n```python\n{'name': '" + name + "', 'persona': '" + persona + "'}\n```\n";
    }
  }

  /** The log that `log_user_agent` writes. */
  function UserAgentLog(name: string, persona: string): string {
    "# Game Log\n\n## User-defined Agent\n\n```python\n{'name': '" + name + "', 'persona': '" + persona + "'}\n```\n"
  }

  /** The user-agent log throws away what was logged before: it always opens with the same
      heading, whatever the old log held. */
  lemma UserAgentLogShape(name: string, persona: string)
    ensures IsPrefix("# Game Log\n\n## User-defined Agent\n\n", UserAgentLog(name, persona))
    ensures Contains(UserAgentLog(name, persona), name)
  {
    var log := UserAgentLog(name, persona);
    var k := |"# Game Log\n\n## User-defined Agent\n\n```python\n{'name': '"|;
    assert OccursAt(log, name, k) by {
      assert log[k..k + |name|] == name;
    }
    ContainsIffOccurs(log, name);
  }

  /** The game state shows the problem first and then every published message, one per line. */
  lemma DiscussionShape(problem: string, messages: seq<string>, line: string)
    ensures IsPrefix("MATH PROBLEM: " + problem + "\n\nDISCUSSION SO FAR:\n", Discussion(problem, messages))
    ensures |messages| > 0 ==> Discussion(problem, messages + [line]) == Discussion(problem, messages) + "\n" + line
  {
    if |messages| > 0 {
      JoinSnoc(messages, line, "\n");
    }
  }

  // ---------------------------------------------------------------------------
  // Turn order of `next_agent`

  /** An agent of the math game. `id` stands for the object: `Agent` defines no `__eq__`,
      so `next_agent`'s `agent != last_speaker` compares objects, and two agents with the
      same name are still two agents. */
  datatype Agent = Agent(id: nat, name: string)

  /** `init_game`: one fresh `Agent` per entry of the agent list, in order. */
  function InitAgents(names: seq<string>): (agents: seq<Agent>)
    ensures |agents| == |names| && Distinct(agents)
    ensures forall i :: 0 <= i < |names| ==> agents[i].name == names[i]
  {
    seq(|names|, i requires 0 <= i < |names| => Agent(i, names[i]))
  }

  /** The filter `a != last` of the comprehension `[a for a in agents if a != last]`. */
  function IsNot(last: Agent): Agent -> bool {
    (a: Agent) => a != last
  }

  /** The order of a new round. When earlier turns exist, the last speaker is taken out,
      the others are shuffled by `shufflePicks` and the last speaker is put back at the
      position `randint(1, len(others))` drawn from `insertPick`; otherwise the whole list
      is shuffled. It fails, with the `IndexError` of `agents[-1]` or the `ValueError` of
      `randint(1, 0)`, exactly when earlier turns exist and no agent but the last speaker
      is left. */
  function Reorder(agents: seq<Agent>, hasData: bool, shufflePicks: seq<nat>, insertPick: nat): (order: Outcome<seq<Agent>>)
    ensures order.Err? <==> hasData && forall i :: 0 <= i < |agents| ==> agents[i] == agents[|agents| - 1]
    ensures order.Ok? && !hasData ==> |order.value| == |agents|
  {
    if !hasData then Ok(Sample(agents, |agents|, shufflePicks))
    else if |agents| == 0 then Err("IndexError: list index out of range")
    else
      var last := agents[|agents| - 1];
      var remaining := Filter(agents, IsNot(last));
      FilterEmptyIff(agents, IsNot(last));
      var shuffled := Sample(remaining, |remaining|, shufflePicks);
      if |shuffled| == 0 then Err("ValueError: empty range for randrange")
      else
        var position := RandInt(1, |shuffled|, insertPick);
        Ok(shuffled[..position] + [last] + shuffled[position..])
  }

  /** A filter keeps nothing exactly when no element passes it. */
  lemma {:induction false} FilterEmptyIff(xs: seq<Agent>, keep: Agent -> bool)
    ensures |Filter(xs, keep)| == 0 <==> forall i :: 0 <= i < |xs| ==> !keep(xs[i])
  {
    if exists i :: 0 <= i < |xs| && keep(xs[i]) {
      var i :| 0 <= i < |xs| && keep(xs[i]);
      FilterMembers(xs, keep, xs[i]);
    } else if |Filter(xs, keep)| > 0 {
      FilterMembers(xs, keep, Filter(xs, keep)[0]);
    }
  }

  /** The new order is a rearrangement of the old one, and the last speaker of the previous
      round never speaks first. The agents are distinct objects (`init_game` makes one per
      entry), whatever their names. */
  lemma ReorderIsPermutation(agents: seq<Agent>, hasData: bool, shufflePicks: seq<nat>, insertPick: nat)
    requires Distinct(agents)
    requires Reorder(agents, hasData, shufflePicks, insertPick).Ok?
    ensures multiset(Reorder(agents, hasData, shufflePicks, insertPick).value) == multiset(agents)
    ensures Distinct(Reorder(agents, hasData, shufflePicks, insertPick).value)
    ensures hasData ==> Reorder(agents, hasData, shufflePicks, insertPick).value[0] != agents[|agents| - 1]
  {
    if !hasData {
      ShuffleIsPermutation(agents, shufflePicks);
    } else {
      var last, init := agents[|agents| - 1], agents[..|agents| - 1];
      OthersOfDistinct(agents);
      var shuffled := Sample(init, |init|, shufflePicks);
      var position := RandInt(1, |shuffled|, insertPick);
      assert Reorder(agents, hasData, shufflePicks, insertPick) == Ok(shuffled[..position] + [last] + shuffled[position..]);
      ShuffleIsPermutation(init, shufflePicks);
      PutBack(shuffled, last, position);
      SplitLast(agents);
      EarlierIsNotLast(agents, shuffled[0]);
    }
    DistinctOfSameBag(agents, Reorder(agents, hasData, shufflePicks, insertPick).value);
  }

  /** For distinct agents after earlier turns: the others, in their shuffled order, with
      the last speaker put back at the drawn position. */
  lemma ReorderDistinct(agents: seq<Agent>, shufflePicks: seq<nat>, insertPick: nat)
    requires Distinct(agents) && |agents| >= 2
    ensures var others := Sample(agents[..|agents| - 1], |agents| - 1, shufflePicks);
      var position := RandInt(1, |agents| - 1, insertPick);
      Reorder(agents, true, shufflePicks, insertPick) ==
        Ok(others[..position] + [agents[|agents| - 1]] + others[position..])
  {
    OthersOfDistinct(agents);
  }

  /** Two agents with the same name are both kept in the new round: with the draws
      `[0, 0]` and `0` the first `a` speaks first and the second `a` is put back second. */
  lemma SameNamesKept(a: string, b: string)
    ensures var agents := [Agent(0, a), Agent(1, b), Agent(2, a)];
      Reorder(agents, true, [0, 0], 0) == Ok([agents[0], agents[2], agents[1]])
  {
    var agents := [Agent(0, a), Agent(1, b), Agent(2, a)];
    var others := [Agent(0, a), Agent(1, b)];
    ReorderDistinct(agents, [0, 0], 0);
    assert agents[..2] == others;
    SampleInOrder(others);
    assert others[..1] + [agents[2]] + others[1..] == [agents[0], agents[2], agents[1]];
  }

  /** Draws of zero keep a two-element list in order. */
  lemma SampleInOrder(others: seq<Agent>)
    requires |others| == 2
    ensures Sample(others, 2, [0, 0]) == others
  {
    assert RemoveAt(others, 0) == others[1..];
    assert Sample(others[1..], 1, [0]) == [others[1]];
  }

  lemma EarlierIsNotLast(agents: seq<Agent>, x: Agent)
    requires Distinct(agents) && |agents| > 0 && x in multiset(agents[..|agents| - 1])
    ensures x != agents[|agents| - 1]
  {
    var i :| 0 <= i < |agents| - 1 && agents[..|agents| - 1][i] == x;
    assert agents[i] == x;
  }

  /** Putting `last` back at `position` adds it and keeps the first speaker. */
  lemma PutBack(shuffled: seq<Agent>, last: Agent, position: int)
    requires 1 <= position <= |shuffled|
    ensures multiset(shuffled[..position] + [last] + shuffled[position..]) == multiset(shuffled) + multiset{last}
    ensures (shuffled[..position] + [last] + shuffled[position..])[0] == shuffled[0]
  {
    assert shuffled == shuffled[..position] + shuffled[position..];
  }

  /** Taking the last of distinct agents out of the list leaves the agents before it, in order. */
  lemma OthersOfDistinct(agents: seq<Agent>)
    requires Distinct(agents) && |agents| > 0
    ensures Filter(agents, IsNot(agents[|agents| - 1])) == agents[..|agents| - 1]
  {
    var last := agents[|agents| - 1];
    var init := agents[..|agents| - 1];
    SplitLast(agents);
    assert forall i :: 0 <= i < |init| ==> init[i] != last by {
      forall i | 0 <= i < |init| ensures init[i] != last {
        assert init[i] == agents[i];
      }
    }
    DropLast(init, last);
  }

  lemma SplitLast(agents: seq<Agent>)
    requires |agents| > 0
    ensures agents == agents[..|agents| - 1] + [agents[|agents| - 1]]
    ensures multiset(agents[..|agents| - 1]) + multiset{agents[|agents| - 1]} == multiset(agents)
  {
    assert agents == agents[..|agents| - 1] + [agents[|agents| - 1]];
  }

  lemma DropLast(init: seq<Agent>, last: Agent)
    requires forall i :: 0 <= i < |init| ==> init[i] != last
    ensures Filter(init + [last], IsNot(last)) == init
  {
    FilterSnoc(init, last, IsNot(last));
    FilterKeepsAll(init, IsNot(last));
  }

  /** The answer of one `next_agent` call. */
  datatype Turn = Turn(agentData: Dict<string>, currentRound: int, roundFinished: bool)
                | Finished(finalAnswers: seq<Dict<string>>)

  /** The list `get_final_answers` builds: one `{"name", "final_answer"}` dict per agent, in
      the agents' order, with the answer the agent gave. */
  predicate AnswersOf(answers: seq<Dict<string>>, agents: seq<Agent>, answer: Agent -> string) {
    |answers| == |agents| &&
    forall i :: 0 <= i < |agents| ==> answers[i] == [("name", agents[i].name), ("final_answer", answer(agents[i]))]
  }

  /** Where the turn index goes after a turn: the next agent, or back to the first and on to
      the next round when the last agent has spoken. An index in range stays in range, and
      the round is counted up exactly when the round is finished. */
  function Advance(index: nat, count: nat, currentRound: int): (next: (nat, int, bool))
    ensures index < count ==> next.0 < count
    ensures next.1 == (if next.2 then currentRound + 1 else currentRound)
    ensures next.2 <==> index + 1 == count
    ensures next.0 == (if next.2 then 0 else index + 1)
  {
    if index + 1 == count then (0, currentRound + 1, true) else (index + 1, currentRound, false)
  }

  /** `k` turns of a round that starts at index 0. */
  function AfterTurns(count: nat, currentRound: int, k: nat): (nat, int, bool)
    decreases k
  {
    if k == 0 then (0, currentRound, false)
    else
      var (index, round, _) := AfterTurns(count, currentRound, k - 1);
      Advance(index, count, round)
  }

  /** Starting from index 0, every one of the `count` agents has its turn in order, and the
      round ends, with the index back at 0 and the round counted up, exactly at turn `count`. */
  lemma {:induction false} EveryAgentSpeaksOnce(count: nat, currentRound: int, k: nat)
    requires 0 < k <= count
    ensures AfterTurns(count, currentRound, k) ==
      if k == count then (0, currentRound + 1, true) else (k, currentRound, false)
    decreases k
  {
    if k > 1 {
      EveryAgentSpeaksOnce(count, currentRound, k - 1);
    }
  }

  /** The module-level state of the web app that `next_agent` uses: the order of the
      agents, the index of the next speaker and the agent data of the turns so far. */
  class Session {
    var agents: seq<Agent>
    var currentAgentIndex: nat
    var gameData: seq<Dict<string>>

    /** The agents are distinct objects. */
    predicate Valid()
      reads this
    {
      Distinct(agents)
    }

    /** `init_game` on the agent list, with the turn index and the turn data at their
        initial values. */
    constructor (names: seq<string>)
      ensures agents == InitAgents(names) && currentAgentIndex == 0 && gameData == [] && Valid()
    {
      agents := InitAgents(names);
      currentAgentIndex := 0;
      gameData := [];
    }

    /** `get_final_answers`: asks every agent, in order, for its final answer; `answer`
        stands for the language model's reply to the fixed final-answer instruction. */
    method FinalAnswers(answer: Agent -> string) returns (answers: seq<Dict<string>>)
      ensures AnswersOf(answers, agents, answer)
      ensures forall i :: 0 <= i < |answers| ==> Get(answers[i], "name") == Some(agents[i].name)
    {
      answers := [];
      for i := 0 to |agents|
        invariant AnswersOf(answers, agents[..i], answer)
      {
        answers := answers + [[("name", agents[i].name), ("final_answer", answer(agents[i]))]];
      }
      assert agents[..|agents|] == agents;
    }

    /** The turn-order part of `next_agent`. `respond` stands for `get_agent_response` of
        the chosen agent, which may raise, and `answer` for the final-answer call of
        `get_final_answers`; the draws of the shuffle and of the insert position are inputs. An exception leaves the turn index where it was, but keeps
        the new order and the cleared turn data, as the source's assignments before the
        raise do. */
    method NextAgent(currentRound: int, totalRounds: int, shufflePicks: seq<nat>, insertPick: nat,
                     respond: Agent -> Outcome<Dict<string>>, answer: Agent -> string)
      returns (reply: Outcome<Turn>)
      requires Valid()
      modifies this
      ensures Valid()
      ensures currentRound >= totalRounds ==>
        reply.Ok? && reply.value.Finished? && AnswersOf(reply.value.finalAnswers, agents, answer) &&
        agents == old(agents) &&
        currentAgentIndex == old(currentAgentIndex) && gameData == old(gameData)
      ensures currentRound < totalRounds ==>
        var reorder := old(currentAgentIndex) == 0;
        var order := Reorder(old(agents), old(gameData) != [], shufflePicks, insertPick);
        var kept := if reorder && currentRound > 1 then [] else old(gameData);
        if reorder && order.Err? then
          reply == Err(order.error) && agents == old(agents) && gameData == old(gameData)
        else
          agents == (if reorder then order.value else old(agents)) &&
          if old(currentAgentIndex) >= |agents| then
            reply == Err("IndexError: list index out of range") && gameData == kept
          else
            var response := respond(agents[old(currentAgentIndex)]);
            var next := Advance(old(currentAgentIndex), |agents|, currentRound);
            if response.Err? then
              reply == Err(response.error) && gameData == kept
            else
              reply == Ok(Turn(response.value, next.1, next.2)) &&
              gameData == kept + [response.value] && currentAgentIndex == next.0
      ensures reply.Err? ==> currentAgentIndex == old(currentAgentIndex)
    {
      if currentRound < totalRounds {
        if currentAgentIndex == 0 {
          var order := Reorder(agents, gameData != [], shufflePicks, insertPick);
          if order.Err? {
            return Err(order.error);
          }
          ReorderIsPermutation(agents, gameData != [], shufflePicks, insertPick);
          agents := order.value;
          if currentRound > 1 {
            gameData := [];
          }
        }
        if currentAgentIndex >= |agents| {
          return Err("IndexError: list index out of range");
        }
        var response := respond(agents[currentAgentIndex]);
        if response.Err? {
          return Err(response.error);
        }
        gameData := gameData + [response.value];
        var next := Advance(currentAgentIndex, |agents|, currentRound);
        currentAgentIndex := next.0;
        return Ok(Turn(response.value, next.1, next.2));
      } else {
        var answers := FinalAnswers(answer);
        return Ok(Finished(answers));
      }
    }
  }
}
