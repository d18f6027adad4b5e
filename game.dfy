/** The two-person discussion game of `game.py`: the round modules, the public transcript
    and the markdown log, driven by the parsed replies of the agents. */
module TournamentGame {
  import opened Wrappers
  import opened Strings
  import opened Dicts
  import opened LlmUtils

  // ---------------------------------------------------------------------------
  // Prompt modules of the discussion

  const Intro := Module(Some("introduction"),
    "Because the conversation has just started, you need to introduce themselves. Create a plan for a compelling introduction. Be creative in order to craft the most strategic introduction.")
  const Reflect := Module(Some("reflection"),
    "Reflect on the situation by answering each of the following questions.\n1] Knowledge: What do you know so far about the opponent?\n2] Support: You will advocate for yourself to become the !<POSITION>! -- what are the pros and cons of yourself versus your opponent? If not much has been said yet, you can ask your opponent to share their answer to a question.")
  const Plan := Module(Some("plan"),
    "Based on your reflection, write a plan for how you will persuade the audience to vote for you. Your message should be a focused argument that will help you gather more information about the opponent or persuade the group to vote for you. Remember that only one person can win.")
  const Message := Module(Some("message"),
    "Write your 2-4 sentence message to the audience, incorporating your plan from above. Make sure your message is RESPONSIVE: reference and respond to what has previously been said, answer any questions that were directed towards you, and make sure the conversation flows naturally.")
  const FinalMessage := Module(Some("message"),
    "This is your final message in this match. Make a compelling closing statement to convince the audience to vote for you. Summarize your key strengths and qualifications for being !<POSITION>!, and make a clear call to action. Keep it concise but impactful.")

  /** Every module is a step, its name is not `"name"`, and no two share a name. */
  predicate WellNamed(modules: seq<Module>) {
    (forall i :: 0 <= i < |modules| ==> modules[i].name.Some? && modules[i].name.value != "name")
    && (forall i, j :: 0 <= i < j < |modules| ==> modules[i].name != modules[j].name)
  }

  /** The names of the modules, in order. */
  function ModuleNames(modules: seq<Module>): (names: seq<Option<string>>)
    ensures |names| == |modules| && forall i :: 0 <= i < |modules| ==> names[i] == modules[i].name
  {
    seq(|modules|, i requires 0 <= i < |modules| => modules[i].name)
  }

  /** `_get_modules_for_round`: the first round introduces, the last round closes, and the
      rounds between reflect, plan and speak; round 1 wins when it is also the last. */
  function ModulesForRound(currentRound: int, totalRounds: int): (modules: seq<Module>)
    ensures ModuleNames(modules) == if currentRound == 1 then [Some("introduction"), Some("message")]
                                    else [Some("reflection"), Some("plan"), Some("message")]
    ensures modules[|modules| - 1] == if currentRound != 1 && currentRound == totalRounds then FinalMessage else Message
    ensures WellNamed(modules)
  {
    if currentRound == 1 then [Intro, Message]
    else if currentRound == totalRounds then [Reflect, Plan, FinalMessage]
    else [Reflect, Plan, Message]
  }

  /** `[module["name"] for module in modules]`. */
  function TargetKeys(modules: seq<Module>): (keys: seq<string>)
    requires forall i :: 0 <= i < |modules| ==> modules[i].name.Some?
    ensures |keys| == |modules|
    ensures forall i :: 0 <= i < |modules| ==> Some(keys[i]) == modules[i].name
    decreases |modules|
  {
    if |modules| == 0 then [] else [modules[0].name.value] + TargetKeys(modules[1..])
  }

  /** The target keys of well-named modules are distinct and none of them is `"name"`. */
  lemma TargetKeysDistinct(modules: seq<Module>)
    requires WellNamed(modules)
    ensures forall i :: 0 <= i < |TargetKeys(modules)| ==> TargetKeys(modules)[i] != "name"
    ensures forall i, j :: 0 <= i < j < |TargetKeys(modules)| ==> TargetKeys(modules)[i] != TargetKeys(modules)[j]
  {
    var keys := TargetKeys(modules);
    forall i, j | 0 <= i < j < |keys|
      ensures keys[i] != keys[j]
    {
      assert Some(keys[i]) == modules[i].name && Some(keys[j]) == modules[j].name;
    }
  }

  // ---------------------------------------------------------------------------
  // The agent data kept from a parsed reply

  /** `agent_data` after the loop over `keys`: the name, then every key the reply holds. */
  function AgentData(name: string, keys: seq<string>, parsed: map<string, string>): Dict<string>
    decreases |keys|
  {
    if |keys| == 0 then [("name", name)]
    else
      var data := AgentData(name, keys[..|keys| - 1], parsed);
      var k := keys[|keys| - 1];
      if k in parsed then Put(data, k, parsed[k]) else data
  }

  /** What `agent_data[k]` gives: the parsed value when `k` is a target key the reply holds,
      otherwise the agent's name for `"name"`, and nothing for any other key. */
  lemma {:induction false} AgentDataLookup(name: string, keys: seq<string>, parsed: map<string, string>, k: string)
    ensures Get(AgentData(name, keys, parsed), k) ==
      if k in keys && k in parsed then Some(parsed[k])
      else if k == "name" then Some(name)
      else None
    decreases |keys|
  {
    if |keys| > 0 {
      var init := keys[..|keys| - 1];
      AgentDataLookup(name, init, parsed, k);
      assert keys == init + [keys[|keys| - 1]];
      assert k in keys <==> k in init || k == keys[|keys| - 1];
    }
  }

  /** The target keys that the reply holds, in target order. */
  function Present(keys: seq<string>, parsed: map<string, string>): seq<string>
    decreases |keys|
  {
    if |keys| == 0 then []
    else
      var k := keys[|keys| - 1];
      Present(keys[..|keys| - 1], parsed) + (if k in parsed then [k] else [])
  }

  lemma {:induction false} PresentMembers(keys: seq<string>, parsed: map<string, string>)
    ensures forall k :: k in Present(keys, parsed) <==> k in keys && k in parsed
    decreases |keys|
  {
    if |keys| > 0 {
      var init := keys[..|keys| - 1];
      PresentMembers(init, parsed);
      assert keys == init + [keys[|keys| - 1]];
    }
  }

  /** With distinct target keys other than `"name"`, the keys of `agent_data` are `"name"`
      followed by the present target keys, in target order. */
  lemma {:induction false} AgentDataKeys(name: string, keys: seq<string>, parsed: map<string, string>)
    requires forall i :: 0 <= i < |keys| ==> keys[i] != "name"
    requires forall i, j :: 0 <= i < j < |keys| ==> keys[i] != keys[j]
    ensures Keys(AgentData(name, keys, parsed)) == ["name"] + Present(keys, parsed)
    decreases |keys|
  {
    if |keys| > 0 {
      var init := keys[..|keys| - 1];
      var k := keys[|keys| - 1];
      AgentDataKeys(name, init, parsed);
      if k in parsed {
        PresentMembers(init, parsed);
        assert k !in init;
        assert k !in Keys(AgentData(name, init, parsed));
      }
    }
  }

  // ---------------------------------------------------------------------------
  // The log

  /** The header written when the round changes. */
  function RoundHeader(previous: int, currentRound: int): string {
    if currentRound != previous then "\n\n## Round " + IntToString(currentRound) + "\n\n" else ""
  }

  /** The log line of one `agent_data` item. */
  function EntryLine(item: (string, string)): string {
    "**" + Capitalize(item.0) + "**: " + item.1 + "\n\n"
  }

  /** The lines of the items other than `"name"`, in item order. */
  function EntryLines(data: Dict<string>): seq<string>
    decreases |data|
  {
    if |data| == 0 then []
    else
      var item := data[|data| - 1];
      EntryLines(data[..|data| - 1]) + (if item.0 != "name" then [EntryLine(item)] else [])
  }

  /** A list of texts written one after the other. */
  function Concat(parts: seq<string>): string
    decreases |parts|
  {
    if |parts| == 0 then "" else Concat(parts[..|parts| - 1]) + parts[|parts| - 1]
  }

  lemma ConcatSnoc(parts: seq<string>, p: string)
    ensures Concat(parts + [p]) == Concat(parts) + p
  {
    assert (parts + [p])[..|parts|] == parts;
  }

  /** How often `"name"` occurs among the keys. */
  function CountName(data: Dict<string>): nat
    decreases |data|
  {
    if |data| == 0 then 0
    else CountName(data[..|data| - 1]) + (if data[|data| - 1].0 == "name" then 1 else 0)
  }

  /** One line per item that is not `"name"`, each in the `**Key**: value` form, in item order. */
  lemma {:induction false} EntryLinesPerItem(data: Dict<string>)
    ensures |EntryLines(data)| + CountName(data) == |data|
    ensures forall i :: 0 <= i < |EntryLines(data)| ==> IsPrefix("**", EntryLines(data)[i])
    decreases |data|
  {
    if |data| > 0 {
      EntryLinesPerItem(data[..|data| - 1]);
    }
  }

  /** The log text of one `agent_data`: its name as a heading and then its items. */
  function LogEntry(data: Dict<string>): string
    requires Get(data, "name").Some?
  {
    "### " + Get(data, "name").value + "\n\n" + Concat(EntryLines(data))
  }

  const InitialGamestate := "Nothing has been said yet. Start the conversation. You don't know anything about the other people in the group yet, and vice versa.\n"

  /** The game state of `game.py`'s `Game`: the public transcript, what the agents are shown,
      the markdown log and the round the log is in. */
  class Game {
    var publicMessages: seq<string>
    var gamestate: string
    var log: string
    var roundNumber: int

    constructor ()
      ensures publicMessages == [] && gamestate == InitialGamestate && log == "" && roundNumber == 0
    {
      publicMessages := [];
      gamestate := InitialGamestate;
      log := "";
      roundNumber := 0;
    }

    /** `update_gamestate`: appends `"name: message"` and shows the whole transcript. */
    method UpdateGamestate(agentName: string, message: string)
      modifies this
      ensures publicMessages == old(publicMessages) + [agentName + ": " + message]
      ensures gamestate == Join(publicMessages, "\n")
      ensures log == old(log) && roundNumber == old(roundNumber)
    {
      publicMessages := publicMessages + [agentName + ": " + message];
      gamestate := Join(publicMessages, "\n");
    }

    /** `_update_log`: a round header when the round changes, then the entry of `agentData`. */
    method UpdateLog(agentData: Dict<string>, currentRound: int)
      requires Get(agentData, "name").Some?
      modifies this
      ensures roundNumber == currentRound
      ensures log == old(log) + RoundHeader(old(roundNumber), currentRound) + LogEntry(agentData)
      ensures publicMessages == old(publicMessages) && gamestate == old(gamestate)
    {
      var header := "";
      if currentRound != roundNumber {
        roundNumber := currentRound;
        header := "\n\n## Round " + IntToString(currentRound) + "\n\n";
        log := log + header;
      }
      assert log == old(log) + header;
      var entry := RenderEntry(agentData);
      log := log + entry;
    }

    /** The post-parse part of `get_agent_response`: given the parsed reply of the agent to
        the prompt of this round, keeps the target keys, publishes the message if there is
        one and logs the entry. `prompt` is the instruction sent to the model. */
    method GetAgentResponse(agentName: string, currentRound: int, totalRounds: int, parsed: map<string, string>)
      returns (prompt: string, agentData: Dict<string>)
      modifies this
      ensures prompt == Steps(ModulesForRound(currentRound, totalRounds), 0) + "\n" +
                        OutputFormat(ModulesForRound(currentRound, totalRounds))
      ensures agentData == AgentData(agentName, TargetKeys(ModulesForRound(currentRound, totalRounds)), parsed)
      ensures "message" in parsed ==>
        publicMessages == old(publicMessages) + [agentName + ": " + parsed["message"]] &&
        gamestate == Join(publicMessages, "\n")
      ensures "message" !in parsed ==> publicMessages == old(publicMessages) && gamestate == old(gamestate)
      ensures Get(agentData, "name") == Some(agentName)
      ensures roundNumber == currentRound
      ensures log == old(log) + RoundHeader(old(roundNumber), currentRound) + LogEntry(agentData)
    {
      var modules := ModulesForRound(currentRound, totalRounds);
      var targetKeys := TargetKeys(modules);
      prompt := ModularInstructions(modules);
      agentData := CollectAgentData(agentName, targetKeys, parsed);
      if "message" in parsed {
        UpdateGamestate(agentName, parsed["message"]);
      }
      AgentDataLookup(agentName, targetKeys, parsed, "name");
      UpdateLog(agentData, currentRound);
    }
  }

  /** The loop of `get_agent_response` that copies the target keys the reply holds. */
  method CollectAgentData(agentName: string, targetKeys: seq<string>, parsed: map<string, string>)
    returns (agentData: Dict<string>)
    ensures agentData == AgentData(agentName, targetKeys, parsed)
  {
    agentData := [("name", agentName)];
    for i := 0 to |targetKeys|
      invariant agentData == AgentData(agentName, targetKeys[..i], parsed)
    {
      var key := targetKeys[i];
      assert targetKeys[..i + 1][..i] == targetKeys[..i];
      if key in parsed {
        agentData := Put(agentData, key, parsed[key]);
      }
    }
    assert targetKeys[..|targetKeys|] == targetKeys;
  }

  /** The text `_update_log` appends for `agentData` after the round header. */
  method RenderEntry(agentData: Dict<string>) returns (entry: string)
    requires Get(agentData, "name").Some?
    ensures entry == LogEntry(agentData)
  {
    entry := "### " + Get(agentData, "name").value + "\n\n";
    var lines := "";
    for i := 0 to |agentData|
      invariant lines == Concat(EntryLines(agentData[..i]))
    {
      var (key, value) := agentData[i];
      assert agentData[..i + 1][..i] == agentData[..i];
      if key != "name" {
        var line := "**" + Capitalize(key) + "**: " + value + "\n\n";
        assert line == EntryLine(agentData[i]);
        assert EntryLines(agentData[..i + 1]) == EntryLines(agentData[..i]) + [line];
        ConcatSnoc(EntryLines(agentData[..i]), line);
        lines := lines + line;
      } else {
        assert EntryLines(agentData[..i + 1]) == EntryLines(agentData[..i]);
      }
    }
    assert agentData[..|agentData|] == agentData;
    entry := entry + lines;
  }

  /** The log only grows. */
  lemma LogIsAppendOnly(log: string, previous: int, currentRound: int, data: Dict<string>)
    requires Get(data, "name").Some?
    ensures IsPrefix(log, log + RoundHeader(previous, currentRound) + LogEntry(data))
    ensures Contains(RoundHeader(previous, currentRound), "## Round") <==> currentRound != previous
  {
    var h := RoundHeader(previous, currentRound);
    if currentRound != previous {
      assert h[2..][..8] == "## Round";
      assert Contains(h[2..], "## Round");
      assert Contains(h[1..], "## Round");
    } else {
      ShortNotContains(h, "## Round");
    }
  }

  /** The transcript only grows: the old game state is a prefix of the new one once a
      message has been published. */
  lemma GamestateGrows(messages: seq<string>, line: string)
    requires |messages| > 0
    ensures IsPrefix(Join(messages, "\n"), Join(messages + [line], "\n"))
    ensures Join(messages + [line], "\n") == Join(messages, "\n") + "\n" + line
  {
    JoinSnoc(messages, line, "\n");
  }
}
