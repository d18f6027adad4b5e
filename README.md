# SimTeach in Dafny

SimTeach simulates conversations between language-model agents. This project models and
proves properties of four parts of it:

- **The tournament of `tournament.py`.** Agents are seeded into a single-elimination
  bracket, with byes spread over both halves of the first round. The two contestants of
  each match talk for three rounds. Up to nine sampled spectators then vote, and the
  larger count wins, with a random draw on a tie. Winners move to slot `i / 2` of the next
  round. The agent statistics record the furthest round reached and the votes received,
  and the leaderboard ranks them.
- **The prompt helpers of `llm_utils.py`.** Placeholder filling, the JSON output-format
  block, and the numbered step instructions.
- **The discussion game of `game.py`.** Round modules, the public transcript, the
  Markdown log, and what a parsed agent reply changes.
- **The classroom of `main.py`.** The schema-difference scan, the reflection rule, the
  schema update decision, the math game's transcript and log, and the turn order of
  `next_agent`.

The language model and every random draw are inputs:

- A parsed reply is a `map<string, string>`.
- A spectator's `"vote"` field is an `Option<string>`, where `None` means the call or the
  parse failed.
- `random.shuffle`, `random.sample`, `random.choice` and `random.randint` are decoders of
  a sequence of natural-number draws (module `Draws`). Every draw sequence is accepted.
  `Draws.SampleReachesEveryOutcome` and `Draws.RandIntReachesEveryValue` show that the
  decoders can produce every outcome Python can.

Modules, file by file:

- `wrappers.dfy`: `Option` and `Outcome`.
- `strings.dfy`: the `str` operations used (`join`, `in`, `lower`, `strip`, `rstrip`,
  `replace`, `split`, `str(int)`).
- `dicts.dfy`: insertion-ordered dicts.
- `draws.dfy`: the random draws and list filters.
- `llm_utils.dfy`, `game.dfy`, `main.dfy`: the three helper sources.
- `bracket.dfy`: bracket construction.
- `votes.dfy`: spectators, ballots, tally and winner rule.
- `leaderboard.dfy`: a stable descending sort by an integer-tuple key.
- `engine.dfy`: the class `Tournament`, with its matches, rounds, statistics and snapshot.

The tournament's state is the class `TournamentEngine.Tournament`. Its fields are
`rounds: seq<seq<Match>>` and `stats: map<string, AgentStats>`, and its methods assign
them in place as the source does. `Match` is a value, because no match object is shared
between rounds in the source. The discussion drives a fresh `TournamentGame.Game` object
through its `GetAgentResponse` method.

Notes on what the code does:

- `run_tournament` returns a leaderboard sorted by `(round_reached, total_votes)`. It does
  not use the champion key that the snapshot uses, so the champion need not come first.
  `TournamentLeaderboard.ResultKeyOmitsChampion` exhibits this: a champion with one vote is
  ranked below the losing finalist with five.
- `run_round` assigns `round_reached = r + 1` rather than taking a maximum. The two agree
  because rounds run in increasing order.
- For one agent the code builds `rounds == [[]]`, and `rounds[-1][0]` at
  `tournament.py:126` then raises during `__init__`. It does not declare a trivial
  champion. The model therefore requires at least two agents.

## Model

| member | source | states |
|---|---|---|
| TournamentBracket.CeilLog2 | tournament.py:75 | the round count `k` satisfies `n <= 2^k`, and `2^(k-1) < n` when `k > 0` |
| TournamentBracket.CeilLog2IsLeast | tournament.py:75 | no `j` with `n <= 2^j` is smaller than the round count: it is the least such `k` |
| TournamentBracket.BracketArithmetic | tournament.py:74-97 | for `n >= 2`: at least one round, `2^(k-1)` first-round matches, `2^k` slots, fewer byes than matches, `n == 2 * matches - byes`, and both bye loops fit in their halves |
| TournamentBracket.FiveAgents | tournament.py:75-97 | five agents give 3 rounds and 3 byes in 4 matches; slots 0, 2 and 3 are byes and slot 1 is contested |
| TournamentBracket.SeatByes | tournament.py:90-97 | one bye loop seats `(None, popped)` in `count` slots from `start`, leaves the rest alone, and loses no agent |
| TournamentBracket.PlaceByes | tournament.py:86-97 | after both bye loops the first `byes // 2` slots and the `byes // 2 + byes % 2` slots from the middle hold byes, the other slots are empty, and every agent is seated or still in the list |
| TournamentBracket.PairRest | tournament.py:99-103 | the pairing loop fills every empty slot with two popped agents and empties the list, so its `>= 2` guard never fails |
| TournamentBracket.SeatAgents | tournament.py:79-103 | the first-round slots seat every agent exactly once, with the bye layout above and a `participant2` in every slot |
| TournamentBracket.FirstRound | tournament.py:105-111 | one fresh `TournamentMatch(p1, p2)` per slot, in slot order |
| TournamentBracket.LaterRounds | tournament.py:113-120 | the later rounds are empty matches whose counts halve down to exactly one |
| TournamentBracket.SetupTournamentStructure | tournament.py:72-120 | `ceil(log2 n)` rounds of `2^(k-1-j)` matches; every agent appears exactly once in round 0; no round-0 match lacks `participant2`; `participant1` is missing exactly in the bye slots; later rounds are empty |
| TournamentVotes.NumVoters | tournament.py:189 | the sample size is `min(9, number of spectators)` |
| TournamentVotes.VotersAreSpectators | tournament.py:182-190 | the sampled voters number `min(9, pool)`, are agents, and are neither contestant |
| TournamentVotes.SpectatorVoteStands | tournament.py:49-54 | a vote stands exactly when the stripped `"vote"` field is one of the two names, and then it is that name |
| TournamentVotes.CollectVotes | tournament.py:192-216 | the vote loop records the valid ballots in sample order, and `vote_counts` is `{p1: c1, p2: c2}` with the counts of those votes |
| TournamentVotes.TallyStep | tournament.py:193-210 | `vote_counts[vote] += 1` on the tally of some votes gives the tally of those votes plus the new one |
| TournamentVotes.BallotsAtMostVoters | tournament.py:206-216 | no more votes are recorded than spectators were sampled |
| TournamentVotes.BallotsFromVoters | tournament.py:206-211 | every recorded vote comes from a sampled spectator, whose ballot it is |
| TournamentVotes.BallotsKeepValid | tournament.py:206-215 | a sampled spectator with a valid ballot has its vote recorded; invalid ballots are skipped without ending the loop |
| TournamentVotes.BallotsNameContestants | tournament.py:49-54 | every recorded vote names one of the two contestants |
| TournamentVotes.CountsCoverVotes | tournament.py:205-220 | with distinct contestants the two counts add up to the number of votes |
| TournamentVotes.MaxItemIsFirstLargest | tournament.py:223 | `max(items, key=count)` is an item whose count no item exceeds, and no earlier item has that count |
| TournamentVotes.TallyCounts | tournament.py:193-196 | the tally holds exactly the two contestants' counts |
| TournamentVotes.Decide | tournament.py:219-226 | the winner is always one of the two contestants, whatever the counts and the draw |
| TournamentVotes.DecideRule | tournament.py:219-226 | the strictly larger count wins; an equal count, 0–0 included, goes to the `random.choice` draw; the winner is `p1` or `p2` |
| TournamentVotes.CountAppend | tournament.py:229-231 | counting votes for an agent adds up over consecutive stretches of votes |
| TournamentLeaderboard.Ranking | tournament.py:147-156 | the sorted list has as many entries as the statistics; its order and contents are the next rows |
| TournamentLeaderboard.BelowTotal | tournament.py:150-155 | Python's tuple order is total: of two different keys one is below the other |
| TournamentLeaderboard.BelowTransitive | tournament.py:150-155 | Python's tuple order is transitive |
| TournamentLeaderboard.RankingPermutation | tournament.py:147-156 | `sorted(...)` returns a permutation of the statistics |
| TournamentLeaderboard.RankingDescending | tournament.py:147-156 | with `reverse=True` no entry has a larger key than an entry before it |
| TournamentLeaderboard.RankingStable | tournament.py:147-156 | entries with equal keys keep their input order, since Python's sort is stable |
| TournamentLeaderboard.RankingLeader | tournament.py:147-156 | an entry whose key is above every other key comes first |
| TournamentLeaderboard.SnapshotLeader | tournament.py:124-156 | a final winner with a non-empty, unique name who reached the furthest round heads the snapshot leaderboard |
| TournamentLeaderboard.ResultKeyOmitsChampion | tournament.py:274-278 | for a champion with one vote and a losing finalist with five, `run_tournament`'s key ranks the finalist first and the snapshot key ranks the champion first |
| TournamentEngine.TranscriptTurns | tournament.py:175-178 | the transcript has at most one `"name: message"` line per turn, each by a contestant; when every reply has a message, line `k` is turn `k`'s, alternating `p1`, `p2` |
| TournamentEngine.Discuss | tournament.py:171-180 | three rounds of `p1` then `p2` on a fresh game; the recorded conversation is the game state of the resulting transcript |
| TournamentEngine.TakeTurn | tournament.py:177-178 | one turn appends the speaker's message, when the reply has one, and the match takes the game state |
| TournamentEngine.ByeOutcome | tournament.py:163-166 | a bye returns the present participant with no votes and leaves the match as it was, so `is_active` is never set |
| TournamentEngine.ContestedOutcome | tournament.py:168-235 | each vote comes from a sampled agent who is no contestant and names a contestant; at most nine vote; the larger count wins, with a tie to the draw; the match ends inactive |
| TournamentEngine.WinnerIsParticipant | tournament.py:163-226 | a match with a participant has a winner, and it is one of its participants |
| TournamentEngine.CreditedCounts | tournament.py:228-231 | each recorded vote adds exactly one to the named agent's `total_votes`; nothing else changes |
| TournamentEngine.ReachedFacts | tournament.py:241-245 | exactly the present participants of the round get `round_reached = r + 1` |
| TournamentEngine.RoundStatsFacts | tournament.py:228-245 | after a round each agent keeps its entry; participants are at round `r + 1`; totals grow by the round's votes for the agent |
| TournamentEngine.DecidedRound | tournament.py:254-257 | after the round every match has a winner among its own, unchanged participants |
| TournamentEngine.AdvancedRound | tournament.py:259-265 | the next round holds the winners of slots `2k` and `2k + 1` in slot `k` and every slot is ready |
| TournamentEngine.RecordedOfDecided | tournament.py:256-257 | the votes recorded in a decided round are exactly those its matches collected |
| TournamentEngine.VotesStep | tournament.py:228-257 | after each round every agent's total is the number of recorded votes of the rounds so far that name it |
| TournamentEngine.ProgressStep | tournament.py:270-271 | each `run_round` call takes the bracket from `r` rounds played to `r + 1`, keeping every invariant |
| TournamentEngine.InitialProgress | tournament.py:56-120 | a freshly built bracket is at zero rounds played, and every name in it is an agent's |
| TournamentEngine.ChampionFacts | tournament.py:273-279 | after the last round the final has a winner, who is an agent at `round_reached == k` |
| TournamentEngine.ChampionLeads | tournament.py:124-156 | a champion with a non-empty name heads the snapshot leaderboard |
| TournamentEngine.Tournament.constructor | tournament.py:56-70 | `agent_stats` starts at `(name, 0, 0)` for every agent and the bracket is the one `setup_tournament_structure` builds |
| TournamentEngine.Tournament.State | tournament.py:122-158 | the snapshot holds the rounds and a permutation of the statistics in descending `(round_reached, is_final_winner, total_votes)` order |
| TournamentEngine.Tournament.CreditVotes | tournament.py:228-231 | the stat loop adds each recorded vote to its votee, and changes nothing else |
| TournamentEngine.Tournament.RunMatch | tournament.py:161-235 | `run_match` on one slot: its winner, its votes, the match left with the conversation, the votes when any stood and `is_active` false, and the credited statistics; other slots unchanged |
| TournamentEngine.Tournament.MarkReached | tournament.py:241-245 | the first loop of `run_round` sets the participants' round and touches nothing else |
| TournamentEngine.Tournament.PlayMatches | tournament.py:247-255 | the matches of the round run in slot order; the other rounds are unchanged |
| TournamentEngine.Tournament.RecordResults | tournament.py:253-266 | each slot takes its winner and votes; the winner goes to slot `i / 2` of the next round, as `participant1` from an even slot and `participant2` from an odd one; nothing else in the next round changes |
| TournamentEngine.Tournament.RunRound | tournament.py:237-266 | the whole round: every match decided, the next round seeded, the other rounds unchanged, and the statistics updated |
| TournamentEngine.Tournament.PlayRounds | tournament.py:270-271 | all rounds, in order, end with the bracket fully played |
| TournamentEngine.Tournament.RunTournament | tournament.py:268-279 | the champion is `rounds[-1][0].winner`, an agent whose `round_reached` is `k`; the leaderboard is the stable descending sort by `(round_reached, total_votes)` |
| TournamentEngine.Tournament.InitiallyUnplayed | tournament.py:56-120 | right after `__init__` the bracket is at zero rounds played: every first-round slot is ready, every name is an agent's, and no statistic has moved |
| TournamentEngine.PlacedAll | tournament.py:259-265 | placing every result at slot `i / 2`, with even slots filling `participant1` and odd slots `participant2`, seeds the next round from the current round's winners |
| TournamentEngine.Tournament.FinishedBracket | tournament.py:268-279 | in a finished bracket every match has a winner among its participants; each slot holds its feeders' winners; no agent is past round `k`; each total counts the recorded votes naming the agent; a champion with a non-empty name heads the snapshot leaderboard |
| LlmUtils.FillPrompt | llm_utils.py:69-74 | the loop applies each placeholder in map order |
| LlmUtils.FillNothing | llm_utils.py:69-74 | with no placeholders the prompt is unchanged |
| LlmUtils.FillOneIsReplace | llm_utils.py:71-73 | the `in` guard is redundant: a step is `prompt.replace(tag, value)` |
| LlmUtils.FillOneReplacesEveryTag | llm_utils.py:71-73 | a step cuts the prompt at every occurrence of `!<KEY>!` and puts the value in each gap; no piece holds the tag |
| LlmUtils.FillOneAbsent | llm_utils.py:72 | a placeholder whose tag does not occur leaves the prompt unchanged |
| LlmUtils.FillInOrder | llm_utils.py:70 | filling with `a` then `b` is filling with `a + b` |
| LlmUtils.Tag | llm_utils.py:71 | the tag is four characters longer than the key and sits between `!<` and `>!` |
| LlmUtils.MakeOutputFormat | llm_utils.py:76-82 | `make_output_format` is the header, the output lines joined by `,\n`, and `\n}` |
| LlmUtils.AppendOutputLines | llm_utils.py:77-80 | the loop appends one `,\n`-terminated line per module with a non-empty name, in order |
| LlmUtils.StrippedFormat | llm_utils.py:81 | `rstrip(',\n')` removes exactly the last separator, because every line ends in a quote |
| LlmUtils.OutputFormatShape | llm_utils.py:77-82 | the block starts with `Output Format:\n{` and ends with `\n}`; with no named module it is exactly `Output Format:\n{\n}` |
| LlmUtils.OutputLinesCount | llm_utils.py:79-80 | one output line per module whose name is present and non-empty |
| LlmUtils.ModularInstructions | llm_utils.py:84-104 | the prompt is the step lines, an empty line, and `make_output_format(modules)` |
| LlmUtils.StepNumbering | llm_utils.py:95-99 | the module at index `i` that is a step is numbered one more than the steps before it, in module order |
| LlmUtils.StepsVersusOutputLines | llm_utils.py:79-96 | the steps outnumber the output lines by the modules whose name key is empty |
| TournamentGame.ModulesForRound | game.py:63-69 | round 1 gives introduction and message, even when it is also the last; the last round gives reflection, plan and the final message; other rounds give reflection, plan and message; every list ends with a module named `message` |
| TournamentGame.TargetKeysDistinct | game.py:44-69 | the target keys are distinct and none is `"name"` |
| TournamentGame.AgentDataLookup | game.py:50-53 | `agent_data` maps `"name"` to the agent and each present target key to the parsed value, and lacks every other key |
| TournamentGame.AgentDataKeys | game.py:50-53 | the keys of `agent_data` are `"name"` and then the present target keys, in target order |
| TournamentGame.CollectAgentData | game.py:50-55 | the copy loop builds that `agent_data` |
| TournamentGame.Game.constructor | game.py:11-18 | the game starts with no messages, the fixed opening game state, an empty log and round 0 |
| TournamentGame.Game.UpdateGamestate | game.py:20-22 | appends exactly `"name: message"` and sets the game state to the `"\n"`-join of the messages |
| TournamentGame.GamestateGrows | game.py:20-22 | the transcript is append-only: once a message has been published, the old game state is a prefix of the new one |
| TournamentGame.Game.UpdateLog | game.py:71-79 | a `## Round n` header only when the round changes; the round number becomes the round; then the entry |
| TournamentGame.RenderEntry | game.py:76-79 | the entry is `### name` and one `**Key**: value` line per item other than `"name"` |
| TournamentGame.EntryLinesPerItem | game.py:76-79 | one `**`-line per item of `agent_data` that is not `"name"` |
| TournamentGame.LogIsAppendOnly | game.py:71-79 | the old log is a prefix of the new one, and a round header appears exactly when the round changed |
| TournamentGame.Game.GetAgentResponse | game.py:42-61 | the prompt of the round's modules; `agent_data` from the parsed reply; the game state changes exactly when the reply holds `"message"`; the log gains the entry |
| Classroom.CompareWithSchema | main.py:32-50 | the triple loop returns `None` when no difference exists and otherwise the differences in task, message, variable order |
| Classroom.NoDifferencesIff | main.py:37-50 | no difference exactly when every text value, lower-cased, occurs in every lower-cased text message of every task |
| Classroom.DifferencesComplete | main.py:37-49 | every failing (task, text message, text value) triple is reported with its task key, variable, value and message |
| Classroom.DifferencesSound | main.py:38-49 | every reported difference is a failing (task, text message, text value) triple; non-text messages and values never produce one |
| Classroom.MentionsMistakeIff | main.py:61 | `any("mistake" in msg.lower() ...)` holds exactly when some lower-cased message contains `mistake` |
| Classroom.ReflectionSummary | main.py:53-65 | the reflection is the name, the fixed lead-in, the progress or no-change sentence, and the mistakes sentence after one space exactly when a message mentions a mistake |
| Classroom.ReflectionSentences | main.py:53-65 | the progress sentence appears exactly when the interaction mentions `correct` or `realize`, ignoring case; otherwise the no-change sentence; the mistakes sentence exactly when a message mentions a mistake |
| Classroom.RegenerateTaskSchema | main.py:86-92 | a non-empty dict reply replaces the schema; anything else keeps the old one |
| Classroom.Student.ReflectAndDecide | main.py:17-28 | with no difference the schema stays; otherwise it becomes the regenerated schema; the reflection is the summary |
| Classroom.ConfirmedSchemaIsKept | main.py:20-50 | a schema whose text values all occur in every message finds no difference |
| Classroom.ModulesForRound | main.py:163-167 | round 1 gives introduction and message; every other round gives reflection, plan and message |
| Classroom.MathGame.constructor | main.py:95-101 | the math game starts with the problem statement as game state and an empty log |
| Classroom.MathGame.UpdateGamestate | main.py:103-105 | appends `"name: message"` and shows `MATH PROBLEM: ...` and the discussion so far |
| Classroom.DiscussionShape | main.py:103-105 | the game state opens with the problem, and a new message adds one line at the end |
| Classroom.MathGame.UpdateLog | main.py:169-177 | the same log rule as the tournament game |
| Classroom.MathGame.LogUserAgent | main.py:209-210 | the log is replaced by the user-agent header |
| Classroom.UserAgentLogShape | main.py:209-210 | the user-agent log starts with its fixed header and contains the name |
| Classroom.InitAgents | main.py:248-250 | `init_game` builds one agent object per entry, in order, with its name; the objects are distinct even when names repeat |
| Classroom.Reorder | main.py:282-293 | the reorder fails exactly when earlier turns exist and every agent is the last speaker (none left to shuffle); a plain shuffle keeps the length |
| Classroom.ReorderDistinct | main.py:284-291 | with earlier turns and distinct agents, the new order is the other agents shuffled with the last speaker put back at the `randint(1, len)` position |
| Classroom.ReorderIsPermutation | main.py:282-293 | for distinct agent objects the new order is a permutation of the old one, still distinct, and, when earlier turns exist, the last speaker is not first |
| Classroom.SameNamesKept | main.py:284-291 | two agent objects with the same name are both kept: the list `a, b, a` is reordered to `a, a, b` for zero draws, not shrunk |
| Classroom.Advance | main.py:301-306 | the index moves to the next agent, or back to 0 after the last one, so an index in range stays in range; the round is counted up, and the round reported finished, exactly when the last agent has spoken |
| Classroom.EveryAgentSpeaksOnce | main.py:298-306 | from index 0 the agents speak in order, and the index wraps to 0 with the round incremented exactly when all have spoken |
| Classroom.Session.constructor | main.py:248-255 | a new session holds the initial agents, index 0 and no turn data |
| Classroom.Session.FinalAnswers | main.py:215-222 | one `{"name", "final_answer"}` dict per agent, in the agents' order, named after that agent |
| Classroom.Session.NextAgent | main.py:274-319 | keeps the agents distinct; past the last round it answers `Finished` with the final answers and changes nothing; at index 0 it reorders the agents, or fails and changes nothing; an index past the end fails with `IndexError`; a failing response fails; either failure keeps the new order and the cleared data but not the index; otherwise the response is added, after clearing at the start of a later round, and the index and round advance as `Advance` says |
| Draws.Sample | tournament.py:190 | `random.sample(pool, k)` gives `min(k, len(pool))` elements |
| Draws.SampleSplitsPool | tournament.py:190 | sampling draws without replacement: the sample and the rest make up the pool |
| Draws.ShuffleIsPermutation | tournament.py:81 | `random.shuffle` gives a permutation |
| Draws.SampleReachesEveryOutcome | tournament.py:190 | every arrangement `random.sample` can return comes from some draws |
| Draws.RandInt | main.py:289 | `random.randint(lo, hi)` lies in `[lo, hi]` |
| Draws.RandIntReachesEveryValue | main.py:289 | every value of the range is reachable |
| Draws.Choice | tournament.py:221 | `random.choice(xs)` is an element of `xs` |
| Draws.FilterMembers | tournament.py:183-186 | the comprehension keeps exactly the elements that pass its test |
| Strings.ReplaceIsJoinOfSplit | llm_utils.py:73 | `s.replace(pat, rep)` equals `rep.join(s.split(pat))` |
| Strings.Strip | tournament.py:49 | `strip()` leaves no whitespace at either end, Python's Unicode whitespace included |
| Strings.StripIsSlice | tournament.py:49 | `strip()` is `s` with exactly its leading and trailing whitespace removed: the result is a slice of `s` with only whitespace before and after it |
| Strings.StripNoBreakSpace | tournament.py:49-51 | a vote with a trailing no-break space is stripped to the bare name |

## Left out

- Language-model calls (`gen_oai`, `instruct_agent`, the spectator's vote prompt, `_regenerate_task_schema`'s prompt) are not modelled. Their parsed results are inputs.
- `parse_json` is not modelled, because it is built on `json.loads` and regular expressions. Its results are inputs.
- Concurrency is not modelled. `run_round` submits the matches to a thread pool; the model runs them one after another in slot order. Matches of a round touch disjoint agents, so the outcome is the same.
- SocketIO emits, `time.sleep` and `print` are not modelled. `Tournament.State` models only the data of the snapshot, not its delivery.
- Randomness is not modelled as randomness. `random.shuffle`, `random.sample`, `random.choice` and `random.randint` are driven by explicit draws.
- Floating-point `math.log2` is replaced by an integer ceiling log2. The two agree for the bracket sizes that are reachable.
- TournamentEngine.Tournament.constructor: requires at least two agents. For zero agents the source fails in `log2`. For one agent it fails at `rounds[-1][0]`.
- TournamentEngine.Tournament.constructor: requires distinct agent names. The source keys `agent_stats` by name and finds spectators by object identity; with distinct names the two agree.
- TournamentEngine.Tournament.RunMatch: `match.votes` is set once with all votes. The source copies it after every vote, but only the snapshots in between could observe the difference.
- TournamentEngine.Tournament.RunMatch: the `Game` objects' `agents` and `position` fields are not modelled, nor the spectator game whose game state is the conversation. These only feed the prompts, which are inputs here.
- TournamentEngine.Tournament.RunMatch: a dialogue call that raises is not modelled. In the source the exception at `tournament.py:175-176` surfaces at `future.result()` (`tournament.py:255`) and ends `run_round` and `run_tournament`. Replies are inputs that are already parsed. A raising vote call is caught (`tournament.py:206-215`) and modelled as a `None` ballot, which skips that spectator.
- TournamentEngine.Tournament.RunTournament: requires a freshly built tournament (`Initial`). The source calls `run_tournament` once, right after `__init__`.
- Classroom.CompareWithSchema: takes every task as a dict with a `variables` dict. The source's `task["variables"]` (`main.py:41`) raises `KeyError` or `TypeError` for any other task, which `_regenerate_task_schema` can install, since it accepts any non-empty dict (`main.py:87-92`).
- Classroom.Student.ReflectAndDecide: the interaction and the history messages are texts, since parsed replies are `map<string, string>`. A reply that `json.loads` accepts can hold a non-text value, and then `interaction.lower()` (`main.py:57`) raises, for instance on `{"message": 5}`.
- `Strings.Lower`, `Upper` and `Capitalize` handle ASCII letters only. Unicode case mapping is not modelled.
- `Game.get_agent_response` in `main.py` also calls `reflect_and_decide` for the speaking agent. That call is modelled on its own as `Student.ReflectAndDecide`, not inside the math game's response.
- `Game.run_round` of `main.py` is not modelled as a loop. No route calls it. The steps it is made of are modelled: the modules (`ModulesForRound`), `modular_instructions`, `fill_prompt` and `update_gamestate`. The reply it parses is a language-model call.
- Classroom.InitAgents: keeps only each agent's name and identity. The persona and the `task_schema` (default `{}`) only feed prompts and `reflect_and_decide`, which is modelled on its own.
- Classroom.Session.FinalAnswers: the answer of each agent is an input. A language-model call that raises is not modelled.
- The Flask routes other than `next_agent`'s turn logic, `send_file`, and the module-level reset are not modelled. They are I/O.
- `agents.py` and `math_problems.py` are not modelled. They hold static data only.
