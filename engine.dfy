/** The tournament engine of `tournament.py`: the class `Tournament` that holds the bracket
    and the per-agent statistics, runs each match (a three-round discussion, then a vote of
    sampled spectators), runs the rounds in order while moving each winner into the next
    round, and builds the state it shows. What the language model says and every random
    draw come in as a `MatchOracle` per match. */
module TournamentEngine {
  import opened Wrappers
  import opened Strings
  import opened Draws
  import opened TournamentBracket
  import opened TournamentVotes
  import opened TournamentLeaderboard
  import G = TournamentGame

  /** What one match receives from outside: the parsed reply of each discussion turn, the
      draws of `random.sample` over the spectators, each spectator's `"vote"` field, and the
      draw of `random.choice` that settles a tie. */
  datatype MatchOracle = MatchOracle(replies: nat -> map<string, string>, voterPicks: seq<nat>,
                                     ballot: string -> Option<string>, tieBreak: nat)

  // ---------------------------------------------------------------------------
  // The discussion of a match

  /** Rounds of discussion in a match. */
  const DiscussionRounds := 3

  /** Who speaks at turn `t`, counted from 0: `participant1`, then `participant2`. */
  function Speaker(p1: string, p2: string, t: nat): string {
    if t % 2 == 0 then p1 else p2
  }

  /** The public messages after the first `t` turns: one `"name: message"` line for each
      reply that carries a `"message"`. */
  function Transcript(p1: string, p2: string, replies: nat -> map<string, string>, t: nat): seq<string>
    decreases t
  {
    if t == 0 then []
    else
      var prior := Transcript(p1, p2, replies, t - 1);
      var reply := replies(t - 1);
      if "message" in reply then prior + [Speaker(p1, p2, t - 1) + ": " + reply["message"]] else prior
  }

  /** What `game.gamestate` shows for the public messages. */
  function Gamestate(messages: seq<string>): string {
    if |messages| == 0 then G.InitialGamestate else Join(messages, "\n")
  }

  /** The conversation a match records. */
  function Conversation(p1: string, p2: string, replies: nat -> map<string, string>): string {
    Gamestate(Transcript(p1, p2, replies, 2 * DiscussionRounds))
  }

  /** The transcript has at most one line per turn, each spoken by a contestant; when every
      reply carries a message, line `k` is turn `k`'s, so the contestants alternate. */
  lemma {:induction false} TranscriptTurns(p1: string, p2: string, replies: nat -> map<string, string>, t: nat)
    ensures |Transcript(p1, p2, replies, t)| <= t
    ensures forall k :: 0 <= k < |Transcript(p1, p2, replies, t)| ==>
      IsPrefix(p1 + ": ", Transcript(p1, p2, replies, t)[k]) || IsPrefix(p2 + ": ", Transcript(p1, p2, replies, t)[k])
    ensures (forall u :: 0 <= u < t ==> "message" in replies(u)) ==>
      |Transcript(p1, p2, replies, t)| == t &&
      forall k :: 0 <= k < t ==> Transcript(p1, p2, replies, t)[k] == Speaker(p1, p2, k) + ": " + replies(k)["message"]
    decreases t
  {
    if t > 0 {
      TranscriptTurns(p1, p2, replies, t - 1);
      var reply := replies(t - 1);
      if "message" in reply {
        var line := Speaker(p1, p2, t - 1) + ": " + reply["message"];
        assert IsPrefix(Speaker(p1, p2, t - 1) + ": ", line) by {
          PrefixOfConcat(Speaker(p1, p2, t - 1) + ": ", reply["message"]);
        }
      }
    }
  }

  lemma PrefixOfConcat(a: string, b: string)
    ensures IsPrefix(a, a + b)
  {
    assert (a + b)[..|a|] == a;
  }

  /** The discussion of `run_match`: a fresh `Game` of the two contestants, three rounds in
      which `p1` then `p2` answer, the recorded conversation following the game state. */
  method Discuss(p1: string, p2: string, replies: nat -> map<string, string>) returns (conversation: string)
    ensures conversation == Conversation(p1, p2, replies)
  {
    var game := new G.Game();
    conversation := "";
    var turn := 0;
    for currentRound := 1 to DiscussionRounds + 1
      invariant turn == 2 * (currentRound - 1)
      invariant game.publicMessages == Transcript(p1, p2, replies, turn)
      invariant game.gamestate == Gamestate(game.publicMessages)
      invariant turn > 0 ==> conversation == game.gamestate
    {
      var agents := [p1, p2];
      for k := 0 to 2
        invariant turn == 2 * (currentRound - 1) + k
        invariant game.publicMessages == Transcript(p1, p2, replies, turn)
        invariant game.gamestate == Gamestate(game.publicMessages)
        invariant turn > 0 ==> conversation == game.gamestate
      {
        assert agents[k] == Speaker(p1, p2, turn);
        conversation := TakeTurn(game, agents[k], currentRound, replies(turn));
        turn := turn + 1;
      }
    }
  }

  /** One turn of the discussion: the speaker answers and the match records the game state. */
  method TakeTurn(game: G.Game, agent: string, currentRound: int, reply: map<string, string>) returns (conversation: string)
    requires game.gamestate == Gamestate(game.publicMessages)
    modifies game
    ensures game.publicMessages == if "message" in reply then old(game.publicMessages) + [agent + ": " + reply["message"]] else old(game.publicMessages)
    ensures game.gamestate == Gamestate(game.publicMessages) && conversation == game.gamestate
  {
    var prompt, agentData := game.GetAgentResponse(agent, currentRound, DiscussionRounds, reply);
    conversation := game.gamestate;
  }

  // ---------------------------------------------------------------------------
  // The outcome of a match

  /** Both participants are present: the match is played, not a bye. */
  predicate Contested(m: Match) {
    m.participant1.Some? && m.participant2.Some?
  }

  /** The votes a match records. */
  function MatchVotes(m: Match, agents: seq<string>, o: MatchOracle): seq<Vote> {
    if Contested(m) then
      var p1, p2 := m.participant1.value, m.participant2.value;
      Ballots(p1, p2, Voters(agents, p1, p2, o.voterPicks), o.ballot)
    else []
  }

  /** The winner `run_match` returns: the present participant of a bye, otherwise the
      winner of the vote. */
  function MatchWinner(m: Match, agents: seq<string>, o: MatchOracle): Option<string> {
    if m.participant1.None? then m.participant2
    else if m.participant2.None? then m.participant1
    else
      var p1, p2 := m.participant1.value, m.participant2.value;
      var votes := MatchVotes(m, agents, o);
      TallyCounts(p1, p2, votes);
      Some(Decide(p1, p2, Tally(p1, p2, votes), o.tieBreak))
  }

  /** The match as `run_match` leaves it: a bye untouched; a played match with its
      conversation, its votes when any stood, and no longer active. */
  function MatchAfter(m: Match, agents: seq<string>, o: MatchOracle): Match {
    if !Contested(m) then m
    else
      var votes := MatchVotes(m, agents, o);
      m.(conversation := Conversation(m.participant1.value, m.participant2.value, o.replies),
         votes := if |votes| > 0 then Some(votes) else m.votes,
         isActive := false)
  }

  /** The match once `run_round` has recorded the result. */
  function Decided(m: Match, agents: seq<string>, o: MatchOracle): Match {
    MatchAfter(m, agents, o).(winner := MatchWinner(m, agents, o), votes := Some(MatchVotes(m, agents, o)))
  }

  /** A bye returns the present participant with no votes and changes nothing. */
  lemma ByeOutcome(m: Match, agents: seq<string>, o: MatchOracle)
    requires !Contested(m)
    ensures MatchWinner(m, agents, o) == if m.participant1.None? then m.participant2 else m.participant1
    ensures MatchVotes(m, agents, o) == [] && MatchAfter(m, agents, o) == m
  {
  }

  /** A played match: each vote comes from a sampled spectator, who is an agent and not a
      contestant, and names a contestant; at most nine vote; the larger count wins and a
      tie goes to the draw; the match ends inactive. */
  lemma ContestedOutcome(m: Match, agents: seq<string>, o: MatchOracle)
    requires Contested(m)
    ensures var p1, p2 := m.participant1.value, m.participant2.value;
      var votes := MatchVotes(m, agents, o);
      (forall vote :: vote in votes ==>
        vote.0 in Voters(agents, p1, p2, o.voterPicks) && vote.0 in agents && vote.0 != p1 && vote.0 != p2 &&
        (vote.1 == p1 || vote.1 == p2)) &&
      |votes| <= NumVoters(|Spectators(agents, p1, p2)|) <= MaxVoters &&
      (p1 != p2 ==> Count(votes, p1) + Count(votes, p2) == |votes|) &&
      MatchWinner(m, agents, o) == Some(
        if Count(votes, p1) > Count(votes, p2) then p1
        else if Count(votes, p2) > Count(votes, p1) then p2
        else if o.tieBreak % 2 == 0 then p1 else p2) &&
      !MatchAfter(m, agents, o).isActive
  {
    var p1, p2 := m.participant1.value, m.participant2.value;
    var voters := Voters(agents, p1, p2, o.voterPicks);
    var votes := MatchVotes(m, agents, o);
    BallotsFromVoters(p1, p2, voters, o.ballot);
    BallotsAtMostVoters(p1, p2, voters, o.ballot);
    VotersAreSpectators(agents, p1, p2, o.voterPicks);
    BallotsNameContestants(p1, p2, voters, o.ballot);
    if p1 != p2 {
      CountsCoverVotes(votes, p1, p2);
    }
    DecideRule(p1, p2, votes, o.tieBreak);
  }

  /** A match with at least one participant gets a winner, and the winner is one of them. */
  lemma WinnerIsParticipant(m: Match, agents: seq<string>, o: MatchOracle)
    requires m.participant1.Some? || m.participant2.Some?
    ensures MatchWinner(m, agents, o).Some?
    ensures MatchWinner(m, agents, o) == m.participant1 || MatchWinner(m, agents, o) == m.participant2
  {
    if Contested(m) {
      DecideRule(m.participant1.value, m.participant2.value, MatchVotes(m, agents, o), o.tieBreak);
    }
  }

  // ---------------------------------------------------------------------------
  // Statistics

  /** `agent_stats` as `__init__` builds it. */
  function InitialStats(agents: seq<string>): map<string, AgentStats> {
    map a | a in agents :: AgentStats(a, 0, 0)
  }

  /** One entry per agent, each under its own name. */
  predicate StatsOf(agents: seq<string>, stats: map<string, AgentStats>) {
    (forall a :: a in agents ==> a in stats) && (forall a :: a in stats ==> a in agents && stats[a].name == a)
  }

  /** The stat update of `run_match`: one more vote for each votee that has stats. */
  function Credited(stats: map<string, AgentStats>, votes: seq<Vote>): map<string, AgentStats>
    decreases |votes|
  {
    if |votes| == 0 then stats
    else
      var prior := Credited(stats, votes[..|votes| - 1]);
      var votee := votes[|votes| - 1].1;
      if votee in prior then prior[votee := prior[votee].(totalVotes := prior[votee].totalVotes + 1)] else prior
  }

  /** Each recorded vote adds exactly one to the total of the agent it names; nothing else
      changes. */
  lemma {:induction false} CreditedCounts(stats: map<string, AgentStats>, votes: seq<Vote>)
    ensures Credited(stats, votes).Keys == stats.Keys
    ensures forall a :: a in stats ==>
      Credited(stats, votes)[a] == stats[a].(totalVotes := stats[a].totalVotes + Count(votes, a))
    decreases |votes|
  {
    if |votes| > 0 {
      CreditedCounts(stats, votes[..|votes| - 1]);
    }
  }

  lemma {:induction false} CreditedAppend(stats: map<string, AgentStats>, a: seq<Vote>, b: seq<Vote>)
    ensures Credited(Credited(stats, a), b) == Credited(stats, a + b)
    decreases |b|
  {
    if |b| == 0 {
      assert a + b == a;
    } else {
      CreditedAppend(stats, a, b[..|b| - 1]);
      assert (a + b)[..|a + b| - 1] == a + b[..|b| - 1];
    }
  }

  /** `agent_stats[p].round_reached = reached` for a present participant with stats. */
  function Mark(stats: map<string, AgentStats>, p: Option<string>, reached: int): map<string, AgentStats> {
    if p.Some? && p.value in stats then stats[p.value := stats[p.value].(roundReached := reached)] else stats
  }

  function MarkAll(stats: map<string, AgentStats>, ps: seq<Option<string>>, reached: int): map<string, AgentStats>
    decreases |ps|
  {
    if |ps| == 0 then stats else Mark(MarkAll(stats, ps[..|ps| - 1], reached), ps[|ps| - 1], reached)
  }

  /** The first loop of `run_round`: every participant of the round reaches `reached`. */
  function Reached(stats: map<string, AgentStats>, ms: seq<Match>, reached: int): map<string, AgentStats>
    decreases |ms|
  {
    if |ms| == 0 then stats
    else
      var m := ms[|ms| - 1];
      MarkAll(Reached(stats, ms[..|ms| - 1], reached), [m.participant1, m.participant2], reached)
  }

  /** Agent `a` sits in one of the matches. */
  predicate Plays(ms: seq<Match>, a: string) {
    exists i :: 0 <= i < |ms| && (ms[i].participant1 == Some(a) || ms[i].participant2 == Some(a))
  }

  lemma MarkBoth(stats: map<string, AgentStats>, m: Match, reached: int)
    ensures MarkAll(stats, [m.participant1, m.participant2], reached).Keys == stats.Keys
    ensures forall a :: a in stats ==>
      MarkAll(stats, [m.participant1, m.participant2], reached)[a] == (if m.participant1 == Some(a) || m.participant2 == Some(a) then stats[a].(roundReached := reached) else stats[a])
  {
    var ps := [m.participant1, m.participant2];
    assert ps[..1][..0] == [] && ps[..1] == [m.participant1];
    assert MarkAll(stats, ps[..1], reached) == Mark(stats, m.participant1, reached);
    assert MarkAll(stats, ps, reached) == Mark(Mark(stats, m.participant1, reached), m.participant2, reached);
  }

  /** Exactly the participants of the round have their round set; nothing else changes. */
  lemma {:induction false} ReachedFacts(stats: map<string, AgentStats>, ms: seq<Match>, reached: int)
    ensures Reached(stats, ms, reached).Keys == stats.Keys
    ensures forall a :: a in stats ==>
      Reached(stats, ms, reached)[a] == if Plays(ms, a) then stats[a].(roundReached := reached) else stats[a]
    decreases |ms|
  {
    if |ms| > 0 {
      var init, m := ms[..|ms| - 1], ms[|ms| - 1];
      ReachedFacts(stats, init, reached);
      MarkBoth(Reached(stats, init, reached), m, reached);
      forall a | a in stats
        ensures Plays(ms, a) <==> Plays(init, a) || m.participant1 == Some(a) || m.participant2 == Some(a)
      {
        if Plays(init, a) {
          var i :| 0 <= i < |init| && (init[i].participant1 == Some(a) || init[i].participant2 == Some(a));
          assert ms[i] == init[i];
        }
        if Plays(ms, a) {
          var i :| 0 <= i < |ms| && (ms[i].participant1 == Some(a) || ms[i].participant2 == Some(a));
          if i < |init| {
            assert ms[i] == init[i];
          }
        }
      }
    }
  }

  /** The votes recorded in a round, in slot order. */
  function RoundVotes(ms: seq<Match>, agents: seq<string>, oracle: (nat, nat) -> MatchOracle, r: nat): seq<Vote>
    decreases |ms|
  {
    if |ms| == 0 then [] else RoundVotes(ms[..|ms| - 1], agents, oracle, r) + MatchVotes(ms[|ms| - 1], agents, oracle(r, |ms| - 1))
  }

  /** The statistics after round `r`: its participants reach `r + 1`, then its votes count. */
  function RoundStats(stats: map<string, AgentStats>, ms: seq<Match>, agents: seq<string>,
                      oracle: (nat, nat) -> MatchOracle, r: nat): map<string, AgentStats> {
    Credited(Reached(stats, ms, r + 1), RoundVotes(ms, agents, oracle, r))
  }

  /** A round moves its participants to round `r + 1`, adds its votes to the totals, and
      keeps every agent's entry. */
  lemma RoundStatsFacts(stats: map<string, AgentStats>, ms: seq<Match>, agents: seq<string>,
                        oracle: (nat, nat) -> MatchOracle, r: nat)
    ensures RoundStats(stats, ms, agents, oracle, r).Keys == stats.Keys
    ensures forall a :: a in stats ==>
      RoundStats(stats, ms, agents, oracle, r)[a] ==
        AgentStats(stats[a].name, if Plays(ms, a) then r + 1 else stats[a].roundReached,
                   stats[a].totalVotes + Count(RoundVotes(ms, agents, oracle, r), a))
  {
    ReachedFacts(stats, ms, r + 1);
    CreditedCounts(Reached(stats, ms, r + 1), RoundVotes(ms, agents, oracle, r));
  }

  /** The leaderboard's input: `agent_stats.values()`, in the order the agents were given. */
  function StatsValues(agents: seq<string>, stats: map<string, AgentStats>): (xs: seq<AgentStats>)
    requires StatsOf(agents, stats)
    ensures |xs| == |agents| && forall i :: 0 <= i < |agents| ==> xs[i] == stats[agents[i]]
  {
    seq(|agents|, i requires 0 <= i < |agents| => stats[agents[i]])
  }

  // ---------------------------------------------------------------------------
  // The bracket as the rounds run

  /** The first `i` matches of a round played in slot order, with their results, and the
      rest still as they were. */
  predicate PlayedUpTo(start: seq<Match>, cur: seq<Match>, results: seq<(Option<string>, seq<Vote>)>,
                       agents: seq<string>, oracle: (nat, nat) -> MatchOracle, r: nat, i: nat) {
    |cur| == |start| && |results| == i && i <= |start| &&
    (forall k :: 0 <= k < i ==>
      cur[k] == MatchAfter(start[k], agents, oracle(r, k)) &&
      results[k] == (MatchWinner(start[k], agents, oracle(r, k)), MatchVotes(start[k], agents, oracle(r, k)))) &&
    (forall k :: i <= k < |start| ==> cur[k] == start[k])
  }

  lemma PlayedUpToStep(start: seq<Match>, cur: seq<Match>, results: seq<(Option<string>, seq<Vote>)>,
                       agents: seq<string>, oracle: (nat, nat) -> MatchOracle, r: nat, i: nat)
    requires PlayedUpTo(start, cur, results, agents, oracle, r, i) && i < |start|
    ensures cur[i] == start[i]
    ensures PlayedUpTo(start, cur[i := MatchAfter(cur[i], agents, oracle(r, i))],
      results + [(MatchWinner(cur[i], agents, oracle(r, i)), MatchVotes(cur[i], agents, oracle(r, i)))],
      agents, oracle, r, i + 1)
  {
  }

  /** The match has a winner, one of its participants. */
  predicate HasWinner(m: Match) {
    m.winner.Some? && (m.winner == m.participant1 || m.winner == m.participant2)
  }

  /** The match has at least one participant. */
  predicate Ready(m: Match) {
    m.participant1.Some? || m.participant2.Some?
  }

  /** Slot `k` of the next round holds the winners of slots `2k` and `2k + 1`. */
  predicate Feeds(cur: seq<Match>, next: seq<Match>) {
    |cur| == 2 * |next| &&
    forall k :: 0 <= k < |next| ==> next[k].participant1 == cur[2 * k].winner && next[k].participant2 == cur[2 * k + 1].winner
  }

  /** The participants and the winner of the match are agents. */
  predicate Known(m: Match, agents: seq<string>) {
    (m.participant1.Some? ==> m.participant1.value in agents) &&
    (m.participant2.Some? ==> m.participant2.value in agents) &&
    (m.winner.Some? ==> m.winner.value in agents)
  }

  predicate RowKnown(ms: seq<Match>, agents: seq<string>) {
    forall i :: 0 <= i < |ms| ==> Known(ms[i], agents)
  }

  predicate AllKnown(rounds: seq<seq<Match>>, agents: seq<string>) {
    forall j, i :: 0 <= j < |rounds| && 0 <= i < |rounds[j]| ==> Known(rounds[j][i], agents)
  }

  predicate Decisive(ms: seq<Match>) {
    forall i :: 0 <= i < |ms| ==> HasWinner(ms[i])
  }

  predicate AllReady(ms: seq<Match>) {
    forall i :: 0 <= i < |ms| ==> Ready(ms[i])
  }

  predicate ReachedAtMost(stats: map<string, AgentStats>, done: int) {
    forall a :: a in stats ==> stats[a].roundReached <= done
  }

  /** Every participant of `ms` with stats has reached round `done`. */
  predicate ReachedAll(stats: map<string, AgentStats>, ms: seq<Match>, done: int) {
    forall a :: a in stats && Plays(ms, a) ==> stats[a].roundReached == done
  }

  /** The votes recorded in the matches of a round, in slot order. */
  function RecordedVotes(ms: seq<Match>): seq<Vote>
    decreases |ms|
  {
    if |ms| == 0 then []
    else RecordedVotes(ms[..|ms| - 1]) + (if ms[|ms| - 1].votes.Some? then ms[|ms| - 1].votes.value else [])
  }

  /** The votes recorded in the first `done` rounds. */
  function BracketVotes(rounds: seq<seq<Match>>, done: nat): seq<Vote>
    requires done <= |rounds|
    decreases done
  {
    if done == 0 then [] else BracketVotes(rounds, done - 1) + RecordedVotes(rounds[done - 1])
  }

  /** Each agent's total is the number of recorded votes that name it. */
  predicate VotesTallied(rounds: seq<seq<Match>>, stats: map<string, AgentStats>, done: nat)
    requires done <= |rounds|
  {
    forall a :: a in stats ==> stats[a].totalVotes == Count(BracketVotes(rounds, done), a)
  }

  /** The bracket after `done` rounds: those rounds are decided and fed forward, the next
      round is ready to play, every name is an agent's, and the furthest round reached is
      `done`, by the participants of the last round played; each agent's total counts the
      votes recorded so far that name it. */
  predicate Progress(rounds: seq<seq<Match>>, stats: map<string, AgentStats>, agents: seq<string>, done: nat) {
    done <= |rounds| && Played(rounds, done) && AllKnown(rounds, agents) &&
    VotesTallied(rounds, stats, done) && Furthest(rounds, stats, done)
  }

  /** The first `done` rounds are decided and fed forward, and the next is ready. */
  predicate Played(rounds: seq<seq<Match>>, done: nat) {
    done <= |rounds| &&
    (forall j :: 0 <= j < done ==> Decisive(rounds[j])) &&
    (forall j :: 0 <= j < done && j + 1 < |rounds| ==> Feeds(rounds[j], rounds[j + 1])) &&
    (done < |rounds| ==> AllReady(rounds[done]))
  }

  /** No agent is past round `done`, and the participants of the last round played are at it. */
  predicate Furthest(rounds: seq<seq<Match>>, stats: map<string, AgentStats>, done: nat) {
    done <= |rounds| && ReachedAtMost(stats, done) && (done > 0 ==> ReachedAll(stats, rounds[done - 1], done))
  }

  /** The next round after `run_round`: each slot takes the winners of its two feeders; its
      other fields are as they were. */
  predicate Advanced(before: seq<Match>, after: seq<Match>, cur: seq<Match>) {
    |after| == |before| && |cur| == 2 * |before| &&
    forall k :: 0 <= k < |after| ==>
      after[k] == before[k].(participant1 := cur[2 * k].winner, participant2 := cur[2 * k + 1].winner)
  }

  /** Every round but `r` and `r + 1` is as it was. */
  predicate OthersKept(before: seq<seq<Match>>, after: seq<seq<Match>>, r: nat) {
    |after| == |before| && forall j :: 0 <= j < |after| && j != r && j != r + 1 ==> after[j] == before[j]
  }

  /** Round `r` with every match run and decided. */
  predicate RoundDecided(before: seq<Match>, after: seq<Match>, agents: seq<string>, oracle: (nat, nat) -> MatchOracle, r: nat) {
    |after| == |before| && forall i :: 0 <= i < |after| ==> after[i] == Decided(before[i], agents, oracle(r, i))
  }

  /** The bracket after `run_round(r)`. */
  predicate RoundRun(before: seq<seq<Match>>, after: seq<seq<Match>>, agents: seq<string>, oracle: (nat, nat) -> MatchOracle, r: nat) {
    r < |before| && OthersKept(before, after, r) &&
    RoundDecided(before[r], after[r], agents, oracle, r) &&
    (r + 1 < |before| ==> Advanced(before[r + 1], after[r + 1], after[r]))
  }

  /** Two rounds in a row: the earlier has twice the matches. */
  lemma Halving(rounds: seq<seq<Match>>, r: nat)
    requires RoundSizes(rounds) && r + 1 < |rounds|
    ensures |rounds[r]| == 2 * |rounds[r + 1]|
  {
    assert |rounds| - 1 - r == (|rounds| - 1 - (r + 1)) + 1;
  }

  lemma DecidedOf(m: Match, agents: seq<string>, o: MatchOracle)
    requires Ready(m) && Known(m, agents)
    ensures Decided(m, agents, o).participant1 == m.participant1 && Decided(m, agents, o).participant2 == m.participant2
    ensures HasWinner(Decided(m, agents, o)) && Known(Decided(m, agents, o), agents)
  {
    WinnerIsParticipant(m, agents, o);
  }

  /** Round `r` is decided and its participants are still agents. */
  lemma DecidedRound(before: seq<Match>, after: seq<Match>, agents: seq<string>, oracle: (nat, nat) -> MatchOracle, r: nat)
    requires RoundDecided(before, after, agents, oracle, r) && AllReady(before)
    requires forall i :: 0 <= i < |before| ==> Known(before[i], agents)
    ensures Decisive(after)
    ensures forall i :: 0 <= i < |after| ==> Known(after[i], agents)
    ensures forall i :: 0 <= i < |after| ==> after[i].participant1 == before[i].participant1 && after[i].participant2 == before[i].participant2
  {
    forall i | 0 <= i < |after|
      ensures HasWinner(after[i]) && Known(after[i], agents)
      ensures after[i].participant1 == before[i].participant1 && after[i].participant2 == before[i].participant2
    {
      DecidedOf(before[i], agents, oracle(r, i));
    }
  }

  /** The next round holds winners of the decided round: it is ready, and its names are
      agents'. */
  lemma AdvancedRound(before: seq<Match>, after: seq<Match>, cur: seq<Match>, agents: seq<string>)
    requires Advanced(before, after, cur) && Decisive(cur)
    requires forall i :: 0 <= i < |cur| ==> Known(cur[i], agents)
    requires forall i :: 0 <= i < |before| ==> Known(before[i], agents)
    ensures Feeds(cur, after) && AllReady(after)
    ensures forall i :: 0 <= i < |after| ==> Known(after[i], agents)
  {
    forall k | 0 <= k < |after|
      ensures Ready(after[k]) && Known(after[k], agents)
    {
      assert HasWinner(cur[2 * k]) && Known(cur[2 * k], agents);
      assert HasWinner(cur[2 * k + 1]) && Known(cur[2 * k + 1], agents);
    }
  }

  /** Feeding depends only on the winners of one round and the participants of the next. */
  lemma FeedsKept(cur: seq<Match>, next: seq<Match>, next2: seq<Match>)
    requires Feeds(cur, next) && |next2| == |next|
    requires forall i :: 0 <= i < |next| ==> next2[i].participant1 == next[i].participant1 && next2[i].participant2 == next[i].participant2
    ensures Feeds(cur, next2)
  {
  }

  lemma PlaysKept(ms: seq<Match>, ms2: seq<Match>, a: string)
    requires |ms2| == |ms|
    requires forall i :: 0 <= i < |ms| ==> ms2[i].participant1 == ms[i].participant1 && ms2[i].participant2 == ms[i].participant2
    ensures Plays(ms2, a) <==> Plays(ms, a)
  {
    if Plays(ms, a) {
      var i :| 0 <= i < |ms| && (ms[i].participant1 == Some(a) || ms[i].participant2 == Some(a));
      assert ms2[i].participant1 == Some(a) || ms2[i].participant2 == Some(a);
    }
    if Plays(ms2, a) {
      var i :| 0 <= i < |ms2| && (ms2[i].participant1 == Some(a) || ms2[i].participant2 == Some(a));
      assert ms[i].participant1 == Some(a) || ms[i].participant2 == Some(a);
    }
  }

  /** The statistics part of the progress: the round played is the furthest reached. */
  lemma ReachedStep(stats: map<string, AgentStats>, ms: seq<Match>, after: seq<Match>, agents: seq<string>,
                    oracle: (nat, nat) -> MatchOracle, r: nat)
    requires ReachedAtMost(stats, r) && |after| == |ms|
    requires forall i :: 0 <= i < |ms| ==> after[i].participant1 == ms[i].participant1 && after[i].participant2 == ms[i].participant2
    ensures ReachedAtMost(RoundStats(stats, ms, agents, oracle, r), r + 1)
    ensures ReachedAll(RoundStats(stats, ms, agents, oracle, r), after, r + 1)
  {
    RoundStatsFacts(stats, ms, agents, oracle, r);
    forall a | a in stats
      ensures Plays(after, a) <==> Plays(ms, a)
    {
      PlaysKept(ms, after, a);
    }
  }

  lemma KnownRows(rounds: seq<seq<Match>>, agents: seq<string>, j: nat)
    requires AllKnown(rounds, agents) && j < |rounds|
    ensures forall i :: 0 <= i < |rounds[j]| ==> Known(rounds[j][i], agents)
  {
  }

  /** A decided round records exactly the votes its matches collected. */
  lemma {:induction false} RecordedOfDecided(before: seq<Match>, after: seq<Match>, agents: seq<string>,
                                             oracle: (nat, nat) -> MatchOracle, r: nat)
    requires RoundDecided(before, after, agents, oracle, r)
    ensures RecordedVotes(after) == RoundVotes(before, agents, oracle, r)
    decreases |before|
  {
    if |before| > 0 {
      var n := |before| - 1;
      assert RoundDecided(before[..n], after[..n], agents, oracle, r);
      RecordedOfDecided(before[..n], after[..n], agents, oracle, r);
      assert after[n] == Decided(before[n], agents, oracle(r, n));
    }
  }

  /** The votes of rounds that did not change are the same. */
  lemma {:induction false} BracketVotesKept(before: seq<seq<Match>>, after: seq<seq<Match>>, done: nat)
    requires done <= |before| && done <= |after|
    requires forall j :: 0 <= j < done ==> after[j] == before[j]
    ensures BracketVotes(after, done) == BracketVotes(before, done)
    decreases done
  {
    if done > 0 {
      BracketVotesKept(before, after, done - 1);
    }
  }

  /** The totals after round `r` count the votes of every round up to `r`. */
  lemma VotesStep(before: seq<seq<Match>>, stats: map<string, AgentStats>, after: seq<seq<Match>>,
                  agents: seq<string>, oracle: (nat, nat) -> MatchOracle, r: nat)
    requires r < |before| && VotesTallied(before, stats, r)
    requires RoundRun(before, after, agents, oracle, r)
    ensures VotesTallied(after, RoundStats(stats, before[r], agents, oracle, r), r + 1)
  {
    RoundStatsFacts(stats, before[r], agents, oracle, r);
    RecordedOfDecided(before[r], after[r], agents, oracle, r);
    BracketVotesKept(before, after, r);
    forall a | a in stats
      ensures Count(BracketVotes(after, r + 1), a) == Count(BracketVotes(before, r), a) + Count(RoundVotes(before[r], agents, oracle, r), a)
    {
      CountAppend(BracketVotes(after, r), RecordedVotes(after[r]), a);
    }
  }

  /** `run_round(r)` takes the bracket from `r` rounds played to `r + 1`. */
  lemma ProgressStep(before: seq<seq<Match>>, stats: map<string, AgentStats>, after: seq<seq<Match>>,
                     agents: seq<string>, oracle: (nat, nat) -> MatchOracle, r: nat)
    requires Progress(before, stats, agents, r) && r < |before| && RoundSizes(before)
    requires RoundRun(before, after, agents, oracle, r)
    ensures Progress(after, RoundStats(stats, before[r], agents, oracle, r), agents, r + 1)
  {
    BracketStep(before, after, agents, oracle, r);
    ReachedStep(stats, before[r], after[r], agents, oracle, r);
    VotesStep(before, stats, after, agents, oracle, r);
  }

  /** The bracket part of the step: round `r` decided and fed forward, names still agents'. */
  lemma BracketStep(before: seq<seq<Match>>, after: seq<seq<Match>>, agents: seq<string>,
                    oracle: (nat, nat) -> MatchOracle, r: nat)
    requires Played(before, r) && AllKnown(before, agents) && r < |before|
    requires RoundRun(before, after, agents, oracle, r)
    ensures Played(after, r + 1) && AllKnown(after, agents)
    ensures forall i :: 0 <= i < |after[r]| ==>
      after[r][i].participant1 == before[r][i].participant1 && after[r][i].participant2 == before[r][i].participant2
  {
    RowsStep(before, after, agents, oracle, r);
    KnownStep(before, after, agents, r);
    PlayedStep(before, after, r);
  }

  /** The two rounds `run_round(r)` changes: round `r` is decided among the same
      participants, and round `r + 1` is fed from it. */
  lemma RowsStep(before: seq<seq<Match>>, after: seq<seq<Match>>, agents: seq<string>,
                 oracle: (nat, nat) -> MatchOracle, r: nat)
    requires Played(before, r) && AllKnown(before, agents) && r < |before|
    requires RoundRun(before, after, agents, oracle, r)
    ensures |after[r]| == |before[r]| && Decisive(after[r]) && RowKnown(after[r], agents)
    ensures forall i :: 0 <= i < |after[r]| ==>
      after[r][i].participant1 == before[r][i].participant1 && after[r][i].participant2 == before[r][i].participant2
    ensures r + 1 < |before| ==>
      Feeds(after[r], after[r + 1]) && AllReady(after[r + 1]) &&
      RowKnown(after[r + 1], agents)
  {
    KnownRows(before, agents, r);
    DecidedRound(before[r], after[r], agents, oracle, r);
    if r + 1 < |before| {
      KnownRows(before, agents, r + 1);
      AdvancedRound(before[r + 1], after[r + 1], after[r], agents);
    }
  }

  /** Every name stays an agent's when the changed rounds hold only agents. */
  lemma KnownStep(before: seq<seq<Match>>, after: seq<seq<Match>>, agents: seq<string>, r: nat)
    requires AllKnown(before, agents) && OthersKept(before, after, r) && r < |before|
    requires RowKnown(after[r], agents)
    requires r + 1 < |before| ==> RowKnown(after[r + 1], agents)
    ensures AllKnown(after, agents)
  {
    forall j, i | 0 <= j < |after| && 0 <= i < |after[j]|
      ensures Known(after[j][i], agents)
    {
      if j != r && j != r + 1 {
        assert after[j] == before[j];
      }
    }
  }

  /** One more round is played once round `r` is decided and round `r + 1` is fed. */
  lemma PlayedStep(before: seq<seq<Match>>, after: seq<seq<Match>>, r: nat)
    requires Played(before, r) && OthersKept(before, after, r) && r < |before|
    requires |after[r]| == |before[r]| && Decisive(after[r])
    requires forall i :: 0 <= i < |after[r]| ==>
      after[r][i].participant1 == before[r][i].participant1 && after[r][i].participant2 == before[r][i].participant2
    requires r + 1 < |before| ==> Feeds(after[r], after[r + 1]) && AllReady(after[r + 1])
    ensures Played(after, r + 1)
  {
    if r > 0 {
      assert Feeds(before[r - 1], before[r]);
      FeedsKept(before[r - 1], before[r], after[r]);
    }
    assert forall j :: 0 <= j < r ==> after[j] == before[j];
  }

  /** A fresh bracket is at zero rounds played. */
  lemma InitialProgress(rounds: seq<seq<Match>>, agents: seq<string>)
    requires |agents| >= 1 && |rounds| >= 1
    requires FirstRoundOf(|agents|, rounds[0]) && LaterRoundsEmpty(rounds)
    requires EntrantBag(Pairs(rounds[0])) == multiset(agents)
    ensures Progress(rounds, InitialStats(agents), agents, 0)
  {
    assert AllReady(rounds[0]);
    assert AllKnown(rounds, agents) by {
      forall j, i | 0 <= j < |rounds| && 0 <= i < |rounds[j]|
        ensures Known(rounds[j][i], agents)
      {
        if j == 0 {
          SeatedIsAgent(Pairs(rounds[0]), agents, i);
        } else {
          assert rounds[j][i] == NewMatch(None, None);
        }
      }
    }
  }

  /** The participants of a seating of the agents are agents. */
  lemma SeatedIsAgent(pairs: seq<Pair>, agents: seq<string>, i: nat)
    requires i < |pairs| && EntrantBag(pairs) == multiset(agents)
    ensures pairs[i].0.Some? ==> pairs[i].0.value in agents
    ensures pairs[i].1.Some? ==> pairs[i].1.value in agents
  {
    EntrantsSeated(pairs, i);
    if pairs[i].0.Some? {
      assert pairs[i].0.value in SlotBag(pairs[i]);
      assert pairs[i].0.value in multiset(agents);
    }
    if pairs[i].1.Some? {
      assert pairs[i].1.value in SlotBag(pairs[i]);
      assert pairs[i].1.value in multiset(agents);
    }
  }

  /** A participant seated in the slots is in the bag of entrants. */
  lemma {:induction false} EntrantsSeated(pairs: seq<Pair>, i: nat)
    requires i < |pairs|
    ensures SlotBag(pairs[i]) <= EntrantBag(pairs)
    decreases |pairs|
  {
    if i < |pairs| - 1 {
      EntrantsSeated(pairs[..|pairs| - 1], i);
    }
  }

  /** What `emit_tournament_state` sends: the rounds and the leaderboard. */
  datatype TournamentState = TournamentState(rounds: seq<seq<Match>>, leaderboard: seq<AgentStats>)

  // ---------------------------------------------------------------------------
  // The tournament

  class Tournament {
    const allAgents: seq<string>
    var rounds: seq<seq<Match>>
    var stats: map<string, AgentStats>

    /** What every method keeps: distinct agent names, a bracket of halving rounds and one
        stats entry per agent. */
    predicate Valid()
      reads this
    {
      Distinct(allAgents) && |rounds| >= 1 && RoundSizes(rounds) && StatsOf(allAgents, stats)
    }

    /** The state `__init__` leaves: a fresh bracket of the agents and zero statistics. */
    predicate Initial()
      reads this
    {
      |allAgents| >= 2 && |rounds| == NumRounds(|allAgents|) && |rounds| >= 1 &&
      FirstRoundOf(|allAgents|, rounds[0]) && EntrantBag(Pairs(rounds[0])) == multiset(allAgents) &&
      LaterRoundsEmpty(rounds) && stats == InitialStats(allAgents)
    }

    /** `__init__`: statistics at zero for every agent, then `setup_tournament_structure`
        with the shuffle drawn from `shufflePicks`. */
    constructor (agents: seq<string>, shufflePicks: seq<nat>)
      requires |agents| >= 2 && Distinct(agents)
      ensures allAgents == agents && Valid() && Initial()
    {
      allAgents := agents;
      stats := InitialStats(agents);
      var bracket := SetupTournamentStructure(agents, shufflePicks);
      BracketArithmetic(|agents|);
      rounds := bracket;
    }

    /** The name of the final's winner, once there is one. */
    function FinalWinner(): Option<string>
      reads this
      requires Valid()
    {
      assert |rounds[|rounds| - 1]| == Pow2(0);
      rounds[|rounds| - 1][0].winner
    }

    /** The data part of `emit_tournament_state`: the rounds, and the statistics sorted by
        round reached, then final winner first, then votes, highest first. */
    function State(): (state: TournamentState)
      reads this
      requires Valid()
      ensures state.rounds == rounds
      ensures multiset(state.leaderboard) == multiset(StatsValues(allAgents, stats))
      ensures Descending(state.leaderboard, SnapshotKey(FinalWinner()))
      ensures state.leaderboard == Ranking(StatsValues(allAgents, stats), SnapshotKey(FinalWinner()))
    {
      var values := StatsValues(allAgents, stats);
      var key := SnapshotKey(FinalWinner());
      RankingPermutation(values, key);
      RankingDescending(values, key);
      TournamentState(rounds, Ranking(values, key))
    }

    /** The stat update loop of `run_match`. */
    method CreditVotes(votes: seq<Vote>)
      modifies this
      ensures stats == Credited(old(stats), votes) && rounds == old(rounds)
    {
      for k := 0 to |votes|
        invariant stats == Credited(old(stats), votes[..k]) && rounds == old(rounds)
      {
        assert votes[..k + 1][..k] == votes[..k];
        var votee := votes[k].1;
        if votee in stats {
          stats := stats[votee := stats[votee].(totalVotes := stats[votee].totalVotes + 1)];
        }
      }
      assert votes[..|votes|] == votes;
    }

    /** `run_match` on slot `i` of round `r`. */
    method RunMatch(r: nat, i: nat, o: MatchOracle) returns (winner: Option<string>, votes: seq<Vote>)
      requires r < |rounds| && i < |rounds[r]|
      modifies this
      ensures winner == MatchWinner(old(rounds[r][i]), allAgents, o)
      ensures votes == MatchVotes(old(rounds[r][i]), allAgents, o)
      ensures rounds == old(rounds)[r := old(rounds)[r][i := MatchAfter(old(rounds[r][i]), allAgents, o)]]
      ensures stats == Credited(old(stats), votes)
    {
      var m := rounds[r][i];
      if m.participant1.None? || m.participant2.None? {
        assert rounds[r][i := m] == rounds[r] && rounds[r := rounds[r]] == rounds;
        return if m.participant1.None? then m.participant2 else m.participant1, [];
      }
      var p1, p2 := m.participant1.value, m.participant2.value;
      var playing := m.(isActive := true);
      var conversation := Discuss(p1, p2, o.replies);
      playing := playing.(conversation := conversation);
      var spectators := Filter(allAgents, NotContestant(p1, p2));
      var numVoters := NumVoters(|spectators|);
      var votingSpectators := Sample(spectators, numVoters, o.voterPicks);
      var voteCounts;
      votes, voteCounts := CollectVotes(p1, p2, votingSpectators, o.ballot);
      if |votes| > 0 {
        playing := playing.(votes := Some(votes));
      }
      TallyCounts(p1, p2, votes);
      winner := Some(Decide(p1, p2, voteCounts, o.tieBreak));
      CreditVotes(votes);
      rounds := rounds[r := rounds[r][i := playing.(isActive := false)]];
    }

    /** The first loop of `run_round`. */
    method MarkReached(r: nat)
      requires r < |rounds|
      modifies this
      ensures rounds == old(rounds) && stats == Reached(old(stats), rounds[r], r + 1)
    {
      var currentRound := rounds[r];
      for i := 0 to |currentRound|
        invariant stats == Reached(old(stats), currentRound[..i], r + 1) && rounds == old(rounds)
      {
        assert currentRound[..i + 1][..i] == currentRound[..i];
        var base := stats;
        var participants := [currentRound[i].participant1, currentRound[i].participant2];
        for k := 0 to 2
          invariant stats == MarkAll(base, participants[..k], r + 1) && rounds == old(rounds)
        {
          assert participants[..k + 1][..k] == participants[..k];
          var participant := participants[k];
          if participant.Some? && participant.value in stats {
            stats := stats[participant.value := stats[participant.value].(roundReached := r + 1)];
          }
        }
        assert participants[..2] == participants;
      }
      assert currentRound[..|currentRound|] == currentRound;
    }

    /** The matches of round `r`, run one after the other in slot order. */
    method PlayMatches(r: nat, oracle: (nat, nat) -> MatchOracle) returns (results: seq<(Option<string>, seq<Vote>)>)
      requires r < |rounds|
      modifies this
      ensures |rounds| == |old(rounds)| && forall j :: 0 <= j < |rounds| && j != r ==> rounds[j] == old(rounds[j])
      ensures |rounds[r]| == |old(rounds[r])| == |results|
      ensures forall i :: 0 <= i < |results| ==>
        rounds[r][i] == MatchAfter(old(rounds[r][i]), allAgents, oracle(r, i)) &&
        results[i] == (MatchWinner(old(rounds[r][i]), allAgents, oracle(r, i)), MatchVotes(old(rounds[r][i]), allAgents, oracle(r, i)))
      ensures stats == Credited(old(stats), RoundVotes(old(rounds[r]), allAgents, oracle, r))
    {
      ghost var start := rounds[r];
      var count := |rounds[r]|;
      results := [];
      for i := 0 to count
        invariant |rounds| == |old(rounds)| && forall j :: 0 <= j < |rounds| && j != r ==> rounds[j] == old(rounds[j])
        invariant PlayedUpTo(start, rounds[r], results, allAgents, oracle, r, i)
        invariant stats == Credited(old(stats), RoundVotes(start[..i], allAgents, oracle, r))
      {
        PlayedUpToStep(start, rounds[r], results, allAgents, oracle, r, i);
        var winner, votes := RunMatch(r, i, oracle(r, i));
        results := results + [(winner, votes)];
        assert start[..i + 1][..i] == start[..i];
        CreditedAppend(old(stats), RoundVotes(start[..i], allAgents, oracle, r), votes);
      }
      assert start[..|start|] == start;
    }

    /** The second loop of `run_round`: each result is recorded in its slot and the winner
        moves to slot `i / 2` of the next round, as `participant1` from an even slot and as
        `participant2` from an odd one. */
    method RecordResults(r: nat, results: seq<(Option<string>, seq<Vote>)>)
      requires r < |rounds| && |results| == |rounds[r]|
      requires r + 1 < |rounds| ==> |rounds[r]| == 2 * |rounds[r + 1]|
      modifies this
      ensures stats == old(stats) && OthersKept(old(rounds), rounds, r)
      ensures |rounds[r]| == |results| &&
        forall i :: 0 <= i < |results| ==> rounds[r][i] == old(rounds[r][i]).(winner := results[i].0, votes := Some(results[i].1))
      ensures r + 1 < |rounds| ==> Advanced(old(rounds[r + 1]), rounds[r + 1], rounds[r])
    {
      var last := r + 1 == |rounds|;
      for i := 0 to |results|
        invariant stats == old(stats) && OthersKept(old(rounds), rounds, r) && |rounds[r]| == |results|
        invariant forall k :: 0 <= k < i ==> rounds[r][k] == old(rounds[r][k]).(winner := results[k].0, votes := Some(results[k].1))
        invariant forall k :: i <= k < |results| ==> rounds[r][k] == old(rounds[r][k])
        invariant !last ==> Placed(old(rounds[r + 1]), rounds[r + 1], results, i)
      {
        var (winner, votes) := results[i];
        rounds := rounds[r := rounds[r][i := rounds[r][i].(winner := winner, votes := Some(votes))]];
        if r < |rounds| - 1 {
          var nextMatchIndex := i / 2;
          var next := rounds[r + 1];
          if i % 2 == 0 {
            rounds := rounds[r + 1 := next[nextMatchIndex := next[nextMatchIndex].(participant1 := winner)]];
          } else {
            rounds := rounds[r + 1 := next[nextMatchIndex := next[nextMatchIndex].(participant2 := winner)]];
          }
          PlacedStep(old(rounds[r + 1]), next, rounds[r + 1], results, i);
        }
      }
      if !last {
        PlacedAll(old(rounds[r + 1]), rounds[r + 1], rounds[r], results);
      }
    }

    /** `run_round(r)`: the participants reach round `r + 1`, the matches run in slot
        order, and their results are recorded and moved forward. */
    method RunRound(r: nat, oracle: (nat, nat) -> MatchOracle)
      requires Valid() && r < |rounds|
      modifies this
      ensures Valid()
      ensures RoundRun(old(rounds), rounds, allAgents, oracle, r)
      ensures stats == RoundStats(old(stats), old(rounds[r]), allAgents, oracle, r)
    {
      ghost var before := rounds;
      if r + 1 < |rounds| {
        Halving(rounds, r);
      }
      MarkReached(r);
      var results := PlayMatches(r, oracle);
      ghost var played := rounds;
      RecordResults(r, results);
      RoundStatsFacts(old(stats), before[r], allAgents, oracle, r);
      assert RoundDecided(before[r], rounds[r], allAgents, oracle, r) by {
        forall i | 0 <= i < |rounds[r]|
          ensures rounds[r][i] == Decided(before[r][i], allAgents, oracle(r, i))
        {
          assert played[r][i] == MatchAfter(before[r][i], allAgents, oracle(r, i));
        }
      }
      assert forall j :: 0 <= j < |rounds| ==> |rounds[j]| == |before[j]|;
    }

    /** The loop of `run_tournament`: `run_round` for each round in order. */
    method PlayRounds(oracle: (nat, nat) -> MatchOracle)
      requires Valid() && Progress(rounds, stats, allAgents, 0)
      modifies this
      ensures Valid() && |rounds| == |old(rounds)| && Progress(rounds, stats, allAgents, |rounds|)
    {
      for r := 0 to |rounds|
        invariant Valid() && |rounds| == |old(rounds)|
        invariant Progress(rounds, stats, allAgents, r)
      {
        ghost var before, statsBefore := rounds, stats;
        RunRound(r, oracle);
        ProgressStep(before, statsBefore, rounds, allAgents, oracle, r);
      }
    }

    /** `run_tournament`: every round in order; the champion is the winner of the final,
        and the leaderboard sorts by round reached, then votes, highest first. */
    method RunTournament(oracle: (nat, nat) -> MatchOracle)
      returns (champion: Option<string>, finalRounds: seq<seq<Match>>, leaderboard: seq<AgentStats>)
      requires Valid() && Initial()
      modifies this
      ensures Valid() && Finished() && finalRounds == rounds && |rounds| == NumRounds(|allAgents|)
      ensures champion == FinalWinner() && champion.Some? && champion.value in allAgents
      ensures stats[champion.value].roundReached == |rounds|
      ensures leaderboard == Ranking(StatsValues(allAgents, stats), ResultKey())
    {
      InitiallyUnplayed();
      PlayRounds(oracle);
      FinishedBracket();
      champion := FinalWinner();
      finalRounds := rounds;
      leaderboard := Ranking(StatsValues(allAgents, stats), ResultKey());
    }

    /** A fresh tournament is at zero rounds played. */
    lemma InitiallyUnplayed()
      requires Valid() && Initial()
      ensures Progress(rounds, stats, allAgents, 0)
    {
      InitialProgress(rounds, allAgents);
    }

    /** Every round has been played. */
    predicate Finished()
      reads this
    {
      Progress(rounds, stats, allAgents, |rounds|)
    }

    /** A finished tournament: every match has a winner among its participants, each slot
        holds the winners of its two feeders, no agent is past the final, and the champion
        is an agent who reached it, each total counts the recorded votes naming its agent, and, with a non-empty name, heads the snapshot
        leaderboard. */
    lemma FinishedBracket()
      requires Valid() && Finished()
      ensures forall j :: 0 <= j < |rounds| ==> Decisive(rounds[j])
      ensures forall j :: 0 <= j && j + 1 < |rounds| ==> Feeds(rounds[j], rounds[j + 1])
      ensures forall a :: a in stats ==> stats[a].roundReached <= |rounds|
      ensures forall a :: a in stats ==> stats[a].totalVotes == Count(BracketVotes(rounds, |rounds|), a)
      ensures FinalWinner().Some? && FinalWinner().value in allAgents
      ensures stats[FinalWinner().value].roundReached == |rounds|
      ensures FinalWinner().value != "" ==> State().leaderboard[0] == stats[FinalWinner().value]
    {
      ChampionFacts(rounds, stats, allAgents);
      var champion := FinalWinner().value;
      if champion != "" {
        ChampionLeads(allAgents, stats, champion, |rounds|);
      }
    }
  }

  /** Slots of the next round filled from the first `i` results. */
  predicate Placed(before: seq<Match>, next: seq<Match>, results: seq<(Option<string>, seq<Vote>)>, i: nat) {
    |next| == |before| && 2 * |before| == |results| &&
    forall k :: 0 <= k < |next| ==>
      next[k] == before[k].(participant1 := if 2 * k < i then results[2 * k].0 else before[k].participant1,
                            participant2 := if 2 * k + 1 < i then results[2 * k + 1].0 else before[k].participant2)
  }

  lemma PlacedStep(before: seq<Match>, next: seq<Match>, after: seq<Match>, results: seq<(Option<string>, seq<Vote>)>, i: nat)
    requires Placed(before, next, results, i) && i < |results|
    requires after == if i % 2 == 0 then next[i / 2 := next[i / 2].(participant1 := results[i].0)]
                      else next[i / 2 := next[i / 2].(participant2 := results[i].0)]
    ensures Placed(before, after, results, i + 1)
  {
  }

  lemma PlacedAll(before: seq<Match>, next: seq<Match>, cur: seq<Match>, results: seq<(Option<string>, seq<Vote>)>)
    requires Placed(before, next, results, |results|)
    requires |cur| == |results| && forall i :: 0 <= i < |cur| ==> cur[i].winner == results[i].0
    ensures Advanced(before, next, cur)
  {
  }

  /** After the last round the final has a winner: a participant of the final, an agent,
      and at the furthest round. */
  lemma ChampionFacts(rounds: seq<seq<Match>>, stats: map<string, AgentStats>, agents: seq<string>)
    requires Played(rounds, |rounds|) && AllKnown(rounds, agents) && Furthest(rounds, stats, |rounds|)
    requires |rounds| >= 1 && RoundSizes(rounds) && StatsOf(agents, stats)
    ensures |rounds[|rounds| - 1]| == 1
    ensures rounds[|rounds| - 1][0].winner.Some? && rounds[|rounds| - 1][0].winner.value in agents
    ensures stats[rounds[|rounds| - 1][0].winner.value].roundReached == |rounds|
  {
    var last := rounds[|rounds| - 1];
    assert |last| == Pow2(0);
    assert HasWinner(last[0]);
    assert Known(last[0], agents);
    var w := last[0].winner.value;
    assert Plays(last, w) by {
      assert last[0].participant1 == Some(w) || last[0].participant2 == Some(w);
    }
  }

  /** The snapshot leaderboard of a finished tournament starts with the champion, whose
      name is not empty. */
  lemma ChampionLeads(agents: seq<string>, stats: map<string, AgentStats>, champion: string, k: int)
    requires Distinct(agents) && StatsOf(agents, stats) && champion in agents && champion != ""
    requires stats[champion].roundReached == k && ReachedAtMost(stats, k)
    ensures Ranking(StatsValues(agents, stats), SnapshotKey(Some(champion)))[0] == stats[champion]
  {
    var xs := StatsValues(agents, stats);
    var p := IndexOf(agents, champion);
    assert xs[p] == stats[champion] && xs[p].name == champion;
    forall q | 0 <= q < |xs| && q != p
      ensures xs[q].name != xs[p].name
    {
      assert xs[q].name == agents[q];
    }
    SnapshotLeader(xs, p);
  }
}
