/** The vote that closes a match of `tournament.py`: who may vote, which ballots stand, the
    tally kept in the `vote_counts` dict and the winner it designates. The model of a
    spectator's reply is the `"vote"` field of its parsed answer. */
module TournamentVotes {
  import opened Wrappers
  import opened Strings
  import opened Dicts
  import opened Draws
  import opened TournamentBracket

  /** The most spectators that vote on one match. */
  const MaxVoters := 9

  /** Whether agent `a` may watch a match of `p1` and `p2`. */
  function NotContestant(p1: string, p2: string): string -> bool {
    (a: string) => a != p1 && a != p2
  }

  /** Every agent but the two contestants, in agent order. */
  function Spectators(agents: seq<string>, p1: string, p2: string): seq<string> {
    Filter(agents, NotContestant(p1, p2))
  }

  /** `min(9, n)`. */
  function NumVoters(n: nat): (k: nat)
    ensures k <= MaxVoters && k <= n && (k == MaxVoters || k == n)
  {
    if n < MaxVoters then n else MaxVoters
  }

  /** `random.sample(spectators, min(9, len(spectators)))`, driven by `picks`. */
  function Voters(agents: seq<string>, p1: string, p2: string, picks: seq<nat>): seq<string> {
    var spectators := Spectators(agents, p1, p2);
    Sample(spectators, NumVoters(|spectators|), picks)
  }

  /** Nine spectators vote, or all of them when there are fewer; each is an agent and
      neither contestant. */
  lemma VotersAreSpectators(agents: seq<string>, p1: string, p2: string, picks: seq<nat>)
    ensures |Voters(agents, p1, p2, picks)| == NumVoters(|Spectators(agents, p1, p2)|)
    ensures forall v :: v in Voters(agents, p1, p2, picks) ==> v in agents && v != p1 && v != p2
  {
    var spectators := Spectators(agents, p1, p2);
    forall v | v in Voters(agents, p1, p2, picks)
      ensures v in agents && v != p1 && v != p2
    {
      SampleMember(spectators, NumVoters(|spectators|), picks, v);
      FilterMembers(agents, NotContestant(p1, p2), v);
    }
  }

  /** `get_spectator_vote` once the spectator has answered. `raw` is the `"vote"` field of
      the parsed answer (`""` when the field is missing) and `None` when the call or the
      parse failed. The stripped vote stands only when it names a contestant; otherwise
      the source raises, and the match skips the spectator. */
  function SpectatorVote(p1: string, p2: string, raw: Option<string>): Option<string> {
    if raw.None? then None
    else
      var vote := Strip(raw.value);
      if vote == p1 || vote == p2 then Some(vote) else None
  }

  /** A vote stands exactly when the stripped answer names one of the contestants, and it
      is that name. */
  lemma SpectatorVoteStands(p1: string, p2: string, raw: Option<string>)
    ensures SpectatorVote(p1, p2, raw).Some? <==> raw.Some? && (Strip(raw.value) == p1 || Strip(raw.value) == p2)
    ensures SpectatorVote(p1, p2, raw).Some? ==> SpectatorVote(p1, p2, raw).value == Strip(raw.value)
  {
  }

  /** The votes recorded from `voters`, in voting order. */
  function Ballots(p1: string, p2: string, voters: seq<string>, ballot: string -> Option<string>): seq<Vote>
    decreases |voters|
  {
    if |voters| == 0 then []
    else
      var prior := Ballots(p1, p2, voters[..|voters| - 1], ballot);
      var v := voters[|voters| - 1];
      match SpectatorVote(p1, p2, ballot(v))
      case None => prior
      case Some(name) => prior + [(v, name)]
  }

  /** How many of `votes` name `p`. */
  function Count(votes: seq<Vote>, p: string): nat
    decreases |votes|
  {
    if |votes| == 0 then 0
    else Count(votes[..|votes| - 1], p) + (if votes[|votes| - 1].1 == p then 1 else 0)
  }

  /** `vote_counts` after the votes: one entry per contestant, in contestant order. */
  function Tally(p1: string, p2: string, votes: seq<Vote>): Dict<nat> {
    if p1 == p2 then [(p1, Count(votes, p1))] else [(p1, Count(votes, p1)), (p2, Count(votes, p2))]
  }

  lemma TallyStart(p1: string, p2: string)
    ensures Put(Put([], p1, 0 as nat), p2, 0) == Tally(p1, p2, [])
  {
    assert Put([], p1, 0 as nat) == [(p1, 0)];
  }

  /** `d[k] += 1`. */
  function AddOne(d: Dict<nat>, k: string): Dict<nat>
    requires Get(d, k).Some?
  {
    Put(d, k, Get(d, k).value + 1)
  }

  /** Counting one more vote for `name` is the tally of one more vote. */
  lemma TallyStep(p1: string, p2: string, votes: seq<Vote>, spectator: string, name: string)
    requires name == p1 || name == p2
    ensures Get(Tally(p1, p2, votes), name).Some?
    ensures AddOne(Tally(p1, p2, votes), name) == Tally(p1, p2, votes + [(spectator, name)])
  {
    TallyCounts(p1, p2, votes);
    var more := votes + [(spectator, name)];
    assert more[..|votes|] == votes;
    assert Count(more, name) == Count(votes, name) + 1;
    if p1 != p2 {
      var other := if name == p1 then p2 else p1;
      assert Count(more, other) == Count(votes, other);
      var c1, c2 := Count(votes, p1), Count(votes, p2);
      var d := Tally(p1, p2, votes);
      assert d == [(p1, c1), (p2, c2)];
      if name == p1 {
        assert Put(d, p1, c1 + 1) == [(p1, c1 + 1)] + d[1..];
      } else {
        assert d[1..] == [(p2, c2)];
        assert Put(d[1..], p2, c2 + 1) == [(p2, c2 + 1)];
        assert Put(d, p2, c2 + 1) == [d[0]] + Put(d[1..], p2, c2 + 1);
      }
    }
  }

  /** The vote loop of `run_match`: each voter in turn is asked; a vote that stands is
      appended and counted, any other answer is skipped. */
  method CollectVotes(p1: string, p2: string, voters: seq<string>, ballot: string -> Option<string>)
    returns (votes: seq<Vote>, voteCounts: Dict<nat>)
    ensures votes == Ballots(p1, p2, voters, ballot)
    ensures voteCounts == Tally(p1, p2, votes)
  {
    votes := [];
    voteCounts := Put(Put([], p1, 0), p2, 0);
    TallyStart(p1, p2);
    assert voteCounts == Tally(p1, p2, votes);
    for i := 0 to |voters|
      invariant votes == Ballots(p1, p2, voters[..i], ballot)
      invariant voteCounts == Tally(p1, p2, votes)
    {
      assert voters[..i + 1][..i] == voters[..i];
      var spectator := voters[i];
      var vote := SpectatorVote(p1, p2, ballot(spectator));
      if vote.Some? {
        var name := vote.value;
        TallyStep(p1, p2, votes, spectator, name);
        votes := votes + [(spectator, name)];
        voteCounts := AddOne(voteCounts, name);
      }
    }
    assert voters[..|voters|] == voters;
  }

  /** No more votes than voters. */
  lemma {:induction false} BallotsAtMostVoters(p1: string, p2: string, voters: seq<string>, ballot: string -> Option<string>)
    ensures |Ballots(p1, p2, voters, ballot)| <= |voters|
    decreases |voters|
  {
    if |voters| > 0 {
      BallotsAtMostVoters(p1, p2, voters[..|voters| - 1], ballot);
    }
  }

  /** Every recorded vote comes from a voter whose answer stands, and records that answer. */
  lemma {:induction false} BallotsFromVoters(p1: string, p2: string, voters: seq<string>, ballot: string -> Option<string>)
    ensures forall vote :: vote in Ballots(p1, p2, voters, ballot) ==>
      vote.0 in voters && SpectatorVote(p1, p2, ballot(vote.0)) == Some(vote.1)
    decreases |voters|
  {
    if |voters| > 0 {
      var init := voters[..|voters| - 1];
      BallotsFromVoters(p1, p2, init, ballot);
      assert voters == init + [voters[|voters| - 1]];
    }
  }

  /** Every voter whose answer stands is recorded: a failed or invalid answer drops only
      that voter. */
  lemma {:induction false} BallotsKeepValid(p1: string, p2: string, voters: seq<string>, ballot: string -> Option<string>, v: string)
    requires v in voters && SpectatorVote(p1, p2, ballot(v)).Some?
    ensures (v, SpectatorVote(p1, p2, ballot(v)).value) in Ballots(p1, p2, voters, ballot)
    decreases |voters|
  {
    var init := voters[..|voters| - 1];
    assert voters == init + [voters[|voters| - 1]];
    if v != voters[|voters| - 1] {
      BallotsKeepValid(p1, p2, init, ballot, v);
    }
  }

  /** Every recorded vote names one of the two contestants. */
  lemma BallotsNameContestants(p1: string, p2: string, voters: seq<string>, ballot: string -> Option<string>)
    ensures forall k :: 0 <= k < |Ballots(p1, p2, voters, ballot)| ==>
      Ballots(p1, p2, voters, ballot)[k].1 == p1 || Ballots(p1, p2, voters, ballot)[k].1 == p2
  {
    BallotsFromVoters(p1, p2, voters, ballot);
    var votes := Ballots(p1, p2, voters, ballot);
    forall k | 0 <= k < |votes|
      ensures votes[k].1 == p1 || votes[k].1 == p2
    {
      assert votes[k] in votes;
    }
  }

  /** When every vote names a contestant, the two counts add up to the number of votes. */
  lemma {:induction false} CountsCoverVotes(votes: seq<Vote>, p1: string, p2: string)
    requires p1 != p2
    requires forall k :: 0 <= k < |votes| ==> votes[k].1 == p1 || votes[k].1 == p2
    ensures Count(votes, p1) + Count(votes, p2) == |votes|
    decreases |votes|
  {
    if |votes| > 0 {
      CountsCoverVotes(votes[..|votes| - 1], p1, p2);
    }
  }

  /** Counting splits over concatenation. */
  lemma {:induction false} CountAppend(a: seq<Vote>, b: seq<Vote>, p: string)
    ensures Count(a + b, p) == Count(a, p) + Count(b, p)
    decreases |b|
  {
    if |b| == 0 {
      assert a + b == a;
    } else {
      CountAppend(a, b[..|b| - 1], p);
      assert (a + b)[..|a + b| - 1] == a + b[..|b| - 1];
    }
  }

  /** The entry `max(d.items(), key=count)` returns: the first entry with the largest count. */
  function MaxItem(d: Dict<nat>): (item: (string, nat))
    requires |d| > 0
    decreases |d|
  {
    if |d| == 1 then d[0]
    else
      var best := MaxItem(d[..|d| - 1]);
      if d[|d| - 1].1 > best.1 then d[|d| - 1] else best
  }

  /** `MaxItem` is an entry of the dict whose count no entry exceeds, and no entry before
      it carries the same count. */
  lemma {:induction false} MaxItemIsFirstLargest(d: Dict<nat>)
    requires |d| > 0
    ensures exists i :: 0 <= i < |d| && d[i] == MaxItem(d) && forall j :: 0 <= j < i ==> d[j].1 < MaxItem(d).1
    ensures forall j :: 0 <= j < |d| ==> d[j].1 <= MaxItem(d).1
    decreases |d|
  {
    if |d| == 1 {
      assert d[0] == MaxItem(d);
    } else {
      var init, last := d[..|d| - 1], d[|d| - 1];
      MaxItemIsFirstLargest(init);
      var i :| 0 <= i < |init| && init[i] == MaxItem(init) && forall j :: 0 <= j < i ==> init[j].1 < MaxItem(init).1;
      assert forall j :: 0 <= j < |d| - 1 ==> d[j] == init[j];
      if last.1 > MaxItem(init).1 {
        assert MaxItem(d) == last;
        assert d[|d| - 1] == MaxItem(d) && forall j :: 0 <= j < |d| - 1 ==> d[j].1 < MaxItem(d).1;
      } else {
        assert MaxItem(d) == MaxItem(init);
        assert d[i] == MaxItem(d) && forall j :: 0 <= j < i ==> d[j].1 < MaxItem(d).1;
      }
    }
  }

  /** The winner rule of `run_match`: a tie, 0 to 0 included, goes to `random.choice` of
      the two contestants, driven by `tieBreak`; otherwise the contestant the largest
      entry of `voteCounts` names. */
  function Decide(p1: string, p2: string, voteCounts: Dict<nat>, tieBreak: nat): (winner: string)
    requires Get(voteCounts, p1).Some? && Get(voteCounts, p2).Some?
    ensures winner == p1 || winner == p2
  {
    if Get(voteCounts, p1).value == Get(voteCounts, p2).value then Choice([p1, p2], tieBreak)
    else
      assert |voteCounts| > 0;
      var winnerName := MaxItem(voteCounts).0;
      if winnerName == p1 then p1 else p2
  }

  lemma TallyCounts(p1: string, p2: string, votes: seq<Vote>)
    ensures Get(Tally(p1, p2, votes), p1) == Some(Count(votes, p1))
    ensures Get(Tally(p1, p2, votes), p2) == Some(Count(votes, p2))
  {
  }

  /** The contestant with strictly more votes wins; a tie is settled by the draw, which can
      go either way. The winner is always one of the contestants. */
  lemma DecideRule(p1: string, p2: string, votes: seq<Vote>, tieBreak: nat)
    ensures Decide(p1, p2, Tally(p1, p2, votes), tieBreak) ==
      if Count(votes, p1) > Count(votes, p2) then p1
      else if Count(votes, p2) > Count(votes, p1) then p2
      else if tieBreak % 2 == 0 then p1 else p2
  {
    TallyCounts(p1, p2, votes);
    if p1 != p2 && Count(votes, p1) != Count(votes, p2) {
      MaxItemIsFirstLargest(Tally(p1, p2, votes));
    }
  }
}
