/** The leaderboard of `tournament.py`: the per-agent statistics and Python's
    `sorted(..., key=..., reverse=True)` over them, a stable sort in descending key order. */
module TournamentLeaderboard {
  import opened Wrappers
  import opened Draws

  /** `AgentStats`. */
  datatype AgentStats = AgentStats(name: string, roundReached: int, totalVotes: int)

  /** A sort key: a Python tuple of integers. */
  type Key = seq<int>

  /** Python's `<` on tuples of integers: lexicographic, a proper prefix first. */
  predicate Below(a: Key, b: Key)
    decreases |a|
  {
    if |a| == 0 || |b| == 0 then |a| < |b|
    else a[0] < b[0] || (a[0] == b[0] && Below(a[1..], b[1..]))
  }

  lemma {:induction false} BelowIrreflexive(a: Key)
    ensures !Below(a, a)
    decreases |a|
  {
    if |a| > 0 {
      BelowIrreflexive(a[1..]);
    }
  }

  lemma {:induction false} BelowTransitive(a: Key, b: Key, c: Key)
    requires Below(a, b) && Below(b, c)
    ensures Below(a, c)
    decreases |a|
  {
    if |a| > 0 && |b| > 0 && |c| > 0 && a[0] == b[0] == c[0] {
      BelowTransitive(a[1..], b[1..], c[1..]);
    }
  }

  /** Any two different keys are ordered one way or the other. */
  lemma {:induction false} BelowTotal(a: Key, b: Key)
    ensures a == b || Below(a, b) || Below(b, a)
    decreases |a|
  {
    if |a| > 0 && |b| > 0 && a[0] == b[0] {
      BelowTotal(a[1..], b[1..]);
      if a[1..] == b[1..] {
        assert a == [a[0]] + a[1..] && b == [b[0]] + b[1..];
      }
    }
  }

  lemma BelowAsymmetric(a: Key, b: Key)
    requires Below(a, b)
    ensures !Below(b, a)
  {
    if Below(b, a) {
      BelowTransitive(a, b, a);
      BelowIrreflexive(a);
    }
  }

  /** No key of `r` is below a key that comes later. */
  predicate Descending(r: seq<AgentStats>, key: AgentStats -> Key) {
    forall i, j :: 0 <= i < j < |r| ==> !Below(key(r[i]), key(r[j]))
  }

  /** Places `x` after every element of `s` whose key is not below its own. */
  function Insert(x: AgentStats, s: seq<AgentStats>, key: AgentStats -> Key): (r: seq<AgentStats>)
    ensures |r| == |s| + 1
    decreases |s|
  {
    if |s| == 0 then [x]
    else if Below(key(s[0]), key(x)) then [x] + s
    else [s[0]] + Insert(x, s[1..], key)
  }

  /** `sorted(xs, key=key, reverse=True)`. */
  function Ranking(xs: seq<AgentStats>, key: AgentStats -> Key): (r: seq<AgentStats>)
    ensures |r| == |xs|
    decreases |xs|
  {
    if |xs| == 0 then [] else Insert(xs[|xs| - 1], Ranking(xs[..|xs| - 1], key), key)
  }

  lemma {:induction false} InsertBag(x: AgentStats, s: seq<AgentStats>, key: AgentStats -> Key)
    ensures multiset(Insert(x, s, key)) == multiset(s) + multiset{x}
    decreases |s|
  {
    if |s| > 0 {
      assert s == [s[0]] + s[1..];
      if !Below(key(s[0]), key(x)) {
        InsertBag(x, s[1..], key);
      }
    }
  }

  /** The leaderboard holds every agent's statistics, each exactly as often as before. */
  lemma {:induction false} RankingPermutation(xs: seq<AgentStats>, key: AgentStats -> Key)
    ensures multiset(Ranking(xs, key)) == multiset(xs)
    decreases |xs|
  {
    if |xs| > 0 {
      var init := xs[..|xs| - 1];
      RankingPermutation(init, key);
      InsertBag(xs[|xs| - 1], Ranking(init, key), key);
      assert xs == init + [xs[|xs| - 1]];
    }
  }

  lemma InsertMember(x: AgentStats, s: seq<AgentStats>, key: AgentStats -> Key, y: AgentStats)
    requires y in Insert(x, s, key)
    ensures y == x || y in s
  {
    InsertBag(x, s, key);
    assert y in multiset(Insert(x, s, key));
  }

  /** A key below the first key of a descending sequence is below all of them. */
  lemma AboveAll(s: seq<AgentStats>, key: AgentStats -> Key, c: Key)
    requires Descending(s, key) && |s| > 0 && Below(key(s[0]), c)
    ensures forall i :: 0 <= i < |s| ==> Below(key(s[i]), c)
  {
    forall i | 0 < i < |s|
      ensures Below(key(s[i]), c)
    {
      BelowTotal(key(s[i]), key(s[0]));
      if key(s[i]) != key(s[0]) {
        BelowTransitive(key(s[i]), key(s[0]), c);
      }
    }
  }

  lemma {:induction false} InsertDescending(x: AgentStats, s: seq<AgentStats>, key: AgentStats -> Key)
    requires Descending(s, key)
    ensures Descending(Insert(x, s, key), key)
    decreases |s|
  {
    if |s| > 0 {
      var r := Insert(x, s, key);
      if Below(key(s[0]), key(x)) {
        AboveAll(s, key, key(x));
        forall j | 0 < j < |r|
          ensures !Below(key(r[0]), key(r[j]))
        {
          BelowAsymmetric(key(s[j - 1]), key(x));
        }
      } else {
        InsertDescending(x, s[1..], key);
        forall j | 0 < j < |r|
          ensures !Below(key(r[0]), key(r[j]))
        {
          InsertMember(x, s[1..], key, r[j]);
        }
      }
    }
  }

  /** The leaderboard is in descending key order. */
  lemma {:induction false} RankingDescending(xs: seq<AgentStats>, key: AgentStats -> Key)
    ensures Descending(Ranking(xs, key), key)
    decreases |xs|
  {
    if |xs| > 0 {
      RankingDescending(xs[..|xs| - 1], key);
      InsertDescending(xs[|xs| - 1], Ranking(xs[..|xs| - 1], key), key);
    }
  }

  /** Whether an element carries the key `v`. */
  function HasKey(key: AgentStats -> Key, v: Key): AgentStats -> bool {
    (y: AgentStats) => key(y) == v
  }

  lemma FilterCons(a: AgentStats, t: seq<AgentStats>, keep: AgentStats -> bool)
    ensures Filter([a] + t, keep) == (if keep(a) then [a] else []) + Filter(t, keep)
  {
    assert ([a] + t)[1..] == t;
  }

  lemma {:induction false} FilterNone(s: seq<AgentStats>, keep: AgentStats -> bool)
    requires forall i :: 0 <= i < |s| ==> !keep(s[i])
    ensures Filter(s, keep) == []
    decreases |s|
  {
    if |s| > 0 {
      FilterNone(s[1..], keep);
    }
  }

  /** Inserting in front of keys that are all below `x`'s. */
  lemma InsertStableFront(x: AgentStats, s: seq<AgentStats>, key: AgentStats -> Key, v: Key)
    requires Descending(s, key) && |s| > 0 && Below(key(s[0]), key(x))
    ensures Filter([x] + s, HasKey(key, v)) == Filter(s, HasKey(key, v)) + (if key(x) == v then [x] else [])
  {
    var keep := HasKey(key, v);
    FilterCons(x, s, keep);
    if key(x) == v {
      AboveAll(s, key, key(x));
      forall i | 0 <= i < |s|
        ensures !keep(s[i])
      {
        BelowIrreflexive(key(x));
      }
      FilterNone(s, keep);
    }
  }

  /** Putting the same element in front of two sequences keeps what their filters share. */
  lemma FilterBehind(a: AgentStats, rest: seq<AgentStats>, ins: seq<AgentStats>, keep: AgentStats -> bool, added: seq<AgentStats>)
    requires Filter(ins, keep) == Filter(rest, keep) + added
    ensures Filter([a] + ins, keep) == Filter([a] + rest, keep) + added
  {
    FilterCons(a, ins, keep);
    FilterCons(a, rest, keep);
    SharedHead(Filter([a] + ins, keep), Filter([a] + rest, keep), if keep(a) then [a] else [],
      Filter(ins, keep), Filter(rest, keep), added);
  }

  lemma SharedHead(u: seq<AgentStats>, w: seq<AgentStats>, head: seq<AgentStats>,
                   x: seq<AgentStats>, y: seq<AgentStats>, added: seq<AgentStats>)
    requires u == head + x && w == head + y && x == y + added
    ensures u == w + added
  {
    assert head + (y + added) == (head + y) + added;
  }

  lemma {:induction false} InsertStable(x: AgentStats, s: seq<AgentStats>, key: AgentStats -> Key, v: Key)
    requires Descending(s, key)
    ensures Filter(Insert(x, s, key), HasKey(key, v)) == Filter(s, HasKey(key, v)) + (if key(x) == v then [x] else [])
    decreases |s|
  {
    if |s| == 0 {
      FilterCons(x, [], HasKey(key, v));
    } else if Below(key(s[0]), key(x)) {
      InsertStableFront(x, s, key, v);
    } else {
      InsertStable(x, s[1..], key, v);
      FilterBehind(s[0], s[1..], Insert(x, s[1..], key), HasKey(key, v), if key(x) == v then [x] else []);
      assert s == [s[0]] + s[1..];
    }
  }

  /** The sort is stable: the elements that share a key keep the order they had. */
  lemma {:induction false} RankingStable(xs: seq<AgentStats>, key: AgentStats -> Key, v: Key)
    ensures Filter(Ranking(xs, key), HasKey(key, v)) == Filter(xs, HasKey(key, v))
    decreases |xs|
  {
    if |xs| > 0 {
      var init, last := xs[..|xs| - 1], xs[|xs| - 1];
      RankingStable(init, key, v);
      RankingDescending(init, key);
      InsertStable(last, Ranking(init, key), key, v);
      FilterSnoc(init, last, HasKey(key, v));
      assert xs == init + [last];
    }
  }

  /** An element whose key is above every other element's key heads the leaderboard. */
  lemma RankingLeader(xs: seq<AgentStats>, key: AgentStats -> Key, p: nat)
    requires p < |xs|
    requires forall q :: 0 <= q < |xs| && q != p ==> Below(key(xs[q]), key(xs[p]))
    ensures Ranking(xs, key)[0] == xs[p]
  {
    var r := Ranking(xs, key);
    RankingPermutation(xs, key);
    RankingDescending(xs, key);
    assert r[0] in multiset(xs);
    var q :| 0 <= q < |xs| && xs[q] == r[0];
    if q != p {
      assert xs[p] in multiset(r);
      var k :| 0 <= k < |r| && r[k] == xs[p];
      if k == 0 {
        BelowIrreflexive(key(xs[p]));
      } else {
        BelowAsymmetric(key(xs[q]), key(xs[p]));
      }
    }
  }

  /** Whether `name` is the final winner as the snapshot tests it: `final_winner and
      x.name == final_winner`, so an empty name counts as no winner. */
  predicate IsFinalWinner(finalWinner: Option<string>, name: string) {
    finalWinner.Some? && finalWinner.value != "" && name == finalWinner.value
  }

  /** The key of the snapshot leaderboard: round reached, final winner first, votes. */
  function SnapshotKey(finalWinner: Option<string>): AgentStats -> Key {
    (s: AgentStats) => [s.roundReached, if IsFinalWinner(finalWinner, s.name) then 1 else 0, s.totalVotes]
  }

  /** The key of the leaderboard `run_tournament` returns: round reached, then votes. */
  function ResultKey(): AgentStats -> Key {
    (s: AgentStats) => [s.roundReached, s.totalVotes]
  }

  /** With a known final winner that reached the furthest round, the snapshot leaderboard
      starts with it, whatever the votes. */
  lemma SnapshotLeader(xs: seq<AgentStats>, p: nat)
    requires p < |xs| && xs[p].name != ""
    requires forall q :: 0 <= q < |xs| && q != p ==> xs[q].name != xs[p].name
    requires forall q :: 0 <= q < |xs| ==> xs[q].roundReached <= xs[p].roundReached
    ensures Ranking(xs, SnapshotKey(Some(xs[p].name)))[0] == xs[p]
  {
    var key := SnapshotKey(Some(xs[p].name));
    forall q | 0 <= q < |xs| && q != p
      ensures Below(key(xs[q]), key(xs[p]))
    {
      assert key(xs[q])[1..][1..] == [xs[q].totalVotes];
    }
    RankingLeader(xs, key, p);
  }

  /** The leaderboard `run_tournament` returns has no final-winner key: a finalist with more
      votes outranks the champion. */
  lemma ResultKeyOmitsChampion()
    ensures var xs := [AgentStats("A", 2, 1), AgentStats("B", 2, 5)];
      Ranking(xs, ResultKey())[0].name == "B" && Ranking(xs, SnapshotKey(Some("A")))[0].name == "A"
  {
    var xs := [AgentStats("A", 2, 1), AgentStats("B", 2, 5)];
    assert xs[..1] == [xs[0]];
    assert Below(ResultKey()(xs[0]), ResultKey()(xs[1])) by {
      assert ResultKey()(xs[0])[1..] == [1];
      assert ResultKey()(xs[1])[1..] == [5];
    }
    assert Below(SnapshotKey(Some("A"))(xs[1]), SnapshotKey(Some("A"))(xs[0])) by {
      assert SnapshotKey(Some("A"))(xs[1])[1..] == [0, 5];
      assert SnapshotKey(Some("A"))(xs[0])[1..] == [1, 1];
    }
    BelowAsymmetric(SnapshotKey(Some("A"))(xs[1]), SnapshotKey(Some("A"))(xs[0]));
  }
}
