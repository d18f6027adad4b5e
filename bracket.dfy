/** The bracket of the single-elimination tournament of `tournament.py`: the matches, the
    number of rounds, and `setup_tournament_structure`, which spreads the byes over the two
    halves of the first round and pairs the other agents. Agents are known by their names. */
module TournamentBracket {
  import opened Wrappers
  import opened Draws

  /** A recorded vote: the spectator and the contestant voted for. */
  type Vote = (string, string)

  /** `TournamentMatch`. A missing participant is a bye (first round) or a slot still
      waiting for the winner of the round before. */
  datatype Match = Match(participant1: Option<string>, participant2: Option<string>, winner: Option<string>,
                         votes: Option<seq<Vote>>, conversation: string, isActive: bool)

  /** `TournamentMatch(p1, p2)` with the defaults of the other fields. */
  function NewMatch(p1: Option<string>, p2: Option<string>): Match {
    Match(p1, p2, None, None, "", false)
  }

  function Pow2(k: nat): (p: nat)
    ensures p >= 1
  {
    if k == 0 then 1 else 2 * Pow2(k - 1)
  }

  lemma {:induction false} Pow2Monotone(i: nat, j: nat)
    requires i <= j
    ensures Pow2(i) <= Pow2(j)
    decreases j
  {
    if i < j {
      Pow2Monotone(i, j - 1);
    }
  }

  /** `math.ceil(math.log2(n))` computed on integers. */
  function CeilLog2(n: nat): (k: nat)
    requires n >= 1
    ensures n <= Pow2(k)
    ensures k == 0 || Pow2(k - 1) < n
    decreases n
  {
    if n == 1 then 0
    else
      var c := CeilLog2((n + 1) / 2);
      assert Pow2(c + 1) == 2 * Pow2(c);
      c + 1
  }

  /** The number of rounds is the least `k` with `n <= 2^k`. */
  lemma {:induction false} CeilLog2IsLeast(n: nat, j: nat)
    requires n >= 1 && n <= Pow2(j)
    ensures CeilLog2(n) <= j
  {
    var k := CeilLog2(n);
    if k > j {
      Pow2Monotone(j, k - 1);
    }
  }

  /** The number of rounds for `n` agents. */
  function NumRounds(n: nat): nat
    requires n >= 1
  {
    CeilLog2(n)
  }

  function TotalSlots(n: nat): nat
    requires n >= 1
  {
    Pow2(NumRounds(n))
  }

  function NumByes(n: nat): nat
    requires n >= 1
  {
    TotalSlots(n) - n
  }

  /** The number of matches of the first round. */
  function FirstRoundSize(n: nat): nat
    requires n >= 1
  {
    TotalSlots(n) / 2
  }

  /** Slot `i` is a bye when it is one of the first `h` slots or one of the `h + r` slots
      from `half` on. */
  predicate ByeAt(i: int, h: nat, r: nat, half: nat) {
    (0 <= i < h) || (half <= i < half + h + r)
  }

  /** The slot `i` of the first round for `n` agents is a bye: one of the first `byes // 2`
      slots, or one of the `byes // 2 + byes % 2` slots from the middle on. */
  predicate IsByeSlot(n: nat, i: int)
    requires n >= 1
  {
    ByeAt(i, NumByes(n) / 2, NumByes(n) % 2, FirstRoundSize(n) / 2)
  }

  /** The sizes fit: the first round has `2^(k-1)` matches, fewer byes than matches, and the
      bye ranges of the two halves lie inside their halves. */
  lemma BracketArithmetic(n: nat)
    requires n >= 2
    ensures NumRounds(n) >= 1
    ensures FirstRoundSize(n) == Pow2(NumRounds(n) - 1)
    ensures 2 * FirstRoundSize(n) == TotalSlots(n)
    ensures NumByes(n) < FirstRoundSize(n)
    ensures n == 2 * FirstRoundSize(n) - NumByes(n)
    ensures NumByes(n) / 2 <= FirstRoundSize(n) / 2
    ensures FirstRoundSize(n) / 2 + NumByes(n) / 2 + NumByes(n) % 2 <= FirstRoundSize(n)
  {
    var k := NumRounds(n);
    assert k >= 1;
    assert Pow2(k) == 2 * Pow2(k - 1);
  }

  /** For five agents the byes are the slots 0, 2 and 3, and slot 1 is the only match. */
  lemma FiveAgents()
    ensures NumRounds(5) == 3 && NumByes(5) == 3 && FirstRoundSize(5) == 4
    ensures IsByeSlot(5, 0) && !IsByeSlot(5, 1) && IsByeSlot(5, 2) && IsByeSlot(5, 3)
  {
    assert CeilLog2(2) == 1;
    assert CeilLog2(3) == 2;
    assert Pow2(3) == 8 by { assert Pow2(2) == 4 by { assert Pow2(1) == 2; } }
  }

  // ---------------------------------------------------------------------------
  // Who sits in the bracket

  type Pair = (Option<string>, Option<string>)

  function OptionBag(p: Option<string>): multiset<string> {
    if p.Some? then multiset{p.value} else multiset{}
  }

  function SlotBag(pair: Pair): multiset<string> {
    OptionBag(pair.0) + OptionBag(pair.1)
  }

  /** Every agent seated in the slots, as often as it is seated. */
  function EntrantBag(pairs: seq<Pair>): multiset<string>
    decreases |pairs|
  {
    if |pairs| == 0 then multiset{} else EntrantBag(pairs[..|pairs| - 1]) + SlotBag(pairs[|pairs| - 1])
  }

  /** The participants of the matches. */
  function Pairs(matches: seq<Match>): (pairs: seq<Pair>)
    ensures |pairs| == |matches|
    ensures forall i :: 0 <= i < |matches| ==> pairs[i] == (matches[i].participant1, matches[i].participant2)
  {
    seq(|matches|, i requires 0 <= i < |matches| => (matches[i].participant1, matches[i].participant2))
  }

  lemma {:induction false} EntrantBagAppend(a: seq<Pair>, b: seq<Pair>)
    ensures EntrantBag(a + b) == EntrantBag(a) + EntrantBag(b)
    decreases |b|
  {
    if |b| > 0 {
      assert (a + b)[..|a + b| - 1] == a + b[..|b| - 1];
      EntrantBagAppend(a, b[..|b| - 1]);
    } else {
      assert a + b == a;
    }
  }

  lemma EntrantBagSingle(pair: Pair)
    ensures EntrantBag([pair]) == SlotBag(pair)
  {
    assert [pair][..0] == [];
  }

  /** Reseating one slot changes the seated agents by what left and what came. */
  lemma EntrantBagUpdate(pairs: seq<Pair>, i: nat, pair: Pair)
    requires i < |pairs|
    ensures EntrantBag(pairs[i := pair]) + SlotBag(pairs[i]) == EntrantBag(pairs) + SlotBag(pair)
  {
    var before, after := pairs[..i], pairs[i + 1..];
    assert pairs == before + [pairs[i]] + after;
    assert pairs[i := pair] == before + [pair] + after;
    EntrantBagAppend(before + [pairs[i]], after);
    EntrantBagAppend(before, [pairs[i]]);
    EntrantBagAppend(before + [pair], after);
    EntrantBagAppend(before, [pair]);
    EntrantBagSingle(pairs[i]);
    EntrantBagSingle(pair);
  }

  lemma {:induction false} EntrantBagOfEmptySlots(pairs: seq<Pair>)
    requires forall i :: 0 <= i < |pairs| ==> pairs[i] == (None, None)
    ensures EntrantBag(pairs) == multiset{}
    decreases |pairs|
  {
    if |pairs| > 0 {
      EntrantBagOfEmptySlots(pairs[..|pairs| - 1]);
    }
  }

  /** The bye slots before slot `i`, counted in closed form. */
  function ByesBefore(i: int, h: nat, r: nat, half: nat): int {
    (if i < h then i else h) + (if i <= half then 0 else if i - half < h + r then i - half else h + r)
  }

  /** Seating the agent popped from `rest` in an empty slot keeps every agent accounted for. */
  lemma SeatOne(matches: seq<Pair>, i: nat, rest: seq<string>, total: multiset<string>)
    requires i < |matches| && matches[i] == (None, None) && |rest| > 0
    requires EntrantBag(matches) + multiset(rest) == total
    ensures EntrantBag(matches[i := (None, Some(rest[|rest| - 1]))]) + multiset(rest[..|rest| - 1]) == total
  {
    var last := rest[|rest| - 1];
    assert rest == rest[..|rest| - 1] + [last];
    assert multiset(rest) == multiset(rest[..|rest| - 1]) + multiset{last};
    EntrantBagUpdate(matches, i, (None, Some(last)));
    assert SlotBag(matches[i]) == multiset{};
    assert SlotBag((None, Some(last))) == multiset{last};
    var after := EntrantBag(matches[i := (None, Some(last))]);
    assert after == EntrantBag(matches) + multiset{last};
  }

  lemma PopTwo(rest: seq<string>)
    requires |rest| >= 2
    ensures multiset(rest) == multiset(rest[..|rest| - 2]) + multiset{rest[|rest| - 2]} + multiset{rest[|rest| - 1]}
  {
    assert rest == rest[..|rest| - 2] + [rest[|rest| - 2]] + [rest[|rest| - 1]];
  }

  /** Seating the two agents popped from `rest` in an empty slot keeps every agent accounted for. */
  lemma SeatTwo(matches: seq<Pair>, i: nat, rest: seq<string>, total: multiset<string>)
    requires i < |matches| && matches[i] == (None, None) && |rest| >= 2
    requires EntrantBag(matches) + multiset(rest) == total
    ensures EntrantBag(matches[i := (Some(rest[|rest| - 1]), Some(rest[|rest| - 2]))]) + multiset(rest[..|rest| - 2]) == total
  {
    var p1, p2 := rest[|rest| - 1], rest[|rest| - 2];
    PopTwo(rest);
    EntrantBagUpdate(matches, i, (Some(p1), Some(p2)));
    assert SlotBag(matches[i]) == multiset{};
    assert SlotBag((Some(p1), Some(p2))) == multiset{p1} + multiset{p2};
    var after := EntrantBag(matches[i := (Some(p1), Some(p2))]);
    assert after + SlotBag(matches[i]) == EntrantBag(matches) + SlotBag((Some(p1), Some(p2)));
    assert after == EntrantBag(matches) + (multiset{p1} + multiset{p2});
  }

  /** A pair whose first place is a bye. */
  predicate IsBye(pair: Pair) {
    pair.0.None? && pair.1.Some?
  }

  /** The bye slots `start .. start + done - 1` are seated, the others are as in `matches`. */
  predicate ByesSeated(matches: seq<Pair>, seated: seq<Pair>, start: nat, done: nat) {
    |seated| == |matches| &&
    (forall j :: start <= j < start + done && j < |seated| ==> IsBye(seated[j])) &&
    (forall j :: 0 <= j < |seated| && !(start <= j < start + done) ==> seated[j] == matches[j])
  }

  lemma SeatByeStep(matches: seq<Pair>, seated: seq<Pair>, start: nat, done: nat, a: string)
    requires ByesSeated(matches, seated, start, done) && start + done < |matches|
    ensures ByesSeated(matches, seated[start + done := (None, Some(a))], start, done + 1)
  {
  }

  /** One bye loop of `setup_tournament_structure`: the `count` slots from `start` on each
      take the agent popped from the end of `rest`. */
  method SeatByes(matches: seq<Pair>, rest: seq<string>, start: nat, count: nat)
    returns (seated: seq<Pair>, left: seq<string>)
    requires start + count <= |matches| && count <= |rest|
    requires forall j :: start <= j < start + count ==> matches[j] == (None, None)
    ensures |left| == |rest| - count
    ensures EntrantBag(seated) + multiset(left) == EntrantBag(matches) + multiset(rest)
    ensures ByesSeated(matches, seated, start, count)
  {
    seated, left := matches, rest;
    for i := 0 to count
      invariant |left| == |rest| - i
      invariant EntrantBag(seated) + multiset(left) == EntrantBag(matches) + multiset(rest)
      invariant ByesSeated(matches, seated, start, i)
    {
      SeatByeStep(matches, seated, start, i, left[|left| - 1]);
      SeatOne(seated, start + i, left, EntrantBag(matches) + multiset(rest));
      seated := seated[start + i := (None, Some(left[|left| - 1]))];
      left := left[..|left| - 1];
    }
  }

  /** After the bye loops: the bye slots hold a bye, the others are still empty. */
  predicate ByeShape(matches: seq<Pair>, h: nat, r: nat, half: nat) {
    forall j :: 0 <= j < |matches| ==>
      (ByeAt(j, h, r, half) ==> IsBye(matches[j])) && (!ByeAt(j, h, r, half) ==> matches[j] == (None, None))
  }

  lemma ByesInBothHalves(empty: seq<Pair>, first: seq<Pair>, second: seq<Pair>, h: nat, r: nat, half: nat)
    requires forall j :: 0 <= j < |empty| ==> empty[j] == (None, None)
    requires h <= half && half + h + r <= |empty|
    requires ByesSeated(empty, first, 0, h) && ByesSeated(first, second, half, h + r)
    ensures ByeShape(second, h, r, half)
  {
  }

  /** The two bye loops of `setup_tournament_structure`: the first `h` slots and the `h + r`
      slots from `half` on each take the agent popped from the end of `shuffled`. */
  method PlaceByes(empty: seq<Pair>, shuffled: seq<string>, h: nat, r: nat, half: nat)
    returns (matches: seq<Pair>, rest: seq<string>)
    requires forall j :: 0 <= j < |empty| ==> empty[j] == (None, None)
    requires h <= half && half + h + r <= |empty| && 2 * h + r <= |shuffled|
    ensures |matches| == |empty| && |rest| == |shuffled| - (2 * h + r)
    ensures EntrantBag(matches) + multiset(rest) == multiset(shuffled)
    ensures ByeShape(matches, h, r, half)
  {
    EntrantBagOfEmptySlots(empty);
    var first, rest1 := SeatByes(empty, shuffled, 0, h);
    matches, rest := SeatByes(first, rest1, half, h + r);
    ByesInBothHalves(empty, first, matches, h, r, half);
  }

  /** Slots before `i` that are not byes are paired, bye slots keep their bye, and the
      other slots from `i` on are still empty. */
  predicate Paired(byes: seq<Pair>, matches: seq<Pair>, i: nat, h: nat, r: nat, half: nat) {
    |matches| == |byes| &&
    forall j :: 0 <= j < |matches| ==>
      (ByeAt(j, h, r, half) ==> matches[j] == byes[j]) &&
      (!ByeAt(j, h, r, half) && j < i ==> matches[j].0.Some? && matches[j].1.Some?) &&
      (!ByeAt(j, h, r, half) && i <= j ==> matches[j] == (None, None))
  }

  lemma PairStep(byes: seq<Pair>, matches: seq<Pair>, i: nat, h: nat, r: nat, half: nat, a: string, b: string)
    requires Paired(byes, matches, i, h, r, half) && i < |matches| && !ByeAt(i, h, r, half)
    ensures Paired(byes, matches[i := (Some(a), Some(b))], i + 1, h, r, half)
  {
  }

  lemma PairSkip(byes: seq<Pair>, matches: seq<Pair>, i: nat, h: nat, r: nat, half: nat)
    requires Paired(byes, matches, i, h, r, half) && i < |matches| && matches[i] != (None, None)
    ensures ByeAt(i, h, r, half) && Paired(byes, matches, i + 1, h, r, half)
  {
  }

  /** The slots before `i` that are not byes. */
  function NonByes(i: nat, h: nat, r: nat, half: nat): nat {
    if i == 0 then 0 else NonByes(i - 1, h, r, half) + (if ByeAt(i - 1, h, r, half) then 0 else 1)
  }

  lemma {:induction false} NonByesClosed(i: nat, h: nat, r: nat, half: nat)
    requires h <= half
    ensures NonByes(i, h, r, half) == i - ByesBefore(i, h, r, half)
  {
    if i > 0 {
      NonByesClosed(i - 1, h, r, half);
    }
  }

  /** A slot that is not a bye leaves at least one contested slot still to fill, and the
      contested slots of the round number `m - (2 * h + r)`. */
  lemma ContestedLeft(i: nat, h: nat, r: nat, half: nat, m: nat)
    requires h <= half && half + h + r <= m && i < m && !ByeAt(i, h, r, half)
    ensures NonByes(i, h, r, half) < NonByes(m, h, r, half) == m - (2 * h + r)
  {
    NonByesClosed(i, h, r, half);
    NonByesClosed(m, h, r, half);
  }

  /** One empty slot of the pairing loop: at least two agents are left, and seating the
      last two keeps the loop's invariants. */
  lemma PairAt(byes: seq<Pair>, matches: seq<Pair>, rest: seq<string>, i: nat, h: nat, r: nat, half: nat,
               total: multiset<string>)
    requires h <= half && half + h + r <= |byes| && ByeShape(byes, h, r, half)
    requires i < |matches| && matches[i] == (None, None)
    requires |rest| == 2 * (|byes| - (2 * h + r) - NonByes(i, h, r, half))
    requires EntrantBag(matches) + multiset(rest) == total
    requires Paired(byes, matches, i, h, r, half)
    ensures |rest| >= 2
    ensures var next := matches[i := (Some(rest[|rest| - 1]), Some(rest[|rest| - 2]))];
      |rest[..|rest| - 2]| == 2 * (|byes| - (2 * h + r) - NonByes(i + 1, h, r, half)) &&
      EntrantBag(next) + multiset(rest[..|rest| - 2]) == total &&
      Paired(byes, next, i + 1, h, r, half)
  {
    assert !ByeAt(i, h, r, half);
    ContestedLeft(i, h, r, half, |byes|);
    PairStep(byes, matches, i, h, r, half, rest[|rest| - 1], rest[|rest| - 2]);
    SeatTwo(matches, i, rest, total);
  }

  /** The third loop of `setup_tournament_structure`: every slot still empty takes the next
      two agents popped from the end of `shuffled`, the first popped as `participant1`.
      There are exactly enough agents left, so the `len(shuffled_agents) >= 2` guard never
      fails. */
  method PairRest(byes: seq<Pair>, shuffled: seq<string>, h: nat, r: nat, half: nat)
    returns (matches: seq<Pair>, rest: seq<string>)
    requires h <= half && half + h + r <= |byes|
    requires |shuffled| == 2 * (|byes| - (2 * h + r))
    requires ByeShape(byes, h, r, half)
    ensures rest == []
    ensures EntrantBag(matches) == EntrantBag(byes) + multiset(shuffled)
    ensures Paired(byes, matches, |byes|, h, r, half)
  {
    matches := byes;
    rest := shuffled;
    var contested := |byes| - (2 * h + r);
    NonByesClosed(|byes|, h, r, half);
    for i := 0 to |matches|
      invariant |matches| == |byes|
      invariant |rest| == 2 * (contested - NonByes(i, h, r, half))
      invariant EntrantBag(matches) + multiset(rest) == EntrantBag(byes) + multiset(shuffled)
      invariant Paired(byes, matches, i, h, r, half)
    {
      if matches[i] == (None, None) {
        PairAt(byes, matches, rest, i, h, r, half, EntrantBag(byes) + multiset(shuffled));
        if |rest| >= 2 {
          var p1 := rest[|rest| - 1];
          var p2 := rest[|rest| - 2];
          matches := matches[i := (Some(p1), Some(p2))];
          rest := rest[..|rest| - 2];
        } else {
          assert false;
        }
      } else {
        PairSkip(byes, matches, i, h, r, half);
      }
    }
  }

  /** Round `j` of the bracket has `2^(K-1-j)` matches, down to one in the final. */
  predicate RoundSizes(rounds: seq<seq<Match>>) {
    forall j :: 0 <= j < |rounds| ==> |rounds[j]| == Pow2(|rounds| - 1 - j)
  }

  /** Every match after the first round waits for both its participants. */
  predicate LaterRoundsEmpty(rounds: seq<seq<Match>>) {
    forall j, i :: 1 <= j < |rounds| && 0 <= i < |rounds[j]| ==> rounds[j][i] == NewMatch(None, None)
  }

  /** The rounds after the first: empty matches, half as many each round, down to one. */
  method LaterRounds(firstRound: seq<Match>, numRounds: nat) returns (rounds: seq<seq<Match>>)
    requires numRounds >= 1 && |firstRound| == Pow2(numRounds - 1)
    ensures |rounds| == numRounds && rounds[0] == firstRound
    ensures RoundSizes(rounds) && LaterRoundsEmpty(rounds)
  {
    rounds := [firstRound];
    if numRounds > 1 {
      assert Pow2(numRounds - 1) == 2 * Pow2(numRounds - 2);
    }
    var matchesInRound := |firstRound| / 2;
    while matchesInRound >= 1
      invariant 1 <= |rounds| <= numRounds
      invariant matchesInRound == if |rounds| < numRounds then Pow2(numRounds - 1 - |rounds|) else 0
      invariant rounds[0] == firstRound
      invariant forall j :: 0 <= j < |rounds| ==> |rounds[j]| == Pow2(numRounds - 1 - j)
      invariant LaterRoundsEmpty(rounds)
      decreases matchesInRound
    {
      rounds := rounds + [seq(matchesInRound, _ => NewMatch(None, None))];
      if |rounds| < numRounds {
        assert Pow2(numRounds - |rounds|) == 2 * Pow2(numRounds - 1 - |rounds|);
      }
      matchesInRound := matchesInRound / 2;
    }
  }

  /** The loop of `setup_tournament_structure` that turns the pairs into matches. */
  method FirstRound(matches: seq<Pair>) returns (firstRound: seq<Match>)
    ensures Pairs(firstRound) == matches
    ensures forall i :: 0 <= i < |firstRound| ==> firstRound[i] == NewMatch(matches[i].0, matches[i].1)
  {
    firstRound := [];
    for i := 0 to |matches|
      invariant |firstRound| == i
      invariant forall j :: 0 <= j < i ==> firstRound[j] == NewMatch(matches[j].0, matches[j].1)
    {
      var (p1, p2) := matches[i];
      firstRound := firstRound + [NewMatch(p1, p2)];
    }
    assert Pairs(firstRound) == matches;
  }

  /** In the first round every slot has a `participant2`, and exactly the bye slots lack a
      `participant1`. */
  predicate FirstRoundShape(pairs: seq<Pair>, h: nat, r: nat, half: nat) {
    forall i :: 0 <= i < |pairs| ==> pairs[i].1.Some? && (pairs[i].0.None? <==> ByeAt(i, h, r, half))
  }

  lemma PairedShape(byes: seq<Pair>, matches: seq<Pair>, h: nat, r: nat, half: nat)
    requires ByeShape(byes, h, r, half) && Paired(byes, matches, |byes|, h, r, half)
    ensures FirstRoundShape(matches, h, r, half)
  {
  }

  /** The slots of the first round, from the shuffle to the pairing. */
  method SeatAgents(agents: seq<string>, shufflePicks: seq<nat>) returns (pairs: seq<Pair>)
    requires |agents| >= 2
    ensures |pairs| == FirstRoundSize(|agents|)
    ensures FirstRoundShape(pairs, NumByes(|agents|) / 2, NumByes(|agents|) % 2, FirstRoundSize(|agents|) / 2)
    ensures EntrantBag(pairs) == multiset(agents)
  {
    var n := |agents|;
    BracketArithmetic(n);
    var numRounds := CeilLog2(n);
    var totalSlots := Pow2(numRounds);
    var numByes := totalSlots - n;
    var shuffled := Sample(agents, n, shufflePicks);
    ShuffleIsPermutation(agents, shufflePicks);

    var empty: seq<Pair> := seq(totalSlots / 2, _ => (None, None));
    var byesPerHalf := numByes / 2;
    var remainingBye := numByes % 2;
    var half := |empty| / 2;
    var withByes, rest := PlaceByes(empty, shuffled, byesPerHalf, remainingBye, half);
    var none;
    pairs, none := PairRest(withByes, rest, byesPerHalf, remainingBye, half);
    PairedShape(withByes, pairs, byesPerHalf, remainingBye, half);
  }

  /** The first round for `n` agents: fresh matches, each with a `participant2`, and
      exactly the bye slots without a `participant1`. */
  predicate FirstRoundOf(n: nat, firstRound: seq<Match>)
    requires n >= 1
  {
    forall i :: 0 <= i < |firstRound| ==>
      firstRound[i] == NewMatch(firstRound[i].participant1, firstRound[i].participant2) &&
      firstRound[i].participant2.Some? && (firstRound[i].participant1.None? <==> IsByeSlot(n, i))
  }

  lemma FirstRoundMatches(n: nat, pairs: seq<Pair>, firstRound: seq<Match>)
    requires n >= 1 && FirstRoundShape(pairs, NumByes(n) / 2, NumByes(n) % 2, FirstRoundSize(n) / 2)
    requires Pairs(firstRound) == pairs
    requires forall i :: 0 <= i < |firstRound| ==> firstRound[i] == NewMatch(pairs[i].0, pairs[i].1)
    ensures FirstRoundOf(n, firstRound)
  {
  }

  /** `setup_tournament_structure`: shuffles the agents with `shufflePicks`, pops byes into
      the two halves of the first round, pairs the rest by popping two at a time, and adds
      the empty later rounds, halving in size down to the final. */
  method SetupTournamentStructure(agents: seq<string>, shufflePicks: seq<nat>) returns (rounds: seq<seq<Match>>)
    requires |agents| >= 2
    ensures |rounds| == NumRounds(|agents|) && RoundSizes(rounds)
    ensures FirstRoundOf(|agents|, rounds[0])
    ensures EntrantBag(Pairs(rounds[0])) == multiset(agents)
    ensures LaterRoundsEmpty(rounds)
  {
    BracketArithmetic(|agents|);
    var pairs := SeatAgents(agents, shufflePicks);
    var firstRound := FirstRound(pairs);
    FirstRoundMatches(|agents|, pairs, firstRound);
    rounds := LaterRounds(firstRound, NumRounds(|agents|));
  }
}
