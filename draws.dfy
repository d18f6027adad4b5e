/** The random choices of the source (`random.shuffle`, `random.sample`, `random.randint`)
    as explicit inputs. A draw is a sequence of natural numbers, decoded the way
    `random.sample` draws: each number, modulo the size of what is left, picks the next
    element. Every sequence decodes to a legal outcome, and every legal outcome is the
    decoding of some sequence (`SampleReachesEveryOutcome`). */
module Draws {

  /** The elements of `xs` that satisfy `keep`, in order (a list comprehension with a filter). */
  function Filter<T>(xs: seq<T>, keep: T -> bool): (r: seq<T>)
    ensures |r| <= |xs|
    decreases |xs|
  {
    if |xs| == 0 then []
    else
      assert xs == [xs[0]] + xs[1..];
      (if keep(xs[0]) then [xs[0]] else []) + Filter(xs[1..], keep)
  }

  /** The first draw of `picks`, 0 when no draw is left. */
  function Head(picks: seq<nat>): nat {
    if |picks| == 0 then 0 else picks[0]
  }

  function Tail(picks: seq<nat>): seq<nat> {
    if |picks| == 0 then [] else picks[1..]
  }

  /** The index that the first draw of `picks` selects among `n` elements. */
  function Pick(picks: seq<nat>, n: nat): (j: nat)
    requires n > 0
    ensures j < n
  {
    Head(picks) % n
  }

  /** `pool` without its element at index `j`. */
  function RemoveAt<T>(pool: seq<T>, j: nat): (r: seq<T>)
    requires j < |pool|
    ensures |r| == |pool| - 1
  {
    pool[..j] + pool[j + 1..]
  }

  /** Removing an element takes exactly one of its occurrences out of the pool. */
  lemma RemoveAtBag<T>(pool: seq<T>, j: nat)
    requires j < |pool|
    ensures multiset(RemoveAt(pool, j)) + multiset{pool[j]} == multiset(pool)
  {
    assert pool == pool[..j] + [pool[j]] + pool[j + 1..];
  }

  /** `random.sample(pool, k)` driven by `picks`: `k` elements drawn without replacement,
      in draw order. `random.shuffle(pool)` is `Sample(pool, |pool|, picks)`. */
  function Sample<T>(pool: seq<T>, k: nat, picks: seq<nat>): (r: seq<T>)
    ensures |r| == if k < |pool| then k else |pool|
    decreases k
  {
    if k == 0 || |pool| == 0 then []
    else
      var j := Pick(picks, |pool|);
      [pool[j]] + Sample(RemoveAt(pool, j), k - 1, Tail(picks))
  }

  /** What `Sample` leaves of the pool. */
  function Unsampled<T>(pool: seq<T>, k: nat, picks: seq<nat>): seq<T>
    decreases k
  {
    if k == 0 || |pool| == 0 then pool
    else Unsampled(RemoveAt(pool, Pick(picks, |pool|)), k - 1, Tail(picks))
  }

  /** The sample and what is left of the pool make up the pool. */
  ghost predicate SplitsPool<T>(pool: seq<T>, k: nat, picks: seq<nat>) {
    multiset(Sample(pool, k, picks)) + multiset(Unsampled(pool, k, picks)) == multiset(pool)
  }

  lemma SplitStep<T>(pool: seq<T>, k: nat, picks: seq<nat>)
    requires k > 0 && |pool| > 0
    requires SplitsPool(RemoveAt(pool, Pick(picks, |pool|)), k - 1, Tail(picks))
    ensures SplitsPool(pool, k, picks)
  {
    var j := Pick(picks, |pool|);
    var tail := Sample(RemoveAt(pool, j), k - 1, Tail(picks));
    assert Sample(pool, k, picks) == [pool[j]] + tail;
    assert multiset(Sample(pool, k, picks)) == multiset{pool[j]} + multiset(tail);
    RemoveAtBag(pool, j);
  }

  lemma SplitBase<T>(pool: seq<T>, k: nat, picks: seq<nat>)
    requires k == 0 || |pool| == 0
    ensures SplitsPool(pool, k, picks)
  {
    assert Sample(pool, k, picks) == [];
    assert Unsampled(pool, k, picks) == pool;
  }

  /** A sample draws without replacement: the sample and what is left make up the pool. */
  lemma {:induction false} SampleSplitsPool<T>(pool: seq<T>, k: nat, picks: seq<nat>)
    ensures SplitsPool(pool, k, picks)
    decreases k
  {
    if k != 0 && |pool| != 0 {
      SampleSplitsPool(RemoveAt(pool, Pick(picks, |pool|)), k - 1, Tail(picks));
      SplitStep(pool, k, picks);
    } else {
      SplitBase(pool, k, picks);
    }
  }

  /** A sample takes no element more often than the pool holds it. */
  lemma SampleWithin<T>(pool: seq<T>, k: nat, picks: seq<nat>)
    ensures multiset(Sample(pool, k, picks)) <= multiset(pool)
  {
    SampleSplitsPool(pool, k, picks);
  }

  /** A sample of the whole pool is a permutation of it. */
  lemma ShuffleIsPermutation<T>(pool: seq<T>, picks: seq<nat>)
    ensures multiset(Sample(pool, |pool|, picks)) == multiset(pool)
  {
    SampleWithin(pool, |pool|, picks);
    var r := Sample(pool, |pool|, picks);
    var d := multiset(pool) - multiset(r);
    assert |d| == |multiset(pool)| - |multiset(r)|;
    assert d == multiset{};
  }

  function IndexOf<T(==)>(xs: seq<T>, x: T): (j: nat)
    requires x in xs
    ensures j < |xs| && xs[j] == x
    decreases |xs|
  {
    if xs[0] == x then 0 else 1 + IndexOf(xs[1..], x)
  }

  /** Taking the first element of `r` out of `pool` keeps the rest of `r` inside it. */
  lemma DrawFirst<T>(pool: seq<T>, r: seq<T>, j: nat)
    requires |r| > 0 && multiset(r) <= multiset(pool)
    requires j < |pool| && pool[j] == r[0]
    ensures multiset(r[1..]) <= multiset(RemoveAt(pool, j))
  {
    assert r == [r[0]] + r[1..];
    assert multiset(r) == multiset(r[1..]) + multiset{r[0]};
    var rest := RemoveAt(pool, j);
    RemoveAtBag(pool, j);
    forall x ensures multiset(r[1..])[x] <= multiset(rest)[x] {
      assert multiset(r)[x] <= multiset(pool)[x];
      if x == r[0] {
        assert multiset(r)[x] == multiset(r[1..])[x] + 1;
        assert multiset(pool)[x] == multiset(rest)[x] + 1;
      } else {
        assert multiset(r)[x] == multiset(r[1..])[x];
        assert multiset(pool)[x] == multiset(rest)[x];
      }
    }
  }

  /** The draws that make `Sample` produce `r`. */
  function PicksFor<T(==)>(pool: seq<T>, r: seq<T>): seq<nat>
    requires multiset(r) <= multiset(pool)
    decreases |r|
  {
    if |r| == 0 then []
    else
      assert r[0] in multiset(r);
      var j := IndexOf(pool, r[0]);
      DrawFirst(pool, r, j);
      [j] + PicksFor(RemoveAt(pool, j), r[1..])
  }

  lemma HeadTail<T>(r: seq<T>)
    requires |r| > 0
    ensures [r[0]] + r[1..] == r
  {
  }

  lemma ModOfSmaller(j: nat, n: nat)
    requires j < n
    ensures j % n == j
  {
  }

  /** Unfolding `PicksFor` once: its first draw selects `r[0]`. */
  lemma PicksForFirst<T>(pool: seq<T>, r: seq<T>)
    requires |r| > 0 && multiset(r) <= multiset(pool)
    ensures r[0] in pool
    ensures Pick(PicksFor(pool, r), |pool|) == IndexOf(pool, r[0])
    ensures multiset(r[1..]) <= multiset(RemoveAt(pool, IndexOf(pool, r[0])))
    ensures Tail(PicksFor(pool, r)) == PicksFor(RemoveAt(pool, IndexOf(pool, r[0])), r[1..])
  {
    assert r[0] in multiset(r);
    var j := IndexOf(pool, r[0]);
    DrawFirst(pool, r, j);
    ModOfSmaller(j, |pool|);
  }

  /** Unfolding `Sample` once. */
  lemma SampleFirst<T>(pool: seq<T>, k: nat, picks: seq<nat>, j: nat)
    requires k > 0 && |pool| > 0 && Pick(picks, |pool|) == j
    ensures Sample(pool, k, picks) == [pool[j]] + Sample(RemoveAt(pool, j), k - 1, Tail(picks))
  {
  }

  /** Every outcome `random.sample(pool, |r|)` can produce comes from some draws:
      any `|r|` elements taken from `pool` without replacement, in any order. */
  lemma {:induction false} SampleReachesEveryOutcome<T>(pool: seq<T>, r: seq<T>)
    requires multiset(r) <= multiset(pool)
    ensures Sample(pool, |r|, PicksFor(pool, r)) == r
    decreases |r|
  {
    if |r| != 0 {
      PicksForFirst(pool, r);
      var j := IndexOf(pool, r[0]);
      var picks, rest := PicksFor(pool, r), RemoveAt(pool, j);
      SampleFirst(pool, |r|, picks, j);
      SampleReachesEveryOutcome(rest, r[1..]);
      assert Sample(rest, |r| - 1, Tail(picks)) == r[1..];
      HeadTail(r);
    }
  }

  /** `random.randint(lo, hi)` driven by one draw. */
  function RandInt(lo: int, hi: int, pick: nat): (r: int)
    requires lo <= hi
    ensures lo <= r <= hi
  {
    lo + pick % (hi - lo + 1)
  }

  /** Every value of the range is reachable. */
  lemma RandIntReachesEveryValue(lo: int, hi: int, v: int)
    requires lo <= v <= hi
    ensures RandInt(lo, hi, (v - lo) as nat) == v
  {
  }

  /** `random.choice(xs)` driven by one draw. */
  function Choice<T>(xs: seq<T>, pick: nat): (x: T)
    requires |xs| > 0
    ensures x in xs
  {
    xs[pick % |xs|]
  }

  /** The elements `Filter` keeps are the elements of `xs` that satisfy `keep`. */
  lemma {:induction false} FilterMembers<T>(xs: seq<T>, keep: T -> bool, x: T)
    ensures x in Filter(xs, keep) <==> x in xs && keep(x)
    decreases |xs|
  {
    if |xs| > 0 {
      FilterMembers(xs[1..], keep, x);
      assert xs == [xs[0]] + xs[1..];
    }
  }

  /** An element a sample holds is an element of the pool. */
  lemma SampleMember<T>(pool: seq<T>, k: nat, picks: seq<nat>, x: T)
    requires x in Sample(pool, k, picks)
    ensures x in pool
  {
    SampleWithin(pool, k, picks);
    assert x in multiset(Sample(pool, k, picks));
  }

  /** No element occurs twice. */
  predicate Distinct<T(==)>(xs: seq<T>) {
    forall i, j :: 0 <= i < j < |xs| ==> xs[i] != xs[j]
  }

  /** An element of a list without repeats occurs in it at most once. */
  lemma {:induction false} DistinctCount<T>(xs: seq<T>, x: T)
    requires Distinct(xs)
    ensures multiset(xs)[x] <= 1
    decreases |xs|
  {
    if |xs| > 0 {
      var init, last := xs[..|xs| - 1], xs[|xs| - 1];
      assert Distinct(init) by {
        forall i, j | 0 <= i < j < |init| ensures init[i] != init[j] {
          assert init[i] == xs[i] && init[j] == xs[j];
        }
      }
      DistinctCount(init, x);
      assert xs == init + [last];
      if x == last {
        assert x !in init by {
          forall i | 0 <= i < |init| ensures init[i] != x {
            assert init[i] == xs[i];
          }
        }
      }
    }
  }

  /** An element at two positions occurs at least twice. */
  lemma RepeatCount<T>(ys: seq<T>, i: nat, j: nat)
    requires i < j < |ys| && ys[i] == ys[j]
    ensures multiset(ys)[ys[i]] >= 2
  {
    assert ys == ys[..j] + [ys[j]] + ys[j + 1..];
    assert ys[..j][i] == ys[i];
  }

  /** A rearrangement of a list without repeats has none. */
  lemma DistinctOfSameBag<T>(a: seq<T>, b: seq<T>)
    requires Distinct(a) && multiset(a) == multiset(b)
    ensures Distinct(b)
  {
    forall i, j | 0 <= i < j < |b|
      ensures b[i] != b[j]
    {
      if b[i] == b[j] {
        RepeatCount(b, i, j);
        DistinctCount(a, b[i]);
        assert false;
      }
    }
  }

  lemma {:induction false} FilterSnoc<T>(xs: seq<T>, x: T, keep: T -> bool)
    ensures Filter(xs + [x], keep) == Filter(xs, keep) + (if keep(x) then [x] else [])
    decreases |xs|
  {
    var added := if keep(x) then [x] else [];
    if |xs| == 0 {
      assert [x][1..] == [];
      assert Filter([x], keep) == added + Filter([], keep);
    } else {
      var head := if keep(xs[0]) then [xs[0]] else [];
      assert (xs + [x])[0] == xs[0] && (xs + [x])[1..] == xs[1..] + [x];
      FilterSnoc(xs[1..], x, keep);
      assert Filter(xs + [x], keep) == head + (Filter(xs[1..], keep) + added);
      assert Filter(xs, keep) == head + Filter(xs[1..], keep);
      assert head + (Filter(xs[1..], keep) + added) == (head + Filter(xs[1..], keep)) + added;
    }
  }

  lemma {:induction false} FilterKeepsAll<T>(xs: seq<T>, keep: T -> bool)
    requires forall i :: 0 <= i < |xs| ==> keep(xs[i])
    ensures Filter(xs, keep) == xs
    decreases |xs|
  {
    if |xs| > 0 {
      FilterKeepsAll(xs[1..], keep);
    }
  }
}
