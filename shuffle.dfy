/** Generating a candidate list: copy the roster, then shuffle the copy in place
    with the Fisher-Yates swaps of the standard library's shuffle: for i from
    n-1 down to 1 it draws j in [0, i] and swaps positions i and j. The random
    draws are a parameter, `draws[i]` being the j drawn at step i. */
module Shuffle {
  import opened Roster

  /** `s` with the elements at positions `i` and `j` exchanged. */
  function Swap<T>(s: seq<T>, i: nat, j: nat): (r: seq<T>)
    requires i < |s| && j < |s|
    ensures |r| == |s| && r[i] == s[j] && r[j] == s[i]
    ensures forall k :: 0 <= k < |s| && k != i && k != j ==> r[k] == s[k]
  {
    s[i := s[j]][j := s[i]]
  }

  /** Draws a Fisher-Yates shuffle of `n` elements can make: the index drawn at
      step i lies in [0, i]. */
  predicate ValidDraws(draws: seq<nat>, n: nat)
  {
    |draws| == n && forall i :: 0 <= i < n ==> draws[i] <= i
  }

  /** The result of running the shuffle steps i, i-1, ..., 1 on `s`. The steps
      rearrange the first i+1 elements and leave the rest in place. */
  function ShuffleDown<T>(s: seq<T>, draws: seq<nat>, i: int): (r: seq<T>)
    requires ValidDraws(draws, |s|) && i < |s|
    ensures |r| == |s|
    ensures forall k :: i < k < |s| && 0 <= k ==> r[k] == s[k]
    decreases i
  {
    if i <= 0 then s else ShuffleDown(Swap(s, i, draws[i]), draws, i - 1)
  }

  /** A swap only exchanges two elements: it keeps the multiset. */
  lemma SwapPermutes<T>(s: seq<T>, i: nat, j: nat)
    requires i < |s| && j < |s|
    ensures multiset(Swap(s, i, j)) == multiset(s)
  {
  }

  /** Each shuffle step is a swap, so the steps together keep the multiset. */
  lemma {:induction false} ShuffleDownPermutes<T>(s: seq<T>, draws: seq<nat>, i: int)
    requires ValidDraws(draws, |s|) && i < |s|
    ensures multiset(ShuffleDown(s, draws, i)) == multiset(s)
    decreases i
  {
    if i > 0 {
      SwapPermutes(s, i, draws[i]);
      ShuffleDownPermutes(Swap(s, i, draws[i]), draws, i - 1);
    }
  }

  /** The full shuffle of `s` under `draws`: a permutation of `s`. */
  function Shuffled<T>(s: seq<T>, draws: seq<nat>): (r: seq<T>)
    requires ValidDraws(draws, |s|)
    ensures |r| == |s|
  {
    ShuffleDown(s, draws, |s| - 1)
  }

  /** The shuffle yields a permutation of its input: same length, same
      multiset, nothing duplicated or dropped. */
  lemma ShuffledPermutes<T>(s: seq<T>, draws: seq<nat>)
    requires ValidDraws(draws, |s|)
    ensures |Shuffled(s, draws)| == |s| && multiset(Shuffled(s, draws)) == multiset(s)
  {
    ShuffleDownPermutes(s, draws, |s| - 1);
  }

  /** No element occurs twice in `s`. */
  ghost predicate Distinct<T>(s: seq<T>)
  {
    forall i, j :: 0 <= i < j < |s| ==> s[i] != s[j]
  }

  /** In a sequence without repeats every element is counted at most once. */
  lemma {:induction false} DistinctCountsOnce<T>(s: seq<T>, x: T)
    requires Distinct(s)
    ensures multiset(s)[x] <= 1
  {
    if s != [] {
      assert s == [s[0]] + s[1..];
      assert Distinct(s[1..]) by {
        forall i, j | 0 <= i < j < |s[1..]| ensures s[1..][i] != s[1..][j] {
          assert s[1..][i] == s[i + 1] && s[1..][j] == s[j + 1];
        }
      }
      DistinctCountsOnce(s[1..], x);
      if s[0] == x {
        assert x !in s[1..];
      }
    }
  }

  /** An element found at two positions is counted at least twice. */
  lemma RepeatCountsTwice<T>(t: seq<T>, i: nat, j: nat)
    requires i < j < |t|
    ensures t[i] == t[j] ==> multiset(t)[t[i]] >= 2
  {
    assert t == t[..i] + [t[i]] + t[i + 1..j] + [t[j]] + t[j + 1..];
  }

  /** A rearrangement of a sequence without repeats has no repeats. */
  lemma PermutationKeepsDistinct<T>(s: seq<T>, t: seq<T>)
    requires multiset(t) == multiset(s) && Distinct(s)
    ensures Distinct(t)
  {
    forall i, j | 0 <= i < j < |t| ensures t[i] != t[j] {
      DistinctCountsOnce(s, t[i]);
      RepeatCountsTwice(t, i, j);
    }
  }

  /** The shuffle steps i, ..., 1 read only the draws of those steps. */
  lemma {:induction false} ShuffleDownReadsDrawsUpTo<T>(s: seq<T>, d1: seq<nat>, d2: seq<nat>, i: int)
    requires ValidDraws(d1, |s|) && ValidDraws(d2, |s|) && i < |s|
    requires forall k :: 0 <= k <= i ==> d1[k] == d2[k]
    ensures ShuffleDown(s, d1, i) == ShuffleDown(s, d2, i)
    decreases i
  {
    if i > 0 {
      ShuffleDownReadsDrawsUpTo(Swap(s, i, d1[i]), d1, d2, i - 1);
    }
  }

  /** The element a target arrangement `t` wants at position i sits at some
      position j <= i of `s`, when the first i + 1 elements of both agree as
      multisets. */
  lemma SourceOf<T>(s: seq<T>, t: seq<T>, i: nat) returns (j: nat)
    requires i < |s| && i < |t|
    requires multiset(s[..i + 1]) == multiset(t[..i + 1])
    ensures j <= i && s[j] == t[i]
  {
    assert t[..i + 1] == t[..i] + [t[i]];
    assert t[i] in multiset(s[..i + 1]);
    j :| 0 <= j <= i && s[j] == t[i];
  }

  /** Swapping that element into position i leaves a permutation of the
      target's first i elements in front of it. */
  lemma SwapLeavesPrefix<T>(s: seq<T>, t: seq<T>, i: nat, j: nat)
    requires j <= i < |s| && i < |t| && s[j] == t[i]
    requires multiset(s[..i + 1]) == multiset(t[..i + 1])
    ensures multiset(Swap(s, i, j)[..i]) == multiset(t[..i])
  {
    var s' := Swap(s, i, j);
    assert s'[..i + 1] == Swap(s[..i + 1], i, j);
    SwapPermutes(s[..i + 1], i, j);
    assert s'[..i + 1] == s'[..i] + [t[i]];
    assert t[..i + 1] == t[..i] + [t[i]];
    CancelLast(s'[..i], t[..i], t[i]);
  }

  /** One step towards a target arrangement `t`: some j in [0, i] brings the
      element `t` wants at position i there, and what is left to arrange is
      the first i elements. */
  lemma StepToward<T>(s: seq<T>, t: seq<T>, i: nat) returns (j: nat)
    requires 0 < i < |s| && |t| == |s|
    requires multiset(s[..i + 1]) == multiset(t[..i + 1]) && s[i + 1..] == t[i + 1..]
    ensures j <= i
    ensures multiset(Swap(s, i, j)[..i]) == multiset(t[..i])
    ensures Swap(s, i, j)[i..] == t[i..]
  {
    j := SourceOf(s, t, i);
    SwapLeavesPrefix(s, t, i, j);
    var s' := Swap(s, i, j);
    assert s'[i + 1..] == s[i + 1..];
    assert s'[i..] == [t[i]] + s'[i + 1..];
    assert t[i..] == [t[i]] + t[i + 1..];
  }

  /** Removing the same last element from two permutations of each other
      leaves permutations of each other. */
  lemma CancelLast<T>(a: seq<T>, b: seq<T>, x: T)
    requires multiset(a + [x]) == multiset(b + [x])
    ensures multiset(a) == multiset(b)
  {
    calc {
      multiset(a);
      (multiset(a) + multiset{x}) - multiset{x};
      multiset(a + [x]) - multiset{x};
      multiset(b + [x]) - multiset{x};
      (multiset(b) + multiset{x}) - multiset{x};
      multiset(b);
    }
  }

  /** With at most one element left to arrange, the arrangement is already `t`. */
  lemma NothingLeftToArrange<T>(s: seq<T>, t: seq<T>, i: int)
    requires -1 <= i <= 0 && i < |s| && |t| == |s|
    requires multiset(s[..i + 1]) == multiset(t[..i + 1]) && s[i + 1..] == t[i + 1..]
    ensures s == t
  {
    if i == -1 {
      assert s == s[0..] && t == t[0..];
    } else {
      assert s[..1] == [s[0]] && t[..1] == [t[0]];
      assert s[0] in multiset([t[0]]);
      assert s == [s[0]] + s[1..] && t == [t[0]] + t[1..];
    }
  }

  /** Every arrangement `t` of the first i+1 elements of `s` (the rest equal)
      is what steps i, ..., 1 produce under some draws. */
  lemma {:induction false} ReachableDown<T>(s: seq<T>, t: seq<T>, i: int) returns (draws: seq<nat>)
    requires -1 <= i < |s| && |t| == |s|
    requires multiset(s[..i + 1]) == multiset(t[..i + 1]) && s[i + 1..] == t[i + 1..]
    ensures ValidDraws(draws, |s|) && ShuffleDown(s, draws, i) == t
    decreases i + 1
  {
    if i <= 0 {
      draws := seq(|s|, k => 0);
      NothingLeftToArrange(s, t, i);
    } else {
      var j := StepToward(s, t, i);
      var s' := Swap(s, i, j);
      var d' := ReachableDown(s', t, i - 1);
      draws := d'[i := j];
      ShuffleDownReadsDrawsUpTo(s', draws, d', i - 1);
    }
  }

  /** Every permutation of `s` is the outcome of some draws: the shuffle can
      produce every ordering of the roster. */
  lemma EveryOrderReachable<T>(s: seq<T>, t: seq<T>) returns (draws: seq<nat>)
    requires multiset(t) == multiset(s)
    ensures ValidDraws(draws, |s|) && Shuffled(s, draws) == t
  {
    assert |t| == |multiset(t)| == |multiset(s)| == |s|;
    assert s[..|s|] == s && t[..|t|] == t;
    draws := ReachableDown(s, t, |s| - 1);
  }

  /** The standard library's shuffle with the swap callback of the source:
      the Fisher-Yates steps i = n-1 down to 1, each swapping positions i and
      draws[i] of `list` in place. */
  method ShuffleInPlace<T>(list: array<T>, draws: seq<nat>)
    requires ValidDraws(draws, list.Length)
    modifies list
    ensures list[..] == Shuffled(old(list[..]), draws)
  {
    ghost var shuffled := Shuffled(list[..], draws);
    var i := list.Length - 1;
    while i > 0
      invariant -1 <= i < list.Length
      invariant ShuffleDown(list[..], draws, i) == shuffled
    {
      ghost var before := list[..];
      var j := draws[i];
      list[i], list[j] := list[j], list[i];
      assert list[..] == Swap(before, i, j);
      assert ShuffleDown(list[..], draws, i - 1) == shuffled;
      i := i - 1;
    }
  }

  /** Builds a fresh candidate list: a copy of the roster, shuffled in place.
      The roster itself is a constant and stays as it is. */
  method ShufflePlayers(draws: seq<nat>) returns (list: array<Player>)
    requires ValidDraws(draws, NumPlayers)
    ensures fresh(list)
    ensures list[..] == Shuffled(Players, draws)
    ensures multiset(list[..]) == multiset(Players)
  {
    list := new Player[|Players|];
    forall k | 0 <= k < list.Length {
      list[k] := Players[k];
    }
    assert list[..] == Players;
    ShuffleInPlace(list, draws);
    ShuffledPermutes(Players, draws);
  }
}
