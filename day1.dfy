/**
 * Day 1 (rust/src/day1.rs): the total distance between two location lists,
 * paired smallest with smallest, and their similarity score.
 */
module Day1 {
  import Sorting

  /** Ascending order of plain integers, neighbour by neighbour. */
  predicate Sorted(s: seq<int>) {
    |s| < 2 || (s[0] <= s[1] && Sorted(s[1..]))
  }

  /** Sorting by the identity key is sorting ascending. */
  lemma {:induction false} SortedByIdentity(s: seq<int>)
    requires Sorting.SortedBy(s, x => x)
    ensures Sorted(s)
    decreases |s|
  {
    if |s| >= 2 {
      assert (x => x)(s[0]) <= (x => x)(s[1]);
      assert Sorting.SortedBy(s[1..], x => x) by {
        forall i, j | 0 <= i < j < |s[1..]| ensures (x => x)(s[1..][i]) <= (x => x)(s[1..][j]) {
          assert (x => x)(s[i + 1]) <= (x => x)(s[j + 1]);
        }
      }
      SortedByIdentity(s[1..]);
    }
  }

  function Abs(x: int): (r: int)
    ensures r >= 0 && (r == x || r == -x)
  {
    if x < 0 then -x else x
  }

  /**
   * `xs.iter().zip(ys).map(|(x, y)| (x - y).abs()).sum()`: the pairs are taken
   * position by position and the longer list's tail is ignored, as `zip` does.
   */
  function DistanceSum(xs: seq<int>, ys: seq<int>): (d: int)
    ensures d >= 0
    ensures (|xs| == 0 || |ys| == 0) ==> d == 0
  {
    if |xs| == 0 || |ys| == 0 then 0
    else Abs(xs[0] - ys[0]) + DistanceSum(xs[1..], ys[1..])
  }

  /**
   * part1: sorts both lists in place (`xs.sort(); ys.sort();`) and returns the
   * total distance of the sorted lists.
   */
  method Part1(xs: array<int>, ys: array<int>) returns (d: int)
    requires xs != ys
    modifies xs, ys
    ensures Sorted(xs[..]) && multiset(xs[..]) == multiset(old(xs[..]))
    ensures Sorted(ys[..]) && multiset(ys[..]) == multiset(old(ys[..]))
    ensures d == DistanceSum(xs[..], ys[..])
  {
    Sorting.SortBy(xs, x => x);
    Sorting.SortBy(ys, x => x);
    SortedByIdentity(xs[..]);
    SortedByIdentity(ys[..]);
    d := DistanceSum(xs[..], ys[..]);
  }

  /** The head of an ascending list is its least element. */
  lemma {:induction false} HeadIsLeast(s: seq<int>, x: int)
    requires Sorted(s) && x in s
    ensures s[0] <= x
    decreases |s|
  {
    if s[0] != x {
      assert x in s[1..];
      HeadIsLeast(s[1..], x);
    }
  }

  /** Two ascending lists with the same elements are the same list. */
  lemma {:induction false} SortedUnique(a: seq<int>, b: seq<int>)
    requires Sorted(a) && Sorted(b)
    requires multiset(a) == multiset(b)
    ensures a == b
    decreases |a|
  {
    assert |a| == |multiset(a)| == |multiset(b)| == |b|;
    if |a| > 0 {
      assert a[0] in multiset(b) && b[0] in multiset(a);
      HeadIsLeast(b, a[0]);
      HeadIsLeast(a, b[0]);
      assert a[0] == b[0];
      SameTails(a, b);
      SortedUnique(a[1..], b[1..]);
      assert a == [a[0]] + a[1..] && b == [b[0]] + b[1..];
    }
  }

  /** Two sequences with one head and the same elements have tails with the same elements. */
  lemma SameTails(a: seq<int>, b: seq<int>)
    requires |a| > 0 && |b| > 0 && a[0] == b[0] && multiset(a) == multiset(b)
    ensures multiset(a[1..]) == multiset(b[1..])
  {
    assert a == [a[0]] + a[1..];
    assert b == [b[0]] + b[1..];
    assert multiset(a) == multiset{a[0]} + multiset(a[1..]);
    assert multiset(b) == multiset{a[0]} + multiset(b[1..]);
    assert multiset(a[1..]) == multiset(a) - multiset{a[0]};
    assert multiset(b[1..]) == multiset(b) - multiset{a[0]};
  }

  /**
   * The result of part1 depends only on the elements of each list, not on
   * their order: any two sorted permutations of the inputs give one distance.
   */
  lemma Part1IgnoresOrder(xs: seq<int>, xs': seq<int>, ys: seq<int>, ys': seq<int>)
    requires Sorted(xs) && Sorted(xs') && multiset(xs) == multiset(xs')
    requires Sorted(ys) && Sorted(ys') && multiset(ys) == multiset(ys')
    ensures DistanceSum(xs, ys) == DistanceSum(xs', ys')
  {
    SortedUnique(xs, xs');
    SortedUnique(ys, ys');
  }

  /** The similarity score: each `x` of `xs` weighted by how often it occurs in `ys`. */
  function Similarity(xs: seq<int>, ys: seq<int>): int
  {
    if xs == [] then 0 else xs[0] * multiset(ys)[xs[0]] + Similarity(xs[1..], ys)
  }

  /** `xs.iter().map(|x| counts.get(x).unwrap_or(&0) * x).sum()`. */
  function WeightedSum(xs: seq<int>, counts: map<int, nat>): int
  {
    if xs == [] then 0
    else (if xs[0] in counts then counts[xs[0]] else 0) * xs[0] + WeightedSum(xs[1..], counts)
  }

  /**
   * A map that holds the multiplicity of every element of `ys` (and nothing
   * else) turns the weighted sum into the similarity score.
   */
  lemma {:induction false} WeightedSumIsSimilarity(xs: seq<int>, ys: seq<int>, counts: map<int, nat>)
    requires forall y :: y in counts <==> y in ys
    requires forall y :: y in counts ==> counts[y] == multiset(ys)[y]
    ensures WeightedSum(xs, counts) == Similarity(xs, ys)
    decreases |xs|
  {
    if xs != [] {
      WeightedSumIsSimilarity(xs[1..], ys, counts);
    }
  }

  /** The counting loop of part2: `*counts.entry(y).or_insert(0) += 1` for every `y`. */
  method CountOccurrences(ys: seq<int>) returns (counts: map<int, nat>)
    ensures forall y :: y in counts <==> y in ys
    ensures forall y :: y in counts ==> counts[y] == multiset(ys)[y]
  {
    counts := map[];
    for i := 0 to |ys|
      invariant forall y :: y in counts <==> y in ys[..i]
      invariant forall y :: y in counts ==> counts[y] == multiset(ys[..i])[y]
    {
      var y := ys[i];
      var count := if y in counts then counts[y] else 0;
      counts := counts[y := count + 1];
      assert ys[..i + 1] == ys[..i] + [y];
    }
    assert ys[..|ys|] == ys;
  }

  /** part2: the similarity score, computed through a frequency map of `ys`. */
  method Part2(xs: seq<int>, ys: seq<int>) returns (score: int)
    ensures score == Similarity(xs, ys)
  {
    var counts := CountOccurrences(ys);
    WeightedSumIsSimilarity(xs, ys, counts);
    score := WeightedSum(xs, counts);
  }

  /** A value of `xs` that does not occur in `ys` adds nothing to the score. */
  lemma {:induction false} SimilarityIgnoresAbsent(xs: seq<int>, ys: seq<int>, x: int)
    requires x !in ys
    ensures Similarity(xs + [x], ys) == Similarity(xs, ys)
    decreases |xs|
  {
    if xs == [] {
      assert multiset(ys)[x] == 0;
      assert Similarity([x], ys) == x * 0 + Similarity([], ys);
    } else {
      assert (xs + [x])[1..] == xs[1..] + [x];
      SimilarityIgnoresAbsent(xs[1..], ys, x);
    }
  }

  /** The example of the tests: part1 gives 11. */
  method ExamplePart1() returns (d: int)
    ensures d == 11
  {
    var xs := new int[] [3, 4, 2, 1, 3, 3];
    assert xs[..] == [3, 4, 2, 1, 3, 3];
    var ys := new int[] [4, 3, 5, 3, 9, 3];
    assert ys[..] == [4, 3, 5, 3, 9, 3];
    d := Part1(xs, ys);
    ghost var sx, sy := xs[..], ys[..];
    ExampleSorted(sx, sy);
    ExampleDistance();
  }

  /** The sorts can leave the test lists in one order only. */
  lemma ExampleSorted(sx: seq<int>, sy: seq<int>)
    requires Sorted(sx) && multiset(sx) == multiset([3, 4, 2, 1, 3, 3])
    requires Sorted(sy) && multiset(sy) == multiset([4, 3, 5, 3, 9, 3])
    ensures sx == [1, 2, 3, 3, 3, 4] && sy == [3, 3, 3, 4, 5, 9]
  {
    ExampleLeftSorted([3, 4, 2, 1, 3, 3], [1, 2, 3, 3, 3, 4]);
    ExampleRightSorted([4, 3, 5, 3, 9, 3], [3, 3, 3, 4, 5, 9]);
    ExampleLeftOnlySort(sx);
    ExampleRightOnlySort(sy);
  }

  /** A sorted list with the elements of the sorted left test list is that list. */
  lemma ExampleLeftOnlySort(s: seq<int>)
    requires Sorted(s) && multiset(s) == multiset([1, 2, 3, 3, 3, 4])
    ensures s == [1, 2, 3, 3, 3, 4]
  {
    SortedUnique(s, [1, 2, 3, 3, 3, 4]);
  }

  /** A sorted list with the elements of the sorted right test list is that list. */
  lemma ExampleRightOnlySort(s: seq<int>)
    requires Sorted(s) && multiset(s) == multiset([3, 3, 3, 4, 5, 9])
    ensures s == [3, 3, 3, 4, 5, 9]
  {
    SortedUnique(s, [3, 3, 3, 4, 5, 9]);
  }

  lemma ExampleDistance()
    ensures DistanceSum([1, 2, 3, 3, 3, 4], [3, 3, 3, 4, 5, 9]) == 11
  {
  }

  lemma ExampleLeftSorted(s: seq<int>, t: seq<int>)
    requires s == [3, 4, 2, 1, 3, 3] && t == [1, 2, 3, 3, 3, 4]
    ensures multiset(s) == multiset(t)
  {
    assert multiset(s) == multiset{3, 4, 2, 1, 3, 3};
    assert multiset(t) == multiset{1, 2, 3, 3, 3, 4};
  }

  lemma ExampleRightSorted(s: seq<int>, t: seq<int>)
    requires s == [4, 3, 5, 3, 9, 3] && t == [3, 3, 3, 4, 5, 9]
    ensures multiset(s) == multiset(t)
  {
    assert multiset(s) == multiset{4, 3, 5, 3, 9, 3};
    assert multiset(t) == multiset{3, 3, 3, 4, 5, 9};
  }

  /** The example of the tests: part2 gives 31. */
  method ExamplePart2() returns (score: int)
    ensures score == 31
  {
    var xs := [3, 4, 2, 1, 3, 3];
    var ys := [4, 3, 5, 3, 9, 3];
    score := Part2(xs, ys);
    assert multiset(ys)[3] == 3 && multiset(ys)[4] == 1;
    assert multiset(ys)[2] == 0 && multiset(ys)[1] == 0;
  }
}
