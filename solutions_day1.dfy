/**
 * The earlier solution of day 1 (rust/src/solutions/day1.rs): the same total
 * distance as `Day1.Part1`, over growable vectors.
 */
module SolutionsDay1 {
  import Sorting
  import Day1

  /**
   * compute_result: sorts both vectors in place and returns the total
   * distance of the sorted vectors, pairs truncated to the shorter one.
   */
  method ComputeResult(xs: array<int>, ys: array<int>) returns (d: int)
    requires xs != ys
    modifies xs, ys
    ensures Day1.Sorted(xs[..]) && multiset(xs[..]) == multiset(old(xs[..]))
    ensures Day1.Sorted(ys[..]) && multiset(ys[..]) == multiset(old(ys[..]))
    ensures d == Day1.DistanceSum(xs[..], ys[..])
  {
    Sorting.SortBy(xs, x => x);
    Sorting.SortBy(ys, x => x);
    Day1.SortedByIdentity(xs[..]);
    Day1.SortedByIdentity(ys[..]);
    d := Day1.DistanceSum(xs[..], ys[..]);
  }

  /** The example of the tests gives 11. */
  method Example() returns (d: int)
    ensures d == 11
  {
    var xs := new int[] [3, 4, 2, 1, 3, 3];
    assert xs[..] == [3, 4, 2, 1, 3, 3];
    var ys := new int[] [4, 3, 5, 3, 9, 3];
    assert ys[..] == [4, 3, 5, 3, 9, 3];
    d := ComputeResult(xs, ys);
    ghost var sx, sy := xs[..], ys[..];
    Day1.ExampleSorted(sx, sy);
    Day1.ExampleDistance();
  }
}
