/**
 * Day 2 (rust/src/solutions/day2.rs): reactor reports and whether their
 * levels change safely.
 */
module SolutionsDay2 {
  import Text
  import Seqs

  /** One report: its levels in order (`Vec<i64>`). */
  type Report = seq<int>

  /** Every word of the line, split on single spaces, is a signed number. */
  predicate WellFormed(line: string) {
    forall w :: w in Text.DropEmpty(Text.Split(line, ' ')) ==> Text.IsIntLiteral(w)
  }

  function ParseWords(words: seq<string>): (r: Report)
    requires forall w :: w in words ==> Text.IsIntLiteral(w)
    ensures |r| == |words|
    ensures forall k :: 0 <= k < |words| ==> r[k] == Text.ParseInt(words[k])
  {
    if words == [] then [] else [Text.ParseInt(words[0])] + ParseWords(words[1..])
  }

  /** parse: the numbers of a line, skipping the empty words between repeated spaces. */
  function Parse(line: string): Report
    requires WellFormed(line)
  {
    ParseWords(Text.DropEmpty(Text.Split(line, ' ')))
  }

  /** A report written out with one space between its levels. */
  function Render(r: Report): string
  {
    if r == [] then "" else Text.Join(RenderWords(r), ' ')
  }

  function RenderWords(r: Report): (words: seq<string>)
    ensures |words| == |r|
    ensures forall k :: 0 <= k < |r| ==> words[k] == Text.ShowInt(r[k])
  {
    if r == [] then [] else [Text.ShowInt(r[0])] + RenderWords(r[1..])
  }

  /** Parsing a rendered report gives the report back. */
  lemma ParseRender(r: Report)
    ensures WellFormed(Render(r)) && Parse(Render(r)) == r
  {
    if r == [] {
      assert Text.Split("", ' ') == [""];
    } else {
      var words := RenderWords(r);
      forall k | 0 <= k < |words| ensures ' ' !in words[k] && words[k] != [] {
        Text.IntLiteralOnly(words[k], ' ');
      }
      Text.SplitJoin(words, ' ');
      forall k | 0 <= k < |r| ensures Text.ParseInt(words[k]) == r[k] {
        Text.ParseShowInt(r[k]);
      }
    }
  }

  /**
   * has_strict_bounded_incs: every neighbouring pair rises by one to three.
   * Reports with fewer than two levels pass.
   */
  function HasStrictBoundedIncs(r: Report): (ok: bool)
    ensures ok <==> forall i :: 0 <= i < |r| - 1 ==> r[i] < r[i + 1] <= r[i] + 3
  {
    if |r| < 2 then true
    else r[0] < r[1] <= r[0] + 3 && HasStrictBoundedIncs(r[1..])
  }

  /** is_safe: the levels rise steadily, read forwards or backwards. */
  function IsSafe(r: Report): bool
  {
    HasStrictBoundedIncs(r) || HasStrictBoundedIncs(Seqs.Reverse(r))
  }

  /** A safe report is one whose levels all rise, or all fall, by one to three per step. */
  lemma SafeMeans(r: Report)
    ensures IsSafe(r) <==>
      (forall i :: 0 <= i < |r| - 1 ==> r[i] < r[i + 1] <= r[i] + 3) ||
      (forall i :: 0 <= i < |r| - 1 ==> r[i + 1] < r[i] <= r[i + 1] + 3)
  {
    var v := Seqs.Reverse(r);
    if forall i :: 0 <= i < |r| - 1 ==> r[i + 1] < r[i] <= r[i + 1] + 3 {
      forall i | 0 <= i < |v| - 1 ensures v[i] < v[i + 1] <= v[i] + 3 {
        assert v[i] == r[|r| - 1 - i] && v[i + 1] == r[|r| - 1 - i - 1];
      }
    }
    if HasStrictBoundedIncs(v) {
      forall i | 0 <= i < |r| - 1 ensures r[i + 1] < r[i] <= r[i + 1] + 3 {
        var j := |r| - 2 - i;
        assert v[j] == r[i + 1] && v[j + 1] == r[i];
      }
    }
  }

  /** Reading a report backwards does not change whether it is safe. */
  lemma SafeReversed(r: Report)
    ensures IsSafe(Seqs.Reverse(r)) == IsSafe(r)
  {
    Seqs.ReverseReverse(r);
  }

  /** skip_over: the report without the level at `i`; an index past the end removes nothing. */
  function SkipOver(i: nat, r: Report): (s: Report)
    ensures i < |r| ==> |s| == |r| - 1 && forall k :: 0 <= k < |s| ==> s[k] == (if k < i then r[k] else r[k + 1])
    ensures i >= |r| ==> s == r
  {
    var take := if i < |r| then i else |r|;
    var skip := if i + 1 < |r| then i + 1 else |r|;
    r[..take] + r[skip..]
  }

  /** The report with the level at `j` removed is safe. */
  predicate SafeWithout(r: Report, j: nat) {
    IsSafe(SkipOver(j, r))
  }

  /** The `for i in 0..report.len()` search of is_nearly_safe, from index `i` on. */
  function SafeAfterSkipFrom(r: Report, i: nat): (found: bool)
    ensures found <==> exists j :: i <= j < |r| && SafeWithout(r, j)
    decreases |r| - i
  {
    if i >= |r| then false
    else SafeWithout(r, i) || SafeAfterSkipFrom(r, i + 1)
  }

  /** is_nearly_safe: safe, or safe once one level is removed. */
  function IsNearlySafe(r: Report): (ok: bool)
    ensures ok <==> IsSafe(r) || exists j :: 0 <= j < |r| && SafeWithout(r, j)
  {
    IsSafe(r) || SafeAfterSkipFrom(r, 0)
  }

  /** part1: how many reports are safe. */
  function Part1(reports: seq<Report>): (n: nat)
    ensures n <= |reports|
  {
    if reports == [] then 0 else (if IsSafe(reports[0]) then 1 else 0) + Part1(reports[1..])
  }

  /** part2: how many reports are nearly safe. */
  function Part2(reports: seq<Report>): (n: nat)
    ensures n <= |reports|
  {
    if reports == [] then 0 else (if IsNearlySafe(reports[0]) then 1 else 0) + Part2(reports[1..])
  }

  /** Tolerating one bad level never counts fewer reports. */
  lemma {:induction false} Part2AtLeastPart1(reports: seq<Report>)
    ensures Part2(reports) >= Part1(reports)
  {
    if reports != [] {
      Part2AtLeastPart1(reports[1..]);
    }
  }

  /** The example of the tests: two of the six reports are safe. */
  lemma ExamplePart1()
    ensures Part1([[7, 6, 4, 2, 1], [1, 2, 7, 8, 9], [9, 7, 6, 2, 1],
                   [1, 3, 2, 4, 5], [8, 6, 4, 4, 1], [1, 3, 6, 7, 9]]) == 2
  {
    var reports := [[7, 6, 4, 2, 1], [1, 2, 7, 8, 9], [9, 7, 6, 2, 1],
                    [1, 3, 2, 4, 5], [8, 6, 4, 4, 1], [1, 3, 6, 7, 9]];
    ExampleFalling(reports[0]);
    ExampleUnsafe(reports[1], 1, 0);
    ExampleUnsafe(reports[2], 0, 2);
    ExampleUnsafe(reports[3], 1, 0);
    ExampleUnsafe(reports[4], 0, 2);
    ExampleRising(reports[5]);
    assert reports[5..] == [reports[5]];
    assert Part1(reports[5..]) == 1;
    assert Part1(reports[4..]) == 1;
    assert Part1(reports[3..]) == 1;
    assert Part1(reports[2..]) == 1;
    assert Part1(reports[1..]) == 1;
  }

  /** The first report of the example falls by one to three per step. */
  lemma ExampleFalling(r: Report)
    requires r == [7, 6, 4, 2, 1]
    ensures IsSafe(r)
  {
    SafeMeans(r);
  }

  /** The last report of the example rises by one to three per step. */
  lemma ExampleRising(r: Report)
    requires r == [1, 3, 6, 7, 9]
    ensures IsSafe(r)
  {
    assert HasStrictBoundedIncs(r);
  }

  /**
   * The unsafe reports of the example: at `up` the levels do not rise by one
   * to three, and at `down` they do not fall by one to three.
   */
  lemma ExampleUnsafe(r: Report, up: nat, down: nat)
    requires (r == [1, 2, 7, 8, 9] && up == 1 && down == 0) || (r == [9, 7, 6, 2, 1] && up == 0 && down == 2) ||
             (r == [1, 3, 2, 4, 5] && up == 1 && down == 0) || (r == [8, 6, 4, 4, 1] && up == 0 && down == 2)
    ensures !IsSafe(r)
  {
    SafeMeans(r);
    assert !(r[up] < r[up + 1] <= r[up] + 3);
    assert !(r[down + 1] < r[down] <= r[down + 1] + 3);
  }
}
