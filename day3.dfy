/**
 * Day 3 (rust/src/day3.rs): corrupted memory holding `mul(x,y)`, `do()` and
 * `don't()` instructions. The regular-expression scan that finds them is not
 * modelled: the operations take the matches it produces.
 */
module Day3 {
  import Text

  /** One recognised instruction. */
  datatype Instruction = Do | Dont | Mul(x: int, y: int)

  /** What a match must look like for `from_captures` not to fail: a toggle, or two numbers. */
  predicate Recognisable(whole: string, first: string, second: string) {
    whole == "do()" || whole == "don't()" || (Text.IsIntLiteral(first) && Text.IsIntLiteral(second))
  }

  /**
   * Instruction::from_captures, given the whole match and its two groups:
   * the literal toggles by their text, anything else a multiplication of the
   * two numbers.
   */
  function FromCaptures(whole: string, first: string, second: string): (i: Instruction)
    requires Recognisable(whole, first, second)
    ensures i.Do? <==> whole == "do()"
    ensures i.Dont? <==> whole == "don't()"
  {
    if whole == "do()" then Do
    else if whole == "don't()" then Dont
    else Mul(Text.ParseInt(first), Text.ParseInt(second))
  }

  /** The text an instruction is written as, with the groups a `mul` match captures. */
  function Captures(i: Instruction): (string, string, string)
  {
    match i
    case Do => ("do()", "", "")
    case Dont => ("don't()", "", "")
    case Mul(x, y) =>
      var first, second := Text.ShowInt(x), Text.ShowInt(y);
      ("mul(" + first + "," + second + ")", first, second)
  }

  /** Reading back the match of an instruction gives the instruction. */
  lemma FromCapturesInverse(i: Instruction)
    ensures Recognisable(Captures(i).0, Captures(i).1, Captures(i).2)
    ensures FromCaptures(Captures(i).0, Captures(i).1, Captures(i).2) == i
  {
    if i.Mul? {
      var (whole, first, second) := Captures(i);
      assert whole[0] == 'm';
      assert whole != "do()" && whole != "don't()";
      Text.ParseShowInt(i.x);
      Text.ParseShowInt(i.y);
    }
  }

  /** The machine state of part2: the running sum and whether `mul` is enabled. */
  class State {
    var total: int
    var enabled: bool

    /** State::init: nothing summed yet, multiplications enabled. */
    constructor Init()
      ensures total == 0 && enabled
    {
      total := 0;
      enabled := true;
    }
  }

  /** Whether multiplications are enabled after running `p`: the latest toggle decides, and none means enabled. */
  function EnabledAfter(p: seq<Instruction>): bool
  {
    if p == [] then true
    else match p[|p| - 1]
      case Do => true
      case Dont => false
      case Mul(_, _) => EnabledAfter(p[..|p| - 1])
  }

  /** The products of the multiplications in `p` that run while enabled. */
  function EnabledSum(p: seq<Instruction>): int
  {
    if p == [] then 0
    else
      var init := p[..|p| - 1];
      EnabledSum(init) + match p[|p| - 1]
        case Mul(x, y) => if EnabledAfter(init) then x * y else 0
        case _ => 0
  }

  /**
   * part2: runs every instruction on a `State`; a toggle sets `enabled` and
   * leaves the total alone, a multiplication adds its product only while
   * enabled.
   */
  method Part2(instructions: seq<Instruction>) returns (total: int)
    ensures total == EnabledSum(instructions)
  {
    var state := new State.Init();
    for i := 0 to |instructions|
      invariant state.total == EnabledSum(instructions[..i])
      invariant state.enabled == EnabledAfter(instructions[..i])
    {
      assert instructions[..i + 1][..i] == instructions[..i];
      match instructions[i]
      case Do => state.enabled := true;
      case Dont => state.enabled := false;
      case Mul(x, y) =>
        if state.enabled {
          state.total := state.total + x * y;
        }
    }
    assert instructions[..|instructions|] == instructions;
    total := state.total;
  }

  /**
   * Multiplications are enabled after `p` exactly when there is no `don't()`
   * in it, or a `do()` with no `don't()` after it.
   */
  lemma {:induction false} EnabledAfterMeans(p: seq<Instruction>)
    ensures EnabledAfter(p) <==>
      (forall k :: 0 <= k < |p| ==> p[k] != Dont) ||
      (exists k :: 0 <= k < |p| && p[k] == Do && forall j :: k < j < |p| ==> p[j] != Dont)
    decreases |p|
  {
    if p != [] {
      var n := |p| - 1;
      var init := p[..n];
      EnabledAfterMeans(init);
      if p[n] == Do {
        assert p[n] == Do && forall j :: n < j < |p| ==> p[j] != Dont;
      } else if p[n] == Dont {
        assert !(exists k :: 0 <= k < |p| && p[k] == Do && forall j :: k < j < |p| ==> p[j] != Dont) by {
          forall k | 0 <= k < |p| && p[k] == Do ensures exists j :: k < j < |p| && p[j] == Dont {
            assert k < n && p[n] == Dont;
          }
        }
      } else {
        if exists k :: 0 <= k < |init| && init[k] == Do && forall j :: k < j < |init| ==> init[j] != Dont {
          var k :| 0 <= k < |init| && init[k] == Do && forall j :: k < j < |init| ==> init[j] != Dont;
          assert p[k] == Do && forall j :: k < j < |p| ==> p[j] != Dont;
        }
        if exists k :: 0 <= k < |p| && p[k] == Do && forall j :: k < j < |p| ==> p[j] != Dont {
          var k :| 0 <= k < |p| && p[k] == Do && forall j :: k < j < |p| ==> p[j] != Dont;
          assert init[k] == Do && forall j :: k < j < |init| ==> init[j] != Dont;
        }
      }
    }
  }

  /** part1: the sum of the products of all multiplications, toggles ignored. */
  function Part1(p: seq<Instruction>): int
  {
    if p == [] then 0
    else
      Part1(p[..|p| - 1]) + match p[|p| - 1]
        case Mul(x, y) => x * y
        case _ => 0
  }

  /** Without toggles, part2 sums every product, as part1 does. */
  lemma {:induction false} NoTogglesIsPart1(p: seq<Instruction>)
    requires forall k :: 0 <= k < |p| ==> p[k].Mul?
    ensures EnabledSum(p) == Part1(p)
    decreases |p|
  {
    if p != [] {
      var init := p[..|p| - 1];
      NoTogglesIsPart1(init);
      EnabledAfterMeans(init);
    }
  }

  /** With non-negative operands, disabling multiplications can only lower the sum. */
  lemma {:induction false} EnabledSumAtMostPart1(p: seq<Instruction>)
    requires forall k :: 0 <= k < |p| ==> p[k].Mul? ==> p[k].x >= 0 && p[k].y >= 0
    ensures EnabledSum(p) <= Part1(p)
    decreases |p|
  {
    if p != [] {
      EnabledSumAtMostPart1(p[..|p| - 1]);
      var last := p[|p| - 1];
      if last.Mul? {
        assert last.x * last.y >= 0;
      }
    }
  }

  /** The example of the tests: the instructions found in its text fold to 48. */
  method ExamplePart2() returns (total: int)
    ensures total == 48
  {
    total := Part2([Mul(2, 4), Dont, Mul(5, 5), Mul(11, 8), Do, Mul(8, 5)]);
    ExampleEnabledSum();
  }

  lemma ExampleEnabledSum()
    ensures EnabledSum([Mul(2, 4), Dont, Mul(5, 5), Mul(11, 8), Do, Mul(8, 5)]) == 48
  {
    var p := [Mul(2, 4), Dont, Mul(5, 5), Mul(11, 8), Do, Mul(8, 5)];
    assert p[..1] == [Mul(2, 4)] && EnabledSum(p[..1]) == 8;
    assert p[..2] == p[..1] + [Dont] && EnabledSum(p[..2]) == 8 && !EnabledAfter(p[..2]);
    assert p[..3] == p[..2] + [Mul(5, 5)] && EnabledSum(p[..3]) == 8 && !EnabledAfter(p[..3]);
    assert p[..4] == p[..3] + [Mul(11, 8)] && EnabledSum(p[..4]) == 8;
    assert p[..5] == p[..4] + [Do] && EnabledSum(p[..5]) == 8 && EnabledAfter(p[..5]);
    assert p == p[..5] + [Mul(8, 5)];
  }

  /** The example of the tests: the four multiplications found by part1 sum to 161. */
  lemma ExamplePart1()
    ensures Part1([Mul(2, 4), Mul(5, 5), Mul(11, 8), Mul(8, 5)]) == 161
  {
    var p := [Mul(2, 4), Mul(5, 5), Mul(11, 8), Mul(8, 5)];
    assert p[..1] == [Mul(2, 4)] && Part1(p[..1]) == 8;
    assert p[..2] == p[..1] + [Mul(5, 5)] && Part1(p[..2]) == 33;
    assert p[..3] == p[..2] + [Mul(11, 8)] && Part1(p[..3]) == 121;
    assert p == p[..3] + [Mul(8, 5)];
  }
}
