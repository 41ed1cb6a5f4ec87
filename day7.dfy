/**
 * Day 7 (rust/src/day7.rs): calibration equations. An equation holds when
 * `+` and `*` can be placed between its operands, evaluated left to right,
 * so that they give the test value. The source stores the operands back to
 * front and searches backwards from the test value.
 */
module Day7 {
  import Text
  import Seqs

  /** `Equation { lhs, rhs }`; `rhs` holds the operands in reverse order. */
  datatype Equation = Equation(lhs: nat, rhs: seq<nat>)

  /** The words of the text after the colon, as `split(' ')` and the blank filter leave them. */
  function OperandWords(s: string): seq<string>
  {
    Text.DropEmpty(Text.Split(s, ' '))
  }

  /** A line `parse` accepts: digits, a colon, then space-separated digit strings. */
  predicate WellFormed(line: string) {
    var parts := Text.Split(line, ':');
    |parts| >= 2 && Text.IsDigits(parts[0]) &&
    forall w :: w in OperandWords(parts[1]) ==> Text.IsDigits(w)
  }

  function ParseWords(words: seq<string>): (r: seq<nat>)
    requires forall w :: w in words ==> Text.IsDigits(w)
    ensures |r| == |words|
    ensures forall k :: 0 <= k < |words| ==> r[k] == Text.ParseNat(words[k])
  {
    if words == [] then [] else [Text.ParseNat(words[0])] + ParseWords(words[1..])
  }

  /**
   * Equation::parse: the number before the first colon, and the numbers between
   * the first and second colon, reversed.
   */
  function Parse(line: string): Equation
    requires WellFormed(line)
  {
    var parts := Text.Split(line, ':');
    Equation(Text.ParseNat(parts[0]), Seqs.Reverse(ParseWords(OperandWords(parts[1]))))
  }

  function ShowWords(xs: seq<nat>): (words: seq<string>)
    ensures |words| == |xs|
    ensures forall k :: 0 <= k < |xs| ==> words[k] == Text.ShowNat(xs[k])
  {
    if xs == [] then [] else [Text.ShowNat(xs[0])] + ShowWords(xs[1..])
  }

  /** An equation as the puzzle input writes it: `190: 10 19`. */
  function Render(e: Equation): string
  {
    Text.ShowNat(e.lhs) + ":" + Text.Join([""] + ShowWords(Seqs.Reverse(e.rhs)), ' ')
  }

  /** Parsing the written form of an equation gives the equation back. */
  lemma ParseRender(e: Equation)
    ensures WellFormed(Render(e)) && Parse(Render(e)) == e
  {
    var words := ShowWords(Seqs.Reverse(e.rhs));
    var parts := Text.Split(Render(e), ':');
    RenderSplits(e);
    OperandWordsOfTail(words);
    assert OperandWords(parts[1]) == words;
    Text.ParseShowNat(e.lhs);
    assert ParseWords(words) == Seqs.Reverse(e.rhs) by {
      forall k | 0 <= k < |words| ensures Text.ParseNat(words[k]) == Seqs.Reverse(e.rhs)[k] {
        Text.ParseShowNat(Seqs.Reverse(e.rhs)[k]);
      }
    }
    Seqs.ReverseReverse(e.rhs);
  }

  /** The colon of a written equation is its only one. */
  lemma RenderSplits(e: Equation)
    ensures Text.Split(Render(e), ':') ==
      [Text.ShowNat(e.lhs), Text.Join([""] + ShowWords(Seqs.Reverse(e.rhs)), ' ')]
  {
    var head := Text.ShowNat(e.lhs);
    var words := ShowWords(Seqs.Reverse(e.rhs));
    var tail := Text.Join([""] + words, ' ');
    Text.IntLiteralOnly(head, ':');
    forall k | 0 <= k < |[""] + words| ensures ':' !in ([""] + words)[k] {
      if k > 0 {
        Text.IntLiteralOnly(words[k - 1], ':');
      }
    }
    NoSeparatorInJoin([""] + words, ' ', ':');
    assert Text.Join([head, tail], ':') == Render(e);
    Text.SplitJoin([head, tail], ':');
  }

  /** The blank filter drops exactly the empty word before the first operand. */
  lemma OperandWordsOfTail(words: seq<string>)
    requires forall k :: 0 <= k < |words| ==> Text.IsDigits(words[k])
    ensures OperandWords(Text.Join([""] + words, ' ')) == words
  {
    forall k | 0 <= k < |[""] + words| ensures ' ' !in ([""] + words)[k] {
      if k > 0 {
        Text.IntLiteralOnly(words[k - 1], ' ');
      }
    }
    Text.SplitJoin([""] + words, ' ');
    assert ([""] + words)[1..] == words;
  }

  /** A character that is neither in the pieces nor the separator is not in their join. */
  lemma {:induction false} NoSeparatorInJoin(pieces: seq<string>, sep: char, c: char)
    requires |pieces| > 0 && c != sep
    requires forall k :: 0 <= k < |pieces| ==> c !in pieces[k]
    ensures c !in Text.Join(pieces, sep)
    decreases |pieces|
  {
    if |pieces| > 1 {
      NoSeparatorInJoin(pieces[1..], sep, c);
    }
  }

  /** What `pred` needs of its operands: at least one, and no zero divisor. */
  predicate Searchable(rhs: seq<nat>) {
    |rhs| >= 1 && forall k :: 0 <= k < |rhs| - 1 ==> rhs[k] > 0
  }

  /**
   * The inner `pred` of Equation::possible: with one operand left the target
   * must equal it; otherwise the first operand was either added (undo it by
   * subtracting, only while the target stays positive) or multiplied (undo it
   * by dividing, only when it divides the target).
   */
  function Pred(lhs: nat, rhs: seq<nat>): bool
    requires Searchable(rhs)
    decreases |rhs|
  {
    if |rhs| == 1 then lhs == rhs[0]
    else
      (lhs > rhs[0] && Pred(lhs - rhs[0], rhs[1..])) ||
      (lhs % rhs[0] == 0 && Pred(lhs / rhs[0], rhs[1..]))
  }

  /** Equation::possible. */
  predicate Possible(e: Equation)
    requires Searchable(e.rhs)
  {
    Pred(e.lhs, e.rhs)
  }

  /** The two operators an equation may use. */
  datatype Op = Add | Mul

  function Apply(op: Op, x: nat, y: nat): nat {
    match op
    case Add => x + y
    case Mul => x * y
  }

  /** All operands are positive, as in the puzzle input. */
  predicate Positive(xs: seq<nat>) {
    forall k :: 0 <= k < |xs| ==> xs[k] > 0
  }

  /**
   * The value of operands `xs` (in written order) with `ops[i]` placed between
   * `xs[i]` and `xs[i + 1]`, evaluated strictly left to right.
   */
  function Eval(xs: seq<nat>, ops: seq<Op>): (v: nat)
    requires |xs| >= 1 && |ops| == |xs| - 1
    ensures Positive(xs) ==> v > 0
    decreases |xs|
  {
    if |xs| == 1 then xs[0]
    else Apply(ops[|ops| - 1], Eval(xs[..|xs| - 1], ops[..|ops| - 1]), xs[|xs| - 1])
  }

  /**
   * The same evaluation over the reversed storage of `Equation`: `rhs[0]` is the
   * last operand and `ops[0]` the last operator.
   */
  function EvalReversed(rhs: seq<nat>, ops: seq<Op>): (v: nat)
    requires |rhs| >= 1 && |ops| == |rhs| - 1
    decreases |rhs|
  {
    if |rhs| == 1 then rhs[0]
    else Apply(ops[0], EvalReversed(rhs[1..], ops[1..]), rhs[0])
  }

  /** Reading both operands and operators back to front gives the same value. */
  lemma {:induction false} EvalReversedIsEval(xs: seq<nat>, ops: seq<Op>)
    requires |xs| >= 1 && |ops| == |xs| - 1
    ensures EvalReversed(Seqs.Reverse(xs), Seqs.Reverse(ops)) == Eval(xs, ops)
    decreases |xs|
  {
    if |xs| > 1 {
      Seqs.ReverseInit(xs);
      Seqs.ReverseInit(ops);
      EvalReversedIsEval(xs[..|xs| - 1], ops[..|ops| - 1]);
    }
  }

  /** A successful backward search spells out the operators it undid. */
  lemma {:induction false} PredWitness(lhs: nat, rhs: seq<nat>) returns (ops: seq<Op>)
    requires Searchable(rhs) && Pred(lhs, rhs)
    ensures |ops| == |rhs| - 1 && EvalReversed(rhs, ops) == lhs
    decreases |rhs|
  {
    if |rhs| == 1 {
      ops := [];
    } else {
      var b, rest := rhs[0], rhs[1..];
      var tail;
      if lhs > b && Pred(lhs - b, rest) {
        tail := PredWitness(lhs - b, rest);
        ops := [Add] + tail;
      } else {
        tail := PredWitness(lhs / b, rest);
        ops := [Mul] + tail;
      }
      assert ops[1..] == tail;
    }
  }

  /** For positive operands, every choice of operators is found by the backward search. */
  lemma {:induction false} PredComplete(rhs: seq<nat>, ops: seq<Op>)
    requires |rhs| >= 1 && |ops| == |rhs| - 1 && Positive(rhs)
    ensures Pred(EvalReversed(rhs, ops), rhs)
    decreases |rhs|
  {
    if |rhs| > 1 {
      var b, rest := rhs[0], rhs[1..];
      var v := EvalReversed(rest, ops[1..]);
      EvalReversedPositive(rest, ops[1..]);
      PredComplete(rest, ops[1..]);
      var lhs := EvalReversed(rhs, ops);
      if ops[0] == Add {
        assert lhs > b && lhs - b == v;
      } else {
        MulDiv(v, b);
      }
    }
  }

  /** Dividing a multiple of `b` by `b` is exact. */
  lemma MulDiv(v: nat, b: nat)
    requires b > 0
    ensures (v * b) % b == 0 && (v * b) / b == v
  {
    var q, r := (v * b) / b, (v * b) % b;
    assert (v - q) * b == r;
    if v - q >= 1 {
      MulAtLeast(v - q, b);
    } else if v - q <= -1 {
      MulAtLeast(q - v, b);
    }
  }

  lemma MulAtLeast(d: int, b: int)
    requires d >= 1 && b > 0
    ensures d * b >= b
  {
    assert d * b == (d - 1) * b + b;
    assert (d - 1) * b >= 0;
  }

  /**
   * The backward search succeeds exactly when some choice of operators
   * makes the reversed operands evaluate to the target.
   */
  lemma PredMeans(lhs: nat, rhs: seq<nat>)
    requires |rhs| >= 1 && Positive(rhs)
    ensures Pred(lhs, rhs) <==> exists ops :: |ops| == |rhs| - 1 && EvalReversed(rhs, ops) == lhs
  {
    if Pred(lhs, rhs) {
      var ops := PredWitness(lhs, rhs);
    }
    if exists ops :: |ops| == |rhs| - 1 && EvalReversed(rhs, ops) == lhs {
      var ops :| |ops| == |rhs| - 1 && EvalReversed(rhs, ops) == lhs;
      PredComplete(rhs, ops);
    }
  }

  lemma {:induction false} EvalReversedPositive(rhs: seq<nat>, ops: seq<Op>)
    requires |rhs| >= 1 && |ops| == |rhs| - 1 && Positive(rhs)
    ensures EvalReversed(rhs, ops) > 0
    decreases |rhs|
  {
    if |rhs| > 1 {
      EvalReversedPositive(rhs[1..], ops[1..]);
    }
  }

  /**
   * For positive operands, an equation is possible exactly when some choice
   * of `+` and `*`, evaluated left to right over the operands as written,
   * gives its test value.
   */
  lemma PossibleMeans(e: Equation)
    requires |e.rhs| >= 1 && Positive(e.rhs)
    ensures Possible(e) <==>
      exists ops :: |ops| == |e.rhs| - 1 && Eval(Seqs.Reverse(e.rhs), ops) == e.lhs
  {
    var xs := Seqs.Reverse(e.rhs);
    Seqs.ReverseReverse(e.rhs);
    PredMeans(e.lhs, e.rhs);
    if Possible(e) {
      var ops :| |ops| == |e.rhs| - 1 && EvalReversed(e.rhs, ops) == e.lhs;
      EvalReversedIsEval(xs, Seqs.Reverse(ops));
      Seqs.ReverseReverse(ops);
    }
    if exists ops :: |ops| == |e.rhs| - 1 && Eval(xs, ops) == e.lhs {
      var ops :| |ops| == |e.rhs| - 1 && Eval(xs, ops) == e.lhs;
      EvalReversedIsEval(xs, ops);
    }
  }

  /** The test values of all equations. */
  function SumLhs(eqs: seq<Equation>): nat {
    if eqs == [] then 0 else eqs[0].lhs + SumLhs(eqs[1..])
  }

  /** part1: the sum of the test values of the possible equations. */
  function Part1(eqs: seq<Equation>): (total: nat)
    requires forall k :: 0 <= k < |eqs| ==> Searchable(eqs[k].rhs)
    ensures total <= SumLhs(eqs)
  {
    if eqs == [] then 0
    else (if Possible(eqs[0]) then eqs[0].lhs else 0) + Part1(eqs[1..])
  }

  /** The calibration total of a concatenation is the sum of the parts' totals. */
  lemma {:induction false} Part1Append(a: seq<Equation>, b: seq<Equation>)
    requires forall k :: 0 <= k < |a| ==> Searchable(a[k].rhs)
    requires forall k :: 0 <= k < |b| ==> Searchable(b[k].rhs)
    ensures forall k :: 0 <= k < |a + b| ==> Searchable((a + b)[k].rhs)
    ensures Part1(a + b) == Part1(a) + Part1(b)
    decreases |a|
  {
    if a != [] {
      assert (a + b)[1..] == a[1..] + b;
      Part1Append(a[1..], b);
    } else {
      assert a + b == b;
    }
  }
}
