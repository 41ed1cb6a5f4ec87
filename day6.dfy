/**
 * Day 6 (rust/src/day6.rs): a guard walks a grid, turning right before
 * every obstacle, until it leaves the grid. Part 1 counts the cells it
 * visits; part 2 counts the visited cells where one more obstacle makes the
 * guard walk in a loop forever. Coordinates (`usize`) are natural numbers.
 */
module Day6 {
  import opened Wrappers
  import Sets
  import Text

  datatype Dir = Up | Right | Down | Left

  /** Dir::turn: a quarter turn clockwise. */
  function Turn(d: Dir): Dir
  {
    match d
    case Up => Right
    case Right => Down
    case Down => Left
    case Left => Up
  }

  /** `k` quarter turns clockwise. */
  function Turns(d: Dir, k: nat): Dir
    decreases k
  {
    if k == 0 then d else Turns(Turn(d), k - 1)
  }

  /** Four turns give the starting direction back, and fewer never do. */
  lemma TurnsCycle(d: Dir)
    ensures Turns(d, 4) == d
    ensures Turns(d, 1) != d && Turns(d, 2) != d && Turns(d, 3) != d
    ensures {d, Turns(d, 1), Turns(d, 2), Turns(d, 3)} == {Up, Right, Down, Left}
  {
  }

  /** The direction as a (row, column) offset: rows grow downwards. */
  function Delta(d: Dir): (int, int)
  {
    match d
    case Up => (-1, 0)
    case Right => (0, 1)
    case Down => (1, 0)
    case Left => (0, -1)
  }

  /** A turn rotates the offset a quarter turn clockwise on screen. */
  lemma TurnRotates(d: Dir)
    ensures Delta(Turn(d)) == (Delta(d).1, -Delta(d).0)
  {
  }

  /** A cell of the grid: `Point(row, column)`. */
  datatype Point = Point(row: nat, col: nat)

  /**
   * Dir::step: the next cell in direction `d`. There is none above row 0 or
   * left of column 0, where the unsigned coordinate would go below zero.
   */
  function StepDir(d: Dir, p: Point): (q: Option<Point>)
    ensures q.None? <==> (d == Up && p.row == 0) || (d == Left && p.col == 0)
    ensures q.Some? ==> q.value.row == p.row + Delta(d).0 && q.value.col == p.col + Delta(d).1
  {
    match d
    case Up => if p.row > 0 then Some(Point(p.row - 1, p.col)) else None
    case Right => Some(Point(p.row, p.col + 1))
    case Down => Some(Point(p.row + 1, p.col))
    case Left => if p.col > 0 then Some(Point(p.row, p.col - 1)) else None
  }

  /** Stepping back, after two turns, returns to the cell stepped from. */
  lemma StepBack(d: Dir, p: Point)
    requires StepDir(d, p).Some?
    ensures StepDir(Turns(d, 2), StepDir(d, p).value) == Some(p)
  {
  }

  /** `char::from(&Dir)`: the marker the puzzle input draws the guard with. */
  function ToChar(d: Dir): char
  {
    match d
    case Up => '^'
    case Right => '>'
    case Left => '<'
    case Down => 'V'
  }

  /** `Dir::VALUES`, in the order parse tries them. */
  const Values: seq<Dir> := [Up, Right, Down, Left]

  /** The first direction of `ds` drawn as `c`, if any. */
  function ParseAmong(c: char, ds: seq<Dir>): (r: Option<Dir>)
    ensures r.Some? ==> r.value in ds && ToChar(r.value) == c
    ensures r.None? ==> forall d :: d in ds ==> ToChar(d) != c
  {
    if ds == [] then None
    else if ToChar(ds[0]) == c then Some(ds[0])
    else ParseAmong(c, ds[1..])
  }

  /** Dir::parse: the direction drawn as `c`. */
  function Parse(c: char): Option<Dir>
  {
    ParseAmong(c, Values)
  }

  /** parse inverts `char::from`, and knows no other character. */
  lemma ParseMeans(c: char, d: Dir)
    ensures Parse(ToChar(d)) == Some(d)
    ensures Parse(c) == Some(d) ==> ToChar(d) == c
    ensures Parse(c).None? <==> c !in {'^', '>', 'V', '<'}
  {
    assert d in Values;
    if Parse(c).None? {
      assert forall e :: e in Values ==> ToChar(e) != c;
      assert ToChar(Up) == '^' && ToChar(Right) == '>' && ToChar(Down) == 'V' && ToChar(Left) == '<';
    }
  }

  /** Where the guard stands and which way it faces. */
  datatype Guard = Guard(pos: Point, dir: Dir)

  /** The grid: its size and the cells holding an obstacle. */
  datatype Board = Board(height: nat, width: nat, obstacles: set<Point>)

  /** Board::contains: the cell lies on the grid. */
  predicate Contains(b: Board, p: Point) {
    p.row < b.height && p.col < b.width
  }

  /** The cell after `p` in direction `d` is an obstacle on the grid. */
  predicate BlockedDir(b: Board, p: Point, d: Dir) {
    match StepDir(d, p)
    case None => false
    case Some(q) => Contains(b, q) && q in b.obstacles
  }

  /**
   * Obstacles on all four sides: Board::step turns forever there, so the
   * model never steps from such a cell.
   */
  predicate BoxedAt(b: Board, p: Point) {
    BlockedDir(b, p, Up) && BlockedDir(b, p, Right) && BlockedDir(b, p, Down) && BlockedDir(b, p, Left)
  }

  /** How many quarter turns bring `d` to a direction that is not blocked. */
  ghost function TurnsToFree(b: Board, p: Point, d: Dir): (k: nat)
    requires !BoxedAt(b, p)
    ensures k < 4 && !BlockedDir(b, p, Turns(d, k))
    ensures forall i :: 0 <= i < k ==> BlockedDir(b, p, Turns(d, i))
  {
    if !BlockedDir(b, p, d) then 0
    else if !BlockedDir(b, p, Turn(d)) then 1
    else if !BlockedDir(b, p, Turn(Turn(d))) then 2
    else 3
  }

  /**
   * One step in direction `d` where no obstacle stands in the way: the
   * guard leaves the grid (`None`) or moves to the next cell.
   */
  function Move(b: Board, p: Point, d: Dir): Option<Guard>
  {
    match StepDir(d, p)
    case None => None
    case Some(q) => if Contains(b, q) then Some(Guard(q, d)) else None
  }

  /**
   * Board::step on a guard: off the grid it leaves, before an obstacle it
   * turns and tries again, and otherwise it moves one cell. The result is
   * the plain move in the first direction, clockwise from the guard's, that
   * is not blocked.
   */
  function Advance(b: Board, g: Guard): (r: Option<Guard>)
    requires !BoxedAt(b, g.pos)
    ensures r == Move(b, g.pos, Turns(g.dir, TurnsToFree(b, g.pos, g.dir)))
    decreases TurnsToFree(b, g.pos, g.dir)
  {
    match StepDir(g.dir, g.pos)
    case None => None
    case Some(p) =>
      if !Contains(b, p) then None
      else if p in b.obstacles then Advance(b, Guard(g.pos, Turn(g.dir)))
      else Some(Guard(p, g.dir))
  }

  /** The guard can be stepped: it is gone, or not boxed in. */
  predicate Unboxed(b: Board, g: Option<Guard>) {
    g.None? || !BoxedAt(b, g.value.pos)
  }

  /** Board::step on the optional guard: a guard that has left stays gone. */
  function Step(b: Board, g: Option<Guard>): (r: Option<Guard>)
    requires Unboxed(b, g)
    ensures g.None? ==> r.None?
  {
    match g
    case None => None
    case Some(guard) => Advance(b, guard)
  }

  /**
   * After a step the guard stands on a free cell of the grid next to its old
   * cell, facing the way it moved.
   */
  lemma StepLands(b: Board, g: Guard)
    requires !BoxedAt(b, g.pos) && Step(b, Some(g)).Some?
    ensures var h := Step(b, Some(g)).value;
      Contains(b, h.pos) && h.pos !in b.obstacles && StepDir(h.dir, g.pos) == Some(h.pos)
  {
  }

  /**
   * The iterator behind Board::walk: it holds the board and the guard still
   * to be yielded.
   */
  class IterState {
    const board: Board
    var guard: Option<Guard>

    constructor (board: Board, guard: Option<Guard>)
      ensures this.board == board && this.guard == guard
    {
      this.board := board;
      this.guard := guard;
    }

    /**
     * Board::step applied to the guard in place: taken when it leaves,
     * turned and stepped again before an obstacle, moved otherwise.
     */
    method StepGuard()
      requires Unboxed(board, guard)
      modifies this
      ensures guard == Step(board, old(guard))
      decreases if guard.Some? then TurnsToFree(board, guard.value.pos, guard.value.dir) else 0
    {
      if guard.Some? {
        var g := guard.value;
        var next := StepDir(g.dir, g.pos);
        if next.None? {
          guard := None;
        } else if !Contains(board, next.value) {
          guard := None;
        } else if next.value in board.obstacles {
          guard := Some(Guard(g.pos, Turn(g.dir)));
          StepGuard();
        } else {
          guard := Some(Guard(next.value, g.dir));
        }
      }
    }

    /** IterState::next: yields the current guard, then steps it. */
    method Next() returns (item: Option<Guard>)
      requires Unboxed(board, guard)
      modifies this
      ensures item == old(guard) && guard == Step(board, old(guard))
    {
      item := guard;
      StepGuard();
    }
  }

  /** The first `k` steps of the walk from `g` never meet a boxed-in guard. */
  ghost predicate WalkUnboxed(b: Board, g: Option<Guard>, k: nat)
    decreases k
  {
    k == 0 || (Unboxed(b, g) && WalkUnboxed(b, Step(b, g), k - 1))
  }

  /** Every step of the walk from `g` is defined: Board::step always returns. */
  ghost predicate Defined(b: Board, g: Option<Guard>) {
    forall k: nat :: WalkUnboxed(b, g, k)
  }

  /** A defined walk stays defined after a step. */
  lemma DefinedStep(b: Board, g: Option<Guard>)
    requires Defined(b, g)
    ensures Unboxed(b, g) && Defined(b, Step(b, g))
  {
    assert WalkUnboxed(b, g, 1);
    forall k: nat ensures WalkUnboxed(b, Step(b, g), k) {
      assert WalkUnboxed(b, g, k + 1);
    }
  }

  /** The state of the walk from `g` after `k` steps (`None` once the guard has left). */
  ghost function Iterate(b: Board, g: Option<Guard>, k: nat): Option<Guard>
    requires Defined(b, g)
    decreases k
  {
    if k == 0 then g
    else
      DefinedStep(b, g);
      Iterate(b, Step(b, g), k - 1)
  }

  /** A walk whose guard starts on a free cell that is not boxed in is defined. */
  lemma {:induction false} FreeStartDefined(b: Board, g: Option<Guard>, k: nat)
    requires g.Some? ==> g.value.pos !in b.obstacles && !BoxedAt(b, g.value.pos)
    ensures WalkUnboxed(b, g, k)
    decreases k
  {
    if k > 0 {
      var h := Step(b, g);
      if g.Some? && h.Some? {
        StepLands(b, g.value);
        StepBack(h.value.dir, g.value.pos);
        assert !BlockedDir(b, h.value.pos, Turns(h.value.dir, 2));
      }
      FreeStartDefined(b, h, k - 1);
    }
  }

  /** A guard that starts on a free cell, not boxed in, has a defined walk. */
  lemma FreeStart(b: Board, g: Option<Guard>)
    requires g.Some? ==> g.value.pos !in b.obstacles && !BoxedAt(b, g.value.pos)
    ensures Defined(b, g)
  {
    forall k: nat ensures WalkUnboxed(b, g, k) {
      FreeStartDefined(b, g, k);
    }
  }

  /** The walk of a defined guard, one step further, is still defined. */
  lemma {:induction false} DefinedIterate(b: Board, g: Option<Guard>, k: nat)
    requires Defined(b, g)
    ensures Defined(b, Iterate(b, g, k)) && Unboxed(b, Iterate(b, g, k))
    ensures Iterate(b, g, k + 1) == Step(b, Iterate(b, g, k))
    decreases k
  {
    DefinedStep(b, g);
    if k > 0 {
      DefinedIterate(b, Step(b, g), k - 1);
    }
  }

  /** Once the guard has left the grid, it never comes back. */
  lemma {:induction false} GoneStaysGone(b: Board, g: Option<Guard>, k: nat, m: nat)
    requires Defined(b, g) && k <= m && Iterate(b, g, k).None?
    ensures Iterate(b, g, m).None?
    decreases m - k
  {
    if k < m {
      DefinedIterate(b, g, k);
      GoneStaysGone(b, g, k + 1, m);
    }
  }

  /** `a + m` steps are `m` steps from the state after `a`. */
  lemma {:induction false} IterateAdd(b: Board, g: Option<Guard>, a: nat, m: nat)
    requires Defined(b, g)
    ensures Defined(b, Iterate(b, g, a))
    ensures Iterate(b, g, a + m) == Iterate(b, Iterate(b, g, a), m)
    decreases a
  {
    DefinedIterate(b, g, a);
    if a > 0 {
      DefinedStep(b, g);
      IterateAdd(b, Step(b, g), a - 1, m);
    }
  }

  /** Some state of the guard comes back: pred's `history` finds it. */
  ghost predicate Loops(b: Board, g: Option<Guard>)
    requires Defined(b, g)
  {
    exists i: nat, j: nat :: i < j && Iterate(b, g, i).Some? && Iterate(b, g, i) == Iterate(b, g, j)
  }

  /** The guard leaves the grid after some number of steps. */
  ghost predicate Leaves(b: Board, g: Option<Guard>) {
    Defined(b, g) && exists n: nat :: Iterate(b, g, n).None?
  }

  /** A guard that repeats a state walks that cycle forever and never leaves. */
  lemma LoopsNeverLeave(b: Board, g: Option<Guard>)
    requires Defined(b, g) && Loops(b, g)
    ensures !Leaves(b, g)
  {
    var i: nat, j: nat :| i < j && Iterate(b, g, i).Some? && Iterate(b, g, i) == Iterate(b, g, j);
    forall n: nat ensures Iterate(b, g, n).Some? {
      StaysInCycle(b, g, i, j, n);
    }
  }

  /** Every state of a walk that repeats its `i`th state at `j` is a guard. */
  lemma {:induction false} StaysInCycle(b: Board, g: Option<Guard>, i: nat, j: nat, n: nat)
    requires Defined(b, g) && i < j && Iterate(b, g, i).Some? && Iterate(b, g, i) == Iterate(b, g, j)
    ensures Iterate(b, g, n).Some?
    decreases n
  {
    if n < j {
      if Iterate(b, g, n).None? {
        GoneStaysGone(b, g, n, j);
      }
    } else {
      var m := n - j;
      IterateAdd(b, g, i, m);
      IterateAdd(b, g, j, m);
      StaysInCycle(b, g, i, j, i + m);
    }
  }

  /** The cells the guard stands on during the first `n` states of the walk. */
  ghost function Positions(b: Board, g: Option<Guard>, n: nat): set<Point>
    requires Defined(b, g)
  {
    if n == 0 then {}
    else
      Positions(b, g, n - 1) + (if Iterate(b, g, n - 1).Some? then {Iterate(b, g, n - 1).value.pos} else {})
  }

  /** After the guard has left, no state adds a cell. */
  lemma {:induction false} PositionsSettle(b: Board, g: Option<Guard>, k: nat, m: nat)
    requires Defined(b, g) && k <= m && Iterate(b, g, k).None?
    ensures Positions(b, g, m) == Positions(b, g, k)
    decreases m - k
  {
    if k < m {
      PositionsSettle(b, g, k, m - 1);
      GoneStaysGone(b, g, k, m - 1);
    }
  }

  /** The cells part1 collects: every cell the guard stands on before it leaves. */
  ghost function Visited(b: Board, g: Option<Guard>): set<Point>
    requires Leaves(b, g)
  {
    var n: nat :| Iterate(b, g, n).None?;
    Positions(b, g, n)
  }

  /** Any time after the guard has left gives the same visited cells. */
  lemma VisitedAt(b: Board, g: Option<Guard>, n: nat)
    requires Defined(b, g) && Iterate(b, g, n).None?
    ensures Leaves(b, g) && Visited(b, g) == Positions(b, g, n)
  {
    var m: nat :| Iterate(b, g, m).None? && Visited(b, g) == Positions(b, g, m);
    if m <= n {
      PositionsSettle(b, g, m, n);
    } else {
      PositionsSettle(b, g, n, m);
    }
  }

  /**
   * The loop part1 and part2 share: walks the guard and collects every cell
   * it stands on. The walk must end, or the loop would not.
   */
  method VisitedCells(b: Board, start: Option<Guard>) returns (visited: set<Point>)
    requires Leaves(b, start)
    ensures visited == Visited(b, start)
  {
    var it := new IterState(b, start);
    visited := {};
    ghost var n: nat :| Iterate(b, start, n).None?;
    ghost var k: nat := 0;
    while true
      invariant it.board == b && it.guard == Iterate(b, start, k)
      invariant k <= n
      invariant visited == Positions(b, start, k)
      decreases n - k
    {
      DefinedIterate(b, start, k);
      var item := it.Next();
      if item.None? {
        VisitedAt(b, start, k);
        return;
      }
      visited := visited + {item.value.pos};
      k := k + 1;
    }
  }

  /** part1: the number of distinct cells the guard stands on before leaving. */
  method Part1(b: Board, start: Option<Guard>) returns (count: nat)
    requires Leaves(b, start)
    ensures count == |Visited(b, start)|
  {
    var visited := VisitedCells(b, start);
    count := |visited|;
  }

  /** The board with one more obstacle, as pred inserts it into its clone. */
  function WithObstacle(b: Board, p: Point): (c: Board)
    ensures c.height == b.height && c.width == b.width && c.obstacles == b.obstacles + {p}
  {
    b.(obstacles := b.obstacles + {p})
  }

  /** The states a guard can be in after a step: on the grid, facing any way. */
  ghost function States(b: Board): set<Guard>
  {
    set r: nat, c: nat, d: Dir | r < b.height && c < b.width && d in {Up, Right, Down, Left} :: Guard(Point(r, c), d)
  }

  /** The states the walk from `g` can be in: its start, then states on the grid. */
  ghost function Universe(b: Board, g: Option<Guard>): set<Guard> {
    States(b) + (if g.Some? then {g.value} else {})
  }

  /** Every state of the walk but the first lies on the grid. */
  lemma OnGrid(b: Board, g: Option<Guard>, k: nat)
    requires Defined(b, g) && Iterate(b, g, k + 1).Some?
    ensures Iterate(b, g, k + 1).value in States(b)
  {
    DefinedIterate(b, g, k);
    var h := Iterate(b, g, k + 1).value;
    StepLands(b, Iterate(b, g, k).value);
    assert h == Guard(Point(h.pos.row, h.pos.col), h.dir);
  }

  /** A walk that leaves without repeating a state does not loop. */
  lemma LeavesWithoutRepeat(b: Board, g: Option<Guard>, k: nat)
    requires Defined(b, g) && Iterate(b, g, k).None? && |Seen(b, g, k)| == k
    ensures !Loops(b, g)
  {
    SeenAll(b, g, k);
    forall i: nat, j: nat | i < j && Iterate(b, g, i).Some? ensures Iterate(b, g, i) != Iterate(b, g, j) {
      if j >= k {
        GoneStaysGone(b, g, k, j);
      }
    }
  }

  /**
   * pred: puts an obstacle at `point` and walks the guard, keeping every
   * state seen in `history`; a state seen twice means a loop, the guard
   * leaving means none. There are finitely many states, so one of the two
   * happens.
   */
  method Pred(board: Board, point: Point, start: Option<Guard>) returns (loops: bool)
    requires Defined(WithObstacle(board, point), start)
    ensures loops <==> Loops(WithObstacle(board, point), start)
    ensures !loops <==> Leaves(WithObstacle(board, point), start)
  {
    var b := WithObstacle(board, point);
    loops := FindRepeat(b, start);
    if loops {
      LoopsNeverLeave(b, start);
    }
  }

  /**
   * The `for guard in board.walk(guard)` loop of pred: walks the guard,
   * keeping every state seen in `history`, until a state comes back or the
   * guard leaves.
   */
  method FindRepeat(b: Board, start: Option<Guard>) returns (loops: bool)
    requires Defined(b, start)
    ensures loops <==> Loops(b, start)
    ensures !loops ==> Leaves(b, start)
  {
    var it := new IterState(b, start);
    var history: set<Guard> := {};
    ghost var universe := Universe(b, start);
    ghost var k: nat := 0;
    while true
      invariant it.board == b && it.guard == Iterate(b, start, k)
      invariant history == Seen(b, start, k) && |history| == k && history <= universe
      decreases |universe - history|
    {
      DefinedIterate(b, start, k);
      var item := it.Next();
      if item.None? {
        LeavesWithoutRepeat(b, start, k);
        return false;
      }
      var g := item.value;
      if g in history {
        Repeats(b, start, k);
        return true;
      }
      Record(b, start, k, universe);
      history := history + {g};
      k := k + 1;
    }
  }

  /** The guard states among the first `k` states of the walk. */
  ghost function Seen(b: Board, g: Option<Guard>, k: nat): set<Guard>
    requires Defined(b, g)
  {
    if k == 0 then {}
    else
      Seen(b, g, k - 1) + (if Iterate(b, g, k - 1).Some? then {Iterate(b, g, k - 1).value} else {})
  }

  /**
   * `k` distinct guard states among the first `k` states: all of them are
   * guards and no two are alike.
   */
  lemma {:induction false} SeenAll(b: Board, g: Option<Guard>, k: nat)
    requires Defined(b, g) && |Seen(b, g, k)| == k
    ensures forall i: nat :: i < k ==> Iterate(b, g, i).Some?
    ensures forall i: nat, j: nat :: i < j < k ==> Iterate(b, g, i) != Iterate(b, g, j)
    decreases k
  {
    if k > 0 {
      SeenGrows(b, g, k);
      SeenAll(b, g, k - 1);
      forall i: nat, j: nat | i < j < k ensures Iterate(b, g, i) != Iterate(b, g, j) {
        if j == k - 1 {
          SeenHas(b, g, i, k - 1);
        }
      }
    }
  }

  /** With `k` states seen in `k` steps, the last step brought a new guard. */
  lemma SeenGrows(b: Board, g: Option<Guard>, k: nat)
    requires Defined(b, g) && 0 < k && |Seen(b, g, k)| == k
    ensures Iterate(b, g, k - 1).Some? && Iterate(b, g, k - 1).value !in Seen(b, g, k - 1)
    ensures |Seen(b, g, k - 1)| == k - 1
  {
    SeenSize(b, g, k - 1);
  }

  /** At most `k` states are seen in `k` steps. */
  lemma {:induction false} SeenSize(b: Board, g: Option<Guard>, k: nat)
    requires Defined(b, g)
    ensures |Seen(b, g, k)| <= k
    decreases k
  {
    if k > 0 {
      SeenSize(b, g, k - 1);
    }
  }

  /** The `i`th state, a guard, is among the first `k > i` states seen. */
  lemma {:induction false} SeenHas(b: Board, g: Option<Guard>, i: nat, k: nat)
    requires Defined(b, g) && i < k && Iterate(b, g, i).Some?
    ensures Iterate(b, g, i).value in Seen(b, g, k)
    decreases k
  {
    if i < k - 1 {
      SeenHas(b, g, i, k - 1);
    }
  }

  /** A seen state is one of the first `k`. */
  lemma {:induction false} SeenFrom(b: Board, g: Option<Guard>, k: nat, x: Guard)
    requires Defined(b, g) && x in Seen(b, g, k)
    ensures exists i: nat :: i < k && Iterate(b, g, i) == Some(x)
    decreases k
  {
    if Iterate(b, g, k - 1) != Some(x) {
      SeenFrom(b, g, k - 1, x);
    }
  }

  /**
   * A new state joins the history; it is one of the finitely many states
   * the guard can be in, so fewer remain unseen.
   */
  lemma Record(b: Board, g: Option<Guard>, k: nat, universe: set<Guard>)
    requires Defined(b, g) && universe == Universe(b, g)
    requires Seen(b, g, k) <= universe
    requires Iterate(b, g, k).Some? && Iterate(b, g, k).value !in Seen(b, g, k)
    ensures Seen(b, g, k + 1) == Seen(b, g, k) + {Iterate(b, g, k).value}
    ensures Seen(b, g, k + 1) <= universe
    ensures |universe - Seen(b, g, k + 1)| < |universe - Seen(b, g, k)|
  {
    var x := Iterate(b, g, k).value;
    if k > 0 {
      OnGrid(b, g, k - 1);
    }
    assert universe - (Seen(b, g, k) + {x}) == (universe - Seen(b, g, k)) - {x};
  }

  /** A state already seen is a repeat: the walk loops. */
  lemma Repeats(b: Board, g: Option<Guard>, k: nat)
    requires Defined(b, g) && Iterate(b, g, k).Some? && Iterate(b, g, k).value in Seen(b, g, k)
    ensures Loops(b, g)
  {
    SeenFrom(b, g, k, Iterate(b, g, k).value);
    var i: nat :| i < k && Iterate(b, g, i) == Iterate(b, g, k);
  }

  /** The candidate cells where an obstacle makes the guard loop. */
  ghost function LoopingObstructions(b: Board, start: Option<Guard>, candidates: set<Point>): set<Point>
    requires forall p :: p in candidates ==> Defined(WithObstacle(b, p), start)
  {
    set p | p in candidates && Loops(WithObstacle(b, p), start)
  }

  /**
   * The filter-and-count of part2 over a set of candidate cells: each trial
   * runs pred on its own copy of the board, so the order of trials does not
   * matter.
   */
  method CountLooping(b: Board, start: Option<Guard>, candidates: set<Point>) returns (count: nat)
    requires forall p :: p in candidates ==> Defined(WithObstacle(b, p), start)
    ensures count == |LoopingObstructions(b, start, candidates)|
    ensures count <= |candidates|
  {
    var todo := candidates;
    ghost var done: set<Point> := {};
    count := 0;
    while todo != {}
      invariant todo + done == candidates && todo !! done
      invariant count == |LoopingObstructions(b, start, done)|
      decreases todo
    {
      // a witness that `todo` has a member, for the `:|` below
      ghost var member := Sets.Pick(todo);
      var p :| p in todo;
      var loops := Pred(b, p, start);
      ObstructionsAdd(b, start, done, p);
      if loops {
        count := count + 1;
      }
      todo := todo - {p};
      done := done + {p};
    }
    assert done == candidates;
    Sets.SubsetSize(LoopingObstructions(b, start, candidates), candidates);
  }

  /**
   * part2 as written: over the cells the guard visits, its start included,
   * counts those where one more obstacle makes the guard loop.
   */
  method Part2(b: Board, start: Option<Guard>) returns (count: nat)
    requires Leaves(b, start)
    requires forall p :: p in Visited(b, start) ==> Defined(WithObstacle(b, p), start)
    ensures count == |LoopingObstructions(b, start, Visited(b, start))|
    ensures count <= |Visited(b, start)|
  {
    var visited := VisitedCells(b, start);
    count := CountLooping(b, start, visited);
  }

  /** The 3×3 board of the finding: obstacles above, left and right of its centre. */
  function TrapBoard(): Board {
    Board(3, 3, {Point(0, 1), Point(1, 0), Point(1, 2)})
  }

  /**
   * Trying the start cell can make part2 diverge. On TrapBoard the guard,
   * facing up below the centre, walks off the grid; but with an obstacle on
   * its start cell it is boxed in at the centre after one step, where
   * Board::step turns without end. The start cell is open on two sides, so
   * Part2WithoutStart applies to this board.
   */
  lemma StartTrialBoxesIn()
    ensures var start := Some(Guard(Point(2, 1), Up));
      Leaves(TrapBoard(), start) && Point(2, 1) in Visited(TrapBoard(), start) &&
      !Defined(WithObstacle(TrapBoard(), Point(2, 1)), start) && OpenStart(TrapBoard(), start)
  {
    var b := TrapBoard();
    var g := Some(Guard(Point(2, 1), Up));
    var g1 := Some(Guard(Point(1, 1), Up));
    var g2 := Some(Guard(Point(2, 1), Down));
    assert !BlockedDir(b, Point(2, 1), Up) && !BlockedDir(b, Point(2, 1), Down);
    FreeStart(b, g);
    assert Step(b, g) == g1;
    assert TurnsToFree(b, Point(1, 1), Up) == 2;
    assert Step(b, g1) == g2;
    assert Step(b, g2) == None;
    DefinedIterate(b, g, 0);
    DefinedIterate(b, g, 1);
    DefinedIterate(b, g, 2);
    assert Iterate(b, g, 3) == None;
    VisitedAt(b, g, 3);
    assert Positions(b, g, 1) == {Point(2, 1)};
    assert Point(2, 1) in Positions(b, g, 3);
    var t := WithObstacle(b, Point(2, 1));
    assert Step(t, g) == g1;
    assert BoxedAt(t, Point(1, 1));
    assert !WalkUnboxed(t, g, 2);
  }

  /**
   * The start cell is free and open on at least two sides, so no single
   * added obstacle can box the guard in where it starts.
   */
  ghost predicate OpenStart(b: Board, g: Option<Guard>) {
    g.None? ||
    (g.value.pos !in b.obstacles &&
     exists d1: Dir, d2: Dir :: d1 != d2 && !BlockedDir(b, g.value.pos, d1) && !BlockedDir(b, g.value.pos, d2))
  }

  /** One added obstacle closes at most one of the open sides of a cell. */
  lemma AddedObstacleLeavesOpen(b: Board, pos: Point, p: Point, d1: Dir, d2: Dir)
    requires d1 != d2 && !BlockedDir(b, pos, d1) && !BlockedDir(b, pos, d2)
    ensures !BoxedAt(WithObstacle(b, p), pos)
  {
    var t := WithObstacle(b, p);
    var open := if StepDir(d1, pos) == Some(p) then d2 else d1;
    assert !BlockedDir(t, pos, open);
    assert open == Up || open == Right || open == Down || open == Left;
  }

  /** The candidates part2 evidently means: the visited cells but the start. */
  ghost function Candidates(b: Board, start: Option<Guard>): set<Point>
    requires Leaves(b, start)
  {
    if start.None? then Visited(b, start) else Visited(b, start) - {start.value.pos}
  }

  /** With an open start, every trial of Part2WithoutStart has a defined walk. */
  lemma CandidatesDefined(b: Board, start: Option<Guard>)
    requires Leaves(b, start) && OpenStart(b, start)
    ensures forall p :: p in Candidates(b, start) ==> Defined(WithObstacle(b, p), start)
  {
    if start.Some? {
      var pos := start.value.pos;
      var d1: Dir, d2: Dir :| d1 != d2 && !BlockedDir(b, pos, d1) && !BlockedDir(b, pos, d2);
      forall p | p in Candidates(b, start) ensures Defined(WithObstacle(b, p), start) {
        AddedObstacleLeavesOpen(b, pos, p, d1, d2);
        FreeStart(WithObstacle(b, p), start);
      }
    } else {
      VisitedAt(b, start, 0);
    }
  }

  /**
   * part2 with the start cell left out of the candidates, as the puzzle
   * forbids an obstruction there: every trial now returns.
   */
  method Part2WithoutStart(b: Board, start: Option<Guard>) returns (count: nat)
    requires Leaves(b, start) && OpenStart(b, start)
    ensures (CandidatesDefined(b, start); count == |LoopingObstructions(b, start, Candidates(b, start))|)
    ensures count <= |Candidates(b, start)|
  {
    var visited := VisitedCells(b, start);
    var candidates := if start.None? then visited else visited - {start.value.pos};
    CandidatesDefined(b, start);
    count := CountLooping(b, start, candidates);
  }

  /** One more candidate adds itself exactly when it makes the guard loop. */
  lemma ObstructionsAdd(b: Board, start: Option<Guard>, done: set<Point>, p: Point)
    requires forall q :: q in done + {p} ==> Defined(WithObstacle(b, q), start)
    requires p !in done
    ensures LoopingObstructions(b, start, done + {p}) ==
      LoopingObstructions(b, start, done) + (if Loops(WithObstacle(b, p), start) then {p} else {})
    ensures |LoopingObstructions(b, start, done + {p})| ==
      |LoopingObstructions(b, start, done)| + (if Loops(WithObstacle(b, p), start) then 1 else 0)
  {
    assert p !in LoopingObstructions(b, start, done);
    assert LoopingObstructions(b, start, done + {p}) ==
      LoopingObstructions(b, start, done) + (if Loops(WithObstacle(b, p), start) then {p} else {});
  }

  /** Cell `(i, j)` of the text draws the guard. */
  predicate IsMarker(lines: seq<string>, i: int, j: int) {
    0 <= i < |lines| && 0 <= j < |lines[i]| && Parse(lines[i][j]).Some?
  }

  /** Cell `p` of the text draws an obstacle. */
  predicate IsObstacle(lines: seq<string>, p: Point) {
    p.row < |lines| && p.col < |lines[p.row]| && lines[p.row][p.col] == '#'
  }

  /** Cell `(i, j)` comes before cell `(k, l)` in reading order. */
  predicate Before(i: int, j: int, k: int, l: int) {
    i < k || (i == k && j < l)
  }

  /** `obstacles` holds the obstacles of the text read before cell `(k, l)`. */
  ghost predicate ObstaclesBefore(lines: seq<string>, obstacles: set<Point>, k: int, l: int) {
    forall p :: p in obstacles <==> IsObstacle(lines, p) && Before(p.row, p.col, k, l)
  }

  /** `guard` is the last guard marker read before cell `(k, l)`, if any. */
  ghost predicate LastMarkerBefore(lines: seq<string>, guard: Option<Guard>, k: int, l: int) {
    (guard.None? <==> forall i, j :: IsMarker(lines, i, j) && Before(i, j, k, l) ==> false) &&
    (guard.Some? ==>
      var p := guard.value.pos;
      IsMarker(lines, p.row, p.col) && Before(p.row, p.col, k, l) &&
      Parse(lines[p.row][p.col]) == Some(guard.value.dir) &&
      forall i, j :: IsMarker(lines, i, j) && Before(i, j, k, l) ==> !Before(p.row, p.col, i, j))
  }

  /**
   * Instance::read, over the lines of the input: `#` is an obstacle, a
   * direction marker places the guard (the last one read wins), anything
   * else is floor. The height counts the lines and the width is the length
   * of the last line in UTF-8 bytes (`str::len`), while the columns count
   * characters: the two agree on ASCII lines only.
   */
  method Read(lines: seq<string>) returns (b: Board, guard: Option<Guard>)
    ensures b.height == |lines|
    ensures b.width == if lines == [] then 0 else Text.Utf8Len(lines[|lines| - 1])
    ensures forall p :: p in b.obstacles <==> IsObstacle(lines, p)
    ensures guard.None? <==> forall i, j :: !IsMarker(lines, i, j)
    ensures guard.Some? ==> var p := guard.value.pos;
      IsMarker(lines, p.row, p.col) && Parse(lines[p.row][p.col]) == Some(guard.value.dir) &&
      forall i, j :: IsMarker(lines, i, j) ==> !Before(p.row, p.col, i, j)
    ensures guard.Some? ==> guard.value.pos !in b.obstacles
  {
    var obstacles: set<Point> := {};
    var height := 0;
    var width := 0;
    guard := None;
    for i := 0 to |lines|
      invariant height == i
      invariant width == if i == 0 then 0 else Text.Utf8Len(lines[i - 1])
      invariant ObstaclesBefore(lines, obstacles, i, 0)
      invariant LastMarkerBefore(lines, guard, i, 0)
    {
      var line := lines[i];
      for j := 0 to |line|
        invariant ObstaclesBefore(lines, obstacles, i, j)
        invariant LastMarkerBefore(lines, guard, i, j)
      {
        var c := line[j];
        if c == '.' {
          FloorCell(lines, obstacles, guard, i, j);
          continue;
        } else if c == '#' {
          ObstacleCell(lines, obstacles, guard, i, j);
          obstacles := obstacles + {Point(i, j)};
        } else {
          var dir := Parse(c);
          if dir.Some? {
            MarkerCell(lines, obstacles, guard, i, j, dir.value);
            guard := Some(Guard(Point(i, j), dir.value));
          } else {
            FloorCell(lines, obstacles, guard, i, j);
          }
        }
      }
      NextLine(lines, obstacles, guard, i);
      height := height + 1;
      width := Text.Utf8Len(line);
    }
    b := Board(height, width, obstacles);
  }

  /** Having read a whole line is having read up to the start of the next. */
  lemma NextLine(lines: seq<string>, obstacles: set<Point>, guard: Option<Guard>, i: int)
    requires 0 <= i < |lines|
    requires ObstaclesBefore(lines, obstacles, i, |lines[i]|)
    requires LastMarkerBefore(lines, guard, i, |lines[i]|)
    ensures ObstaclesBefore(lines, obstacles, i + 1, 0)
    ensures LastMarkerBefore(lines, guard, i + 1, 0)
  {
    assert forall k, l :: IsMarker(lines, k, l) ==> (Before(k, l, i, |lines[i]|) <==> Before(k, l, i + 1, 0));
  }

  /** A cell that is neither an obstacle nor a marker changes nothing read so far. */
  lemma FloorCell(lines: seq<string>, obstacles: set<Point>, guard: Option<Guard>, i: nat, j: nat)
    requires i < |lines| && j < |lines[i]| && lines[i][j] != '#' && Parse(lines[i][j]).None?
    requires ObstaclesBefore(lines, obstacles, i, j) && LastMarkerBefore(lines, guard, i, j)
    ensures ObstaclesBefore(lines, obstacles, i, j + 1) && LastMarkerBefore(lines, guard, i, j + 1)
  {
    assert forall k, l :: IsMarker(lines, k, l) ==> (Before(k, l, i, j + 1) <==> Before(k, l, i, j));
    assert forall p: Point :: IsObstacle(lines, p) ==> (Before(p.row, p.col, i, j + 1) <==> Before(p.row, p.col, i, j));
  }

  /** A `#` cell joins the obstacles and leaves the last marker read unchanged. */
  lemma ObstacleCell(lines: seq<string>, obstacles: set<Point>, guard: Option<Guard>, i: nat, j: nat)
    requires i < |lines| && j < |lines[i]| && lines[i][j] == '#'
    requires ObstaclesBefore(lines, obstacles, i, j) && LastMarkerBefore(lines, guard, i, j)
    ensures ObstaclesBefore(lines, obstacles + {Point(i, j)}, i, j + 1)
    ensures LastMarkerBefore(lines, guard, i, j + 1)
  {
    assert Parse('#').None?;
    assert forall k, l :: IsMarker(lines, k, l) ==> (Before(k, l, i, j + 1) <==> Before(k, l, i, j));
  }

  /** A marker cell becomes the last marker read and adds no obstacle. */
  lemma MarkerCell(lines: seq<string>, obstacles: set<Point>, guard: Option<Guard>, i: nat, j: nat, d: Dir)
    requires i < |lines| && j < |lines[i]| && Parse(lines[i][j]) == Some(d)
    requires ObstaclesBefore(lines, obstacles, i, j) && LastMarkerBefore(lines, guard, i, j)
    ensures ObstaclesBefore(lines, obstacles, i, j + 1)
    ensures LastMarkerBefore(lines, Some(Guard(Point(i, j), d)), i, j + 1)
  {
    assert Parse('#').None?;
    assert forall p: Point :: IsObstacle(lines, p) ==> (Before(p.row, p.col, i, j + 1) <==> Before(p.row, p.col, i, j));
    assert IsMarker(lines, i, j) && Before(i, j, i, j + 1);
    assert forall k, l :: IsMarker(lines, k, l) && Before(k, l, i, j + 1) ==> !Before(i, j, k, l);
  }
}
