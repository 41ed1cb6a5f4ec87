/**
 * Day 4 (rust/src/day4.rs): a word search. A word is found at a cell in a
 * direction when its letters follow one another from that cell along the
 * direction, inside the grid.
 */
module Day4 {

  /** One byte of the grid (`u8`). */
  type Byte = b: int | 0 <= b < 256

  /** The grid, row by row (`Vec<Vec<u8>>`). */
  type Board = seq<seq<Byte>>

  /**
   * has_word bounds its steps by the width of row 0 and then reads the row
   * it stepped to, so no row may be narrower than row 0.
   */
  predicate RowsCoverFirst(board: Board) {
    forall r :: 0 <= r < |board| ==> |board[r]| >= |board[0]|
  }

  /** `(x, y)` lies inside the rows of the board and the width of its first row. */
  predicate InBounds(board: Board, x: int, y: int) {
    0 <= x < |board| && 0 <= y < |board[0]|
  }

  /** The coordinate reached from `start` after `k` steps of `d`. */
  function Offset(start: int, k: nat, d: int): (c: int)
    ensures c == start + k * d
  {
    if k == 0 then start else Offset(start, k - 1, d) + d
  }

  /** Letter `k` of the word lies `k` steps from `pos` in direction `dir`, inside the board. */
  predicate LetterAt(board: Board, pos: (nat, nat), dir: (int, int), word: seq<Byte>, k: nat)
    requires RowsCoverFirst(board) && k < |word|
  {
    var x, y := Offset(pos.0, k, dir.0), Offset(pos.1, k, dir.1);
    InBounds(board, x, y) && board[x][y] == word[k]
  }

  /**
   * The word lies at `pos` in direction `dir`. Its first letter is not
   * compared here: the caller has already checked it.
   */
  predicate WordAt(board: Board, pos: (nat, nat), dir: (int, int), word: seq<Byte>)
    requires RowsCoverFirst(board)
  {
    forall k :: 1 <= k < |word| ==> LetterAt(board, pos, dir, word, k)
  }

  /**
   * has_word: steps along `dir` from `pos` one letter at a time, giving up at
   * the first step that leaves the board or meets a different letter.
   */
  method HasWord(board: Board, pos: (nat, nat), dir: (int, int), word: seq<Byte>) returns (found: bool)
    requires RowsCoverFirst(board)
    ensures found <==> WordAt(board, pos, dir, word)
  {
    var x: int := pos.0;
    var y: int := pos.1;
    var k := 1;
    while k < |word|
      invariant 1 <= k && (|word| > 0 ==> k <= |word|)
      invariant x == Offset(pos.0, k - 1, dir.0) && y == Offset(pos.1, k - 1, dir.1)
      invariant forall j :: 1 <= j < k && j < |word| ==> LetterAt(board, pos, dir, word, j)
    {
      x := x + dir.0;
      y := y + dir.1;
      if x < 0 || y < 0 || x >= |board| || y >= |board[0]| {
        assert !LetterAt(board, pos, dir, word, k);
        return false;
      } else if word[k] != board[x][y] {
        assert !LetterAt(board, pos, dir, word, k);
        return false;
      }
      k := k + 1;
    }
    return true;
  }

  /** The pairs of `xs` × `ys`, in row-major order, as `iproduct!` yields them. */
  function Product(xs: seq<int>, ys: seq<int>): (ps: seq<(int, int)>)
  {
    if xs == [] then [] else Row(xs[0], ys) + Product(xs[1..], ys)
  }

  function Row(x: int, ys: seq<int>): (ps: seq<(int, int)>)
  {
    if ys == [] then [] else [(x, ys[0])] + Row(x, ys[1..])
  }

  /** The pairs other than `(0, 0)`. */
  function NonZero(ps: seq<(int, int)>): (qs: seq<(int, int)>)
  {
    if ps == [] then []
    else if ps[0] == (0, 0) then NonZero(ps[1..])
    else [ps[0]] + NonZero(ps[1..])
  }

  /** directions: the eight neighbouring offsets, `(0, 0)` filtered out. */
  function Directions(): seq<(int, int)>
  {
    NonZero(Product([-1, 0, 1], [-1, 0, 1]))
  }

  /** The directions are the eight unit offsets, each once. */
  lemma DirectionsAreTheNeighbours()
    ensures forall i, j :: (i, j) in Directions() <==> -1 <= i <= 1 && -1 <= j <= 1 && (i, j) != (0, 0)
    ensures |Directions()| == 8
    ensures forall a, b :: 0 <= a < b < |Directions()| ==> Directions()[a] != Directions()[b]
  {
    DirectionsInOrder();
    UnitOffsets(Directions());
  }

  lemma UnitOffsets(ds: seq<(int, int)>)
    requires ds == [(-1, -1), (-1, 0), (-1, 1), (0, -1), (0, 1), (1, -1), (1, 0), (1, 1)]
    ensures forall i, j :: (i, j) in ds <==> -1 <= i <= 1 && -1 <= j <= 1 && (i, j) != (0, 0)
    ensures forall a, b :: 0 <= a < b < |ds| ==> ds[a] != ds[b]
  {
    forall i, j | -1 <= i <= 1 && -1 <= j <= 1 && (i, j) != (0, 0) ensures (i, j) in ds {
      var k := (i + 1) * 3 + (j + 1);
      assert ds[if k > 4 then k - 1 else k] == (i, j);
    }
  }

  /** The order in which part1 tries the directions. */
  lemma DirectionsInOrder()
    ensures Directions() == [(-1, -1), (-1, 0), (-1, 1), (0, -1), (0, 1), (1, -1), (1, 0), (1, 1)]
  {
    ProductInOrder();
    NonZeroProduct();
  }

  /** Filtering the product drops only `(0, 0)`. */
  lemma NonZeroProduct()
    ensures NonZero([(-1, -1), (-1, 0), (-1, 1), (0, -1), (0, 0), (0, 1), (1, -1), (1, 0), (1, 1)]) ==
      [(-1, -1), (-1, 0), (-1, 1), (0, -1), (0, 1), (1, -1), (1, 0), (1, 1)]
  {
    NonZeroLastRows();
    assert NonZero([(-1, 1), (0, -1), (0, 0), (0, 1), (1, -1), (1, 0), (1, 1)]) == [(-1, 1), (0, -1), (0, 1), (1, -1), (1, 0), (1, 1)];
    assert NonZero([(-1, 0), (-1, 1), (0, -1), (0, 0), (0, 1), (1, -1), (1, 0), (1, 1)]) == [(-1, 0), (-1, 1), (0, -1), (0, 1), (1, -1), (1, 0), (1, 1)];
  }

  /** Filtering the last two rows of the product drops only `(0, 0)`. */
  lemma NonZeroLastRows()
    ensures NonZero([(0, -1), (0, 0), (0, 1), (1, -1), (1, 0), (1, 1)]) == [(0, -1), (0, 1), (1, -1), (1, 0), (1, 1)]
  {
    assert NonZero([(1, 1)]) == [(1, 1)];
    assert NonZero([(1, 0), (1, 1)]) == [(1, 0), (1, 1)];
    assert NonZero([(1, -1), (1, 0), (1, 1)]) == [(1, -1), (1, 0), (1, 1)];
    assert NonZero([(0, 1), (1, -1), (1, 0), (1, 1)]) == [(0, 1), (1, -1), (1, 0), (1, 1)];
    assert NonZero([(0, 0), (0, 1), (1, -1), (1, 0), (1, 1)]) == [(0, 1), (1, -1), (1, 0), (1, 1)];
  }

  lemma ProductInOrder()
    ensures Product([-1, 0, 1], [-1, 0, 1]) ==
      [(-1, -1), (-1, 0), (-1, 1), (0, -1), (0, 0), (0, 1), (1, -1), (1, 0), (1, 1)]
  {
    var ys := [-1, 0, 1];
    assert Row(1, ys) == [(1, -1), (1, 0), (1, 1)];
    assert Row(0, ys) == [(0, -1), (0, 0), (0, 1)];
    assert Row(-1, ys) == [(-1, -1), (-1, 0), (-1, 1)];
    assert Product([1], ys) == Row(1, ys);
    assert Product([0, 1], ys) == Row(0, ys) + Row(1, ys);
  }

  /** How many of the directions `ds` hold the word at `pos`. */
  function DirCount(board: Board, pos: (nat, nat), word: seq<Byte>, ds: seq<(int, int)>): (n: nat)
    requires RowsCoverFirst(board)
    ensures n <= |ds|
  {
    if ds == [] then 0
    else DirCount(board, pos, word, ds[..|ds| - 1]) + (if WordAt(board, pos, ds[|ds| - 1], word) then 1 else 0)
  }

  /** The matches starting at one cell: none unless the cell holds the first letter. */
  function CellCount(board: Board, word: seq<Byte>, r: nat, c: nat): (n: nat)
    requires RowsCoverFirst(board) && r < |board| && c < |board[r]| && |word| > 0
    ensures n <= 8
  {
    DirectionsAreTheNeighbours();
    if board[r][c] == word[0] then DirCount(board, (r, c), word, Directions()) else 0
  }

  /** The matches starting in the first `n` cells of row `r`. */
  function RowCount(board: Board, word: seq<Byte>, r: nat, n: nat): (total: nat)
    requires RowsCoverFirst(board) && r < |board| && n <= |board[r]| && |word| > 0
    ensures total <= 8 * n
  {
    if n == 0 then 0 else RowCount(board, word, r, n - 1) + CellCount(board, word, r, n - 1)
  }

  /** The matches starting in the first `m` rows. */
  function Count(board: Board, word: seq<Byte>, m: nat): (total: nat)
    requires RowsCoverFirst(board) && m <= |board| && |word| > 0
    ensures total <= 8 * Cells(board, m)
  {
    if m == 0 then 0 else Count(board, word, m - 1) + RowCount(board, word, m - 1, |board[m - 1]|)
  }

  /** The number of cells in the first `m` rows. */
  function Cells(board: Board, m: nat): nat
    requires m <= |board|
  {
    if m == 0 then 0 else Cells(board, m - 1) + |board[m - 1]|
  }

  /**
   * part1: for every cell holding the word's first letter, counts the
   * directions in which the rest of the word follows.
   */
  method Part1(board: Board, word: seq<Byte>) returns (total: nat)
    requires RowsCoverFirst(board) && |word| > 0
    ensures total == Count(board, word, |board|)
    ensures total <= 8 * Cells(board, |board|)
  {
    total := 0;
    for r := 0 to |board|
      invariant total == Count(board, word, r)
    {
      for c := 0 to |board[r]|
        invariant total == Count(board, word, r) + RowCount(board, word, r, c)
      {
        if board[r][c] == word[0] {
          var here := CountDirections(board, (r, c), word, Directions());
          total := total + here;
        }
      }
    }
  }

  /** The `for (i, j) in directions()` loop of part1: how many directions of `ds` hold the word at `pos`. */
  method CountDirections(board: Board, pos: (nat, nat), word: seq<Byte>, ds: seq<(int, int)>) returns (n: nat)
    requires RowsCoverFirst(board)
    ensures n == DirCount(board, pos, word, ds)
  {
    n := 0;
    for i := 0 to |ds|
      invariant n == DirCount(board, pos, word, ds[..i])
    {
      var found := HasWord(board, pos, ds[i], word);
      assert ds[..i + 1][..i] == ds[..i];
      if found {
        n := n + 1;
      }
    }
    assert ds[..|ds|] == ds;
  }
}
