// Pure values behind the game board: boolean grids, the tetromino
// catalogue, the spawn column and the overlay a spawn writes.

module Grids {

  /// A matrix of cells, row 0 at the top; `true` marks an occupied cell.
  /// Used both for the board and for a piece template.
  type Grid = seq<seq<bool>>

  /// Every row of `g` has exactly `width` cells.
  ghost predicate IsRect(g: Grid, width: nat)
  {
    forall r :: 0 <= r < |g| ==> |g[r]| == width
  }

  /// `h` rows of `w` empty cells: the board as `initialiseBoard` builds it.
  function Empty(h: nat, w: nat): (g: Grid)
    ensures |g| == h && IsRect(g, w)
    ensures forall r, c :: 0 <= r < h && 0 <= c < w ==> !g[r][c]
  {
    seq(h, _ => seq(w, _ => false))
  }

  /// Number of occupied cells in one row.
  function RowCount(row: seq<bool>): nat
  {
    if row == [] then 0 else (if row[0] then 1 else 0) + RowCount(row[1..])
  }

  /// Number of occupied cells in a grid.
  function CellCount(g: Grid): nat
  {
    if g == [] then 0 else RowCount(g[0]) + CellCount(g[1..])
  }

  /// A tetromino template: one or two rows, all of the same non-zero
  /// width, with exactly four occupied cells.
  ghost predicate IsTetromino(b: Grid)
  {
    1 <= |b| <= 2 && |b[0]| > 0 && IsRect(b, |b[0]|) && CellCount(b) == 4
  }

  /// The seven templates of the board service, in source order:
  /// I, O, J, T, L, S, Z.
  function Catalogue(): (blocks: seq<Grid>)
    ensures |blocks| == 7
    ensures forall k :: 0 <= k < |blocks| ==> IsTetromino(blocks[k])
  {
    [ [[true, true, true, true]],
      [[true, true], [true, true]],
      [[true, false, false], [true, true, true]],
      [[false, true, false], [true, true, true]],
      [[false, false, true], [true, true, true]],
      [[true, true, false], [false, true, true]],
      [[false, true, true], [true, true, false]] ]
  }

  /// The column where a template of width `w` starts on a board
  /// `boardWidth` wide: floor((boardWidth - w) / 2). Dafny's `/` by a
  /// positive divisor rounds down, as Math.floor does, for every sign of
  /// the dividend.
  function SpawnColumn(boardWidth: int, w: int): (x: int)
    ensures 0 <= w <= boardWidth ==> 0 <= x && x + w <= boardWidth
    // centred: the margin on the right equals the one on the left, or
    // exceeds it by one column
    ensures x <= boardWidth - w - x <= x + 1
  {
    (boardWidth - w) / 2
  }

  /// On the 10-wide board the I piece starts at column 3, the O piece at
  /// column 4 and every 3-wide piece at column 3.
  lemma CatalogueSpawnColumns()
    ensures forall k :: 0 <= k < 7 ==>
      SpawnColumn(10, |Catalogue()[k][0]|) == if k == 1 then 4 else 3
  {
  }

  /// `g` with template `b` written over it at column `x` of rows
  /// 0..|b|-1, empty template cells included. Template cells that would
  /// fall outside `g` are dropped; a spawn never produces any.
  function Overlay(g: Grid, b: Grid, x: int): (o: Grid)
    ensures |o| == |g|
    ensures forall r :: 0 <= r < |g| ==> |o[r]| == |g[r]|
  {
    seq(|g|, r requires 0 <= r < |g| =>
      seq(|g[r]|, c requires 0 <= c < |g[r]| =>
        if r < |b| && x <= c < x + |b[r]| then b[r][c - x] else g[r][c]))
  }

  /// A run of `n` empty cells.
  function EmptyRow(n: nat): (row: seq<bool>)
    ensures |row| == n
  {
    seq(n, _ => false)
  }

  lemma {:induction false} RowCountAppend(a: seq<bool>, b: seq<bool>)
    ensures RowCount(a + b) == RowCount(a) + RowCount(b)
  {
    if a == [] {
      assert a + b == b;
    } else {
      assert (a + b)[0] == a[0] && (a + b)[1..] == a[1..] + b;
      RowCountAppend(a[1..], b);
    }
  }

  lemma {:induction false} RowCountEmpty(row: seq<bool>)
    requires forall i :: 0 <= i < |row| ==> !row[i]
    ensures RowCount(row) == 0
  {
    if row != [] {
      RowCountEmpty(row[1..]);
    }
  }

  /// Two grids whose rows pair up with equal counts, the rows of `g`
  /// beyond those of `b` being empty, hold the same number of cells.
  lemma {:induction false} CellCountRowwise(g: Grid, b: Grid)
    requires |b| <= |g|
    requires forall r :: 0 <= r < |b| ==> RowCount(g[r]) == RowCount(b[r])
    requires forall r :: |b| <= r < |g| ==> RowCount(g[r]) == 0
    ensures CellCount(g) == CellCount(b)
  {
    if g != [] {
      if b == [] {
        CellCountRowwise(g[1..], b);
      } else {
        CellCountRowwise(g[1..], b[1..]);
      }
    }
  }

  /// A template laid over an empty board adds exactly its own cells, and
  /// every occupied cell of the result lies in the template's rows.
  lemma OverlayOnEmpty(h: nat, w: nat, b: Grid, x: int)
    requires |b| <= h && 0 <= x
    requires forall r :: 0 <= r < |b| ==> x + |b[r]| <= w
    ensures CellCount(Overlay(Empty(h, w), b, x)) == CellCount(b)
    ensures forall r, c :: 0 <= r < h && 0 <= c < w && Overlay(Empty(h, w), b, x)[r][c] ==> r < |b|
  {
    var o := Overlay(Empty(h, w), b, x);
    forall r | 0 <= r < |b|
      ensures RowCount(o[r]) == RowCount(b[r])
    {
      var tail := EmptyRow(w - x - |b[r]|);
      assert o[r] == EmptyRow(x) + b[r] + tail;
      RowCountAppend(EmptyRow(x) + b[r], tail);
      RowCountAppend(EmptyRow(x), b[r]);
      RowCountEmpty(EmptyRow(x));
      RowCountEmpty(tail);
    }
    forall r | |b| <= r < h
      ensures RowCount(o[r]) == 0
    {
      RowCountEmpty(o[r]);
    }
    CellCountRowwise(o, b);
  }

  /// Spawning any catalogue piece on an empty 20x10 board, at its spawn
  /// column, leaves exactly four occupied cells, all in the top two rows.
  lemma SpawnOnEmptyBoard(k: nat)
    requires k < 7
    ensures var b := Catalogue()[k];
            var g := Overlay(Empty(20, 10), b, SpawnColumn(10, |b[0]|));
            CellCount(g) == 4 &&
            forall r, c :: 0 <= r < 20 && 0 <= c < 10 && g[r][c] ==> r < 2
  {
    var b := Catalogue()[k];
    assert IsTetromino(b);
    OverlayOnEmpty(20, 10, b, SpawnColumn(10, |b[0]|));
  }
}
