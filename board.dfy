// The board service: a 20x10 grid of cells updated in place, the
// tetromino catalogue, and the spawn that copies a template into the
// top rows of the grid.

module Board {
  import opened Grids

  class BoardService {
    const boardWidth: nat := 10
    const boardHeight: nat := 20
    /// The piece templates; nothing in the service writes them.
    var tetrisBlocks: seq<Grid>
    /// The grid, `null` until `InitialiseBoard` has built it.
    var state: array2?<bool>

    /// The catalogue is the seven tetrominoes.
    ghost predicate Valid()
      reads this
    {
      tetrisBlocks == Catalogue()
    }

    /// The grid exists and has `boardHeight` rows of `boardWidth` cells.
    ghost predicate Initialised()
      reads this
    {
      state != null && state.Length0 == boardHeight && state.Length1 == boardWidth
    }

    /// The grid as a value, row by row.
    ghost function Cells(): (g: Grid)
      reads this, state
      requires state != null
      ensures |g| == state.Length0 && IsRect(g, state.Length1)
      ensures forall r, c :: 0 <= r < state.Length0 && 0 <= c < state.Length1 ==> g[r][c] == state[r, c]
    {
      var grid := state;
      seq(grid.Length0, r requires 0 <= r < grid.Length0 reads grid =>
        seq(grid.Length1, c requires 0 <= c < grid.Length1 reads grid => grid[r, c]))
    }

    constructor ()
      ensures Valid() && state == null
    {
      tetrisBlocks := Catalogue();
      state := null;
    }

    /// Replaces the grid with a new one of the board's size, every cell
    /// empty.
    method InitialiseBoard()
      modifies this`state
      ensures fresh(state) && Initialised()
      ensures Cells() == Empty(boardHeight, boardWidth)
    {
      state := new bool[boardHeight, boardWidth]((r, c) => false);
      forall r | 0 <= r < boardHeight
        ensures Cells()[r] == Empty(boardHeight, boardWidth)[r]
      {
      }
    }

    /// The template at index `k` of the catalogue; `k` stands for the
    /// random draw below the catalogue's length.
    function NewTetrisBlock(k: nat): (b: Grid)
      reads this
      requires Valid() && k < |tetrisBlocks|
      ensures IsTetromino(b) && b in Catalogue()
    {
      tetrisBlocks[k]
    }

    /// Copies `cells` into row `r` of the grid from column `x` on; the
    /// rest of the grid stays as it was.
    method WriteRow(r: nat, x: nat, cells: seq<bool>)
      requires Initialised() && r < boardHeight && x + |cells| <= boardWidth
      modifies state
      ensures forall c :: 0 <= c < boardWidth ==>
                state[r, c] == (if x <= c < x + |cells| then cells[c - x] else old(state[r, c]))
      ensures forall r', c :: (0 <= r' < boardHeight && r' != r && 0 <= c < boardWidth) ==>
                state[r', c] == old(state[r', c])
    {
      var colIndex := 0;
      while colIndex < |cells|
        invariant 0 <= colIndex <= |cells|
        invariant forall c :: 0 <= c < boardWidth ==>
                    state[r, c] == (if x <= c < x + colIndex then cells[c - x] else old(state[r, c]))
        invariant forall r', c :: (0 <= r' < boardHeight && r' != r && 0 <= c < boardWidth) ==>
                    state[r', c] == old(state[r', c])
      {
        state[r, x + colIndex] := cells[colIndex];
        colIndex := colIndex + 1;
      }
    }

    /// Copies template `k` into rows 0.. of the grid, starting at the
    /// centred spawn column; empty template cells overwrite the grid too.
    /// Every other cell, the grid's size and the catalogue stay as they
    /// were.
    method SpawnTetrisBlock(k: nat)
      requires Valid() && Initialised() && k < |tetrisBlocks|
      modifies state
      ensures Valid() && Initialised()
      ensures Cells() == Overlay(old(Cells()), NewTetrisBlock(k),
                                 SpawnColumn(boardWidth, |NewTetrisBlock(k)[0]|))
      ensures var b := NewTetrisBlock(k);
              var x := SpawnColumn(boardWidth, |b[0]|);
              0 <= x && x + |b[0]| <= boardWidth &&
              (forall r, c :: 0 <= r < |b| && 0 <= c < |b[r]| ==> state[r, x + c] == b[r][c]) &&
              (forall r, c :: (0 <= r < boardHeight && 0 <= c < boardWidth &&
                               !(r < |b| && x <= c < x + |b[0]|)) ==> state[r, c] == old(state[r, c]))
    {
      var newBlock := NewTetrisBlock(k);
      var initialX := SpawnColumn(boardWidth, |newBlock[0]|);
      ghost var was := Cells();
      ghost var spawned := Overlay(was, newBlock, initialX);

      var rowIndex := 0;
      while rowIndex < |newBlock|
        invariant 0 <= rowIndex <= |newBlock|
        invariant forall r, c :: (0 <= r < boardHeight && 0 <= c < boardWidth) ==>
                    state[r, c] == (if r < rowIndex then spawned[r][c] else was[r][c])
      {
        WriteRow(rowIndex, initialX, newBlock[rowIndex]);
        rowIndex := rowIndex + 1;
      }

      forall r | 0 <= r < boardHeight
        ensures Cells()[r] == spawned[r]
      {
      }
    }
  }
}

// The board component's start-up order: the board is initialised when
// the component is constructed and a piece is spawned when it starts.
module BoardView {
  import opened Grids
  import opened Board

  /// Builds the empty board and spawns template `k` on it: the grid then
  /// holds exactly four occupied cells, all in the top two rows.
  method StartBoard(board: BoardService, k: nat)
    requires board.Valid() && k < 7
    modifies board`state
    ensures board.Valid() && board.Initialised() && fresh(board.state)
    ensures CellCount(board.Cells()) == 4
    ensures forall r, c :: (0 <= r < board.boardHeight && 0 <= c < board.boardWidth &&
                            board.state[r, c]) ==> r < 2
  {
    board.InitialiseBoard();
    board.SpawnTetrisBlock(k);
    SpawnOnEmptyBoard(k);
  }
}
