# Tetris board and action helpers, modelled in Dafny

This project models the core of an early version of a browser Tetris game
that comes with an experimental learning agent. At this stage the game has
no movement, collision, rotation, line clearing or scoring, so the model
covers two parts:

- **The board service** (`src/app/game-board/board.service.ts`). It holds
  a 20-row by 10-column grid of boolean cells and the catalogue of the
  seven tetromino templates. `initialiseBoard` rebuilds the grid with
  every cell empty. `spawnTetrisBlock` picks a template and copies it into
  the top rows, centred horizontally at column
  `floor((boardWidth - width) / 2)`. The copy includes the template's
  empty cells.
- **The agent's action helpers** (`src/app/ai/ai.service.ts`).
  `getMaxIndex` returns the index of the largest predicted value. It
  returns the earliest index on ties and -1 for no values. The
  output-tensor step raises the chosen action's prediction by the reward,
  in place.

Files:

- `grids.dfy`, module `Grids`: grids as values, the catalogue, the spawn
  column, and `Overlay` (the grid after a spawn). It also holds the
  counting lemmas, which show that a spawn on an empty board leaves
  exactly four occupied cells in the top two rows.
- `board.dfy`, module `Board`: class `BoardService`. Its grid is an
  `array2<bool>` field, `null` until `InitialiseBoard` runs. The spawn is
  a nested loop written in place and proved against `Overlay`. Module
  `BoardView` gives the board component's order of calls: initialise,
  then spawn.
- `ai.dfy`, module `Ai`: `GetMaxIndex` is a loop over an array, proved
  against the argmax property. `GetOutputTensor` updates the predicted
  array in place, through the alias the source creates, and returns a
  copy of the corrected values, the contents of the tensor the source
  builds from them.

The random draws are parameters. `spawnTetrisBlock` takes the template
index `k` as an argument, with `k` below the catalogue's length, which is
the range `getRandomInt(tetrisBlocks.length)` produces. The prediction
vector that the learning library would return is passed in as an array of
reals.

## Model

| member | source | states |
|---|---|---|
| Grids.Catalogue | src/app/game-board/board.service.ts:9-17 | there are 7 templates, each with 1 or 2 rows of one common non-zero width and exactly four occupied cells |
| Grids.Empty | src/app/game-board/board.service.ts:23-25 | the fresh board has `h` rows of `w` cells, all empty |
| Grids.SpawnColumn | src/app/game-board/board.service.ts:38 | the floor-halved spawn column keeps a template of width `w <= boardWidth` on the board (`0 <= x`, `x + w <= boardWidth`); the right margin equals the left one or exceeds it by one column |
| Grids.CatalogueSpawnColumns | src/app/game-board/board.service.ts:38 | on the 10-wide board the I piece spawns at column 3, the O piece at 4 and every 3-wide piece at 3 |
| Grids.Overlay | src/app/game-board/board.service.ts:40-44 | the grid after writing a template at column `x` of the top rows keeps the grid's dimensions |
| Grids.OverlayOnEmpty | src/app/game-board/board.service.ts:40-44 | a template written over an empty grid adds exactly its own occupied cells, and every occupied cell lies in the template's rows |
| Grids.SpawnOnEmptyBoard | src/app/game-board/board/board.component.ts:10-16 | spawning any of the 7 templates on an empty 20x10 board at its spawn column gives exactly four occupied cells, all in rows 0 and 1 |
| Board.BoardService.constructor | src/app/game-board/board.service.ts:7-20 | a new service holds the seven-template catalogue and no grid yet |
| Board.BoardService.InitialiseBoard | src/app/game-board/board.service.ts:22-26 | `state` becomes a new grid of `boardHeight` rows by `boardWidth` columns with every cell empty |
| Board.BoardService.NewTetrisBlock | src/app/game-board/board.service.ts:32-34 | the template drawn at index `k` is one of the catalogue's tetrominoes |
| Board.BoardService.WriteRow | src/app/game-board/board.service.ts:41-43 | one template row is copied into grid row `r` from column `x`; all other cells are unchanged |
| Board.BoardService.SpawnTetrisBlock | src/app/game-board/board.service.ts:36-45 | the new grid is `Overlay` of the old one: `state[r][x + c] == b[r][c]` for every template cell, empty ones included; every cell outside the template's box is unchanged; the grid's size and the catalogue are unchanged |
| BoardView.StartBoard | src/app/game-board/board/board.component.ts:10-16 | initialising and then spawning leaves a grid with exactly four occupied cells, all in the top two rows |
| Ai.GetMaxIndex | src/app/ai/ai.service.ts:94-110 | -1 exactly when the array is empty; otherwise an index in range whose value is at least every value, with every earlier value strictly smaller (ties go to the first maximum); the array is only read |
| Ai.FirstMaxUnique | src/app/ai/ai.service.ts:102-107 | at most one index is a maximum with only smaller values before it, so `GetMaxIndex`'s contract fixes its result |
| Ai.Corrected | src/app/ai/ai.service.ts:88-89 | the corrected vector has the same length, entry `actionIndex` raised by `reward`, and every other entry unchanged |
| Ai.GetOutputTensor | src/app/ai/ai.service.ts:86-92 | the predicted array is updated in place to `Corrected` of its old contents, since the corrected output aliases it; the result holds a copy of the corrected values |

## Left out

- Random choice: `getRandomInt`, and the random action in `chooseAction`, use `Math.random`. The drawn index is a parameter with its range as a precondition.
- The learning library: model creation, compilation, `predict`, `fit`, the model summary view and `trainModel`. The predicted vector is an input array.
- `chooseAction`: in training it draws at random; otherwise it calls `predict` and then `getMaxIndex`, which is modelled.
- `getInputTensor`: it wraps a constant placeholder vector and has no logic.
- Floating point: predictions and rewards are exact reals, so NaN and rounding are not modelled.
- `onKeydown` and the console logging: output only.
- The Angular modules and components: dependency wiring and UI. Only the board component's call order is modelled, in `BoardView.StartBoard`.
- Grid layout: the grid is one `array2` rather than an array of separate row arrays. Rows are never shared in the source, so no aliasing is lost.
- The catalogue is a sequence value. The source's template arrays could be mutated through the block that `newTetrisBlock` returns, but no code does so.
- Board.BoardService.SpawnTetrisBlock: requires an initialised grid. The source would throw if `initialiseBoard` had not run first; the board component always calls it first.
- Ai.GetOutputTensor: the `tensor2d` wrapping is dropped. The result is the sequence of corrected values, not a 1 x n tensor object.
- Board.BoardService: `boardWidth` and `boardHeight` are constants (10 and 20). In the source they are public fields, but no code writes them; the AI service only reads `boardWidth`.
- Ai.GetOutputTensor: requires `actionIndex` within the array. Out of range, JavaScript would extend the array or store NaN. The only caller passes a random action in 0..2, and the output layer has 3 units.
- Movement, collision, rotation, line clearing, scoring, game over and the reward accumulator: this version of the source has none of them.
