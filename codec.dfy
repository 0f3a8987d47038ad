/**
 How a board becomes blocks in front of the machine (setInputs) and how the
 machine's answer is read back from its output repeaters (readOutputs).
 Every position is computed from the machine's corner by a fixed linear
 formula.
 */
module Codec {
  import opened Wrappers
  import opened Minecraft

  const ROWS := 6
  const COLS := 7
  /** Two input cells (red, yellow) per board square. */
  const INPUT_COUNT := 2 * ROWS * COLS

  /** A board as the generator hands it over: 6 rows of 7 cell states. */
  predicate IsBoard(board: seq<seq<int>>)
  {
    |board| == ROWS && forall r :: 0 <= r < ROWS ==> |board[r]| == COLS
  }

  /** The two blocks that show one board square. */
  datatype Marker = Red | Yellow

  /** One input cell: a board square and which of its two blocks. */
  datatype Cell = Cell(row: int, col: int, marker: Marker)

  predicate ValidCell(c: Cell)
  {
    0 <= c.row < ROWS && 0 <= c.col < COLS
  }

  /**
   Where an input cell sits: one block west of the corner, 26 up minus four
   per row, 6 south plus four per column, and the yellow block two further
   south than the red one.
   */
  function CellPos(corner: Pos, c: Cell): Pos
  {
    Pos(corner.x - 1,
        corner.y + 26 - c.row * 4,
        corner.z + 6 + c.col * 4 + (if c.marker == Yellow then 2 else 0))
  }

  /**
   The input cell a position belongs to, if any. It undoes CellPos, so two
   cells never share a position.
   */
  function InputCellOf(corner: Pos, p: Pos): (r: Option<Cell>)
    ensures r.Some? ==> ValidCell(r.value) && CellPos(corner, r.value) == p
  {
    var dy := corner.y + 26 - p.y;
    var dz := p.z - corner.z - 6;
    if p.x == corner.x - 1 && dy % 4 == 0 && 0 <= dy / 4 < ROWS
       && (dz % 4 == 0 || dz % 4 == 2) && 0 <= dz / 4 < COLS
    then Some(Cell(dy / 4, dz / 4, if dz % 4 == 0 then Red else Yellow))
    else None
  }

  lemma CellPosRoundTrip(corner: Pos, c: Cell)
    requires ValidCell(c)
    ensures InputCellOf(corner, CellPos(corner, c)) == Some(c)
  {
    var p := CellPos(corner, c);
    var dz := p.z - corner.z - 6;
    assert dz == c.col * 4 + (if c.marker == Yellow then 2 else 0);
    assert dz / 4 == c.col && dz % 4 == (if c.marker == Yellow then 2 else 0);
  }

  /**
   The block an input cell receives for a cell state: the red cell lights
   for states 1 and 3, the yellow cell for states 2 and 3, and every other
   state leaves the cell as air.
   */
  function MarkerBlock(state: int, m: Marker): (b: Block)
    ensures b == Air || b == RedstoneBlock
    ensures b == RedstoneBlock <==> state == 3 || state == (if m == Red then 1 else 2)
  {
    match m
    case Red => if state == 1 || state == 3 then RedstoneBlock else Air
    case Yellow => if state == 2 || state == 3 then RedstoneBlock else Air
  }

  /** What `p` holds once the inputs for `board` are written over `blocks`. */
  function InputsWritten(blocks: map<Pos, Block>, corner: Pos, board: seq<seq<int>>, p: Pos): Block
    requires IsBoard(board)
  {
    match InputCellOf(corner, p)
    case None => BlockAt(blocks, p)
    case Some(c) => MarkerBlock(board[c.row][c.col], c.marker)
  }

  /** Whether the nested loops of SetInputs have reached cell c before (row, col). */
  predicate WrittenBefore(c: Cell, row: int, col: int)
  {
    c.row < row || (c.row == row && c.col < col)
  }

  ghost function PartlyWritten(blocks: map<Pos, Block>, corner: Pos, board: seq<seq<int>>,
                               row: int, col: int, p: Pos): Block
    requires IsBoard(board)
  {
    match InputCellOf(corner, p)
    case Some(c) => if WrittenBefore(c, row, col) then MarkerBlock(board[c.row][c.col], c.marker)
                    else BlockAt(blocks, p)
    case None => BlockAt(blocks, p)
  }

  ghost predicate PartlyWrittenKeys(old_blocks: map<Pos, Block>, blocks: map<Pos, Block>, corner: Pos,
                                    row: int, col: int)
  {
    forall p :: p in blocks <==>
      p in old_blocks || (InputCellOf(corner, p).Some? && WrittenBefore(InputCellOf(corner, p).value, row, col))
  }

  /** Writing both cells of square (row, col) moves the nested loops one square on. */
  lemma WriteSquareStep(before: map<Pos, Block>, mid: map<Pos, Block>, after: map<Pos, Block>,
                        corner: Pos, board: seq<seq<int>>, row: int, col: int)
    requires IsBoard(board) && 0 <= row < ROWS && 0 <= col < COLS
    requires forall p :: BlockAt(mid, p) == PartlyWritten(before, corner, board, row, col, p)
    requires PartlyWrittenKeys(before, mid, corner, row, col)
    requires after == mid[CellPos(corner, Cell(row, col, Red)) := MarkerBlock(board[row][col], Red)]
                         [CellPos(corner, Cell(row, col, Yellow)) := MarkerBlock(board[row][col], Yellow)]
    ensures forall p :: BlockAt(after, p) == PartlyWritten(before, corner, board, row, col + 1, p)
    ensures PartlyWrittenKeys(before, after, corner, row, col + 1)
  {
    var redPos := CellPos(corner, Cell(row, col, Red));
    var yellowPos := CellPos(corner, Cell(row, col, Yellow));
    CellPosRoundTrip(corner, Cell(row, col, Red));
    CellPosRoundTrip(corner, Cell(row, col, Yellow));
    forall p
      ensures BlockAt(after, p) == PartlyWritten(before, corner, board, row, col + 1, p)
    {
      if p != redPos && p != yellowPos {
        assert BlockAt(after, p) == BlockAt(mid, p);
        if InputCellOf(corner, p).Some? {
          var c := InputCellOf(corner, p).value;
          assert c != Cell(row, col, Red) && c != Cell(row, col, Yellow);
        }
      }
    }
  }

  /**
   setInputs: for each square, row by row and column by column, writes the
   red and the yellow input cell. Afterwards every input cell holds the block
   its square's state asks for and every other position is as it was.
   */
  method SetInputs(world: World, corner: Pos, gameState: seq<seq<int>>)
    requires IsBoard(gameState)
    modifies world
    ensures forall p :: BlockAt(world.blocks, p) == InputsWritten(old(world.blocks), corner, gameState, p)
    ensures forall p :: p in world.blocks <==> p in old(world.blocks) || InputCellOf(corner, p).Some?
  {
    ghost var before := world.blocks;
    var startX := corner.x - 1;
    var startY := corner.y + 26;
    var startZ := corner.z + 6;
    for row := 0 to ROWS
      invariant forall p :: BlockAt(world.blocks, p) == PartlyWritten(before, corner, gameState, row, 0, p)
      invariant PartlyWrittenKeys(before, world.blocks, corner, row, 0)
    {
      for col := 0 to COLS
        invariant forall p :: BlockAt(world.blocks, p) == PartlyWritten(before, corner, gameState, row, col, p)
        invariant PartlyWrittenKeys(before, world.blocks, corner, row, col)
      {
        var y := startY - row * 4;
        var z := startZ + col * 4;
        var redPos := Pos(startX, y, z);
        var yellowPos := Pos(startX, y, z + 2);
        var state := gameState[row][col];
        ghost var mid := world.blocks;
        world.SetBlockState(redPos, if state == 1 || state == 3 then RedstoneBlock else Air);
        world.SetBlockState(yellowPos, if state == 2 || state == 3 then RedstoneBlock else Air);
        WriteSquareStep(before, mid, world.blocks, corner, gameState, row, col);
      }
    }
  }

  /** The k-th input cell in the order SetInputs writes them. */
  function CellAt(k: int): Cell
  {
    Cell(k / 14, (k % 14) / 2, if (k % 14) % 2 == 0 then Red else Yellow)
  }

  /** The position of a cell in the order SetInputs writes them. */
  function CellIndex(c: Cell): int
  {
    c.row * 14 + c.col * 2 + (if c.marker == Yellow then 1 else 0)
  }

  lemma CellAtIndex(k: int)
    requires 0 <= k < INPUT_COUNT
    ensures ValidCell(CellAt(k)) && CellIndex(CellAt(k)) == k
  {
  }

  lemma CellIndexAt(c: Cell)
    requires ValidCell(c)
    ensures 0 <= CellIndex(c) < INPUT_COUNT && CellAt(CellIndex(c)) == c
  {
  }

  /** The 84 positions SetInputs writes, in the order it writes them. */
  function InputPositions(corner: Pos): seq<Pos>
  {
    seq(INPUT_COUNT, k requires 0 <= k < INPUT_COUNT => CellPos(corner, CellAt(k)))
  }

  /** SetInputs writes 84 positions, no two of them the same. */
  lemma InputPositionsDistinct(corner: Pos)
    ensures |InputPositions(corner)| == INPUT_COUNT == 84
    ensures forall i, j :: 0 <= i < j < INPUT_COUNT ==> InputPositions(corner)[i] != InputPositions(corner)[j]
  {
    var ps := InputPositions(corner);
    forall i, j | 0 <= i < j < INPUT_COUNT
      ensures ps[i] != ps[j]
    {
      CellAtIndex(i);
      CellAtIndex(j);
      if ps[i] == ps[j] {
        CellPosRoundTrip(corner, CellAt(i));
        CellPosRoundTrip(corner, CellAt(j));
      }
    }
  }

  /** The positions SetInputs writes are exactly the input cells. */
  lemma InputPositionsExact(corner: Pos, p: Pos)
    ensures p in InputPositions(corner) <==> InputCellOf(corner, p).Some?
  {
    var ps := InputPositions(corner);
    if p in ps {
      var k :| 0 <= k < |ps| && ps[k] == p;
      CellAtIndex(k);
      CellPosRoundTrip(corner, CellAt(k));
    }
    if InputCellOf(corner, p).Some? {
      var c := InputCellOf(corner, p).value;
      CellIndexAt(c);
      assert ps[CellIndex(c)] == p;
    }
  }

  /**
   After SetInputs the i-th written position holds its square's block, and
   a position SetInputs does not write holds what it held before.
   */
  lemma InputsWrittenAt(blocks: map<Pos, Block>, corner: Pos, board: seq<seq<int>>, i: int)
    requires IsBoard(board) && 0 <= i < INPUT_COUNT
    ensures var c := CellAt(i);
      ValidCell(c) && InputsWritten(blocks, corner, board, InputPositions(corner)[i])
        == MarkerBlock(board[c.row][c.col], c.marker)
  {
    CellAtIndex(i);
    CellPosRoundTrip(corner, CellAt(i));
  }

  lemma InputsWrittenElsewhere(blocks: map<Pos, Block>, corner: Pos, board: seq<seq<int>>, p: Pos)
    requires IsBoard(board) && p !in InputPositions(corner)
    ensures InputsWritten(blocks, corner, board, p) == BlockAt(blocks, p)
  {
    InputPositionsExact(corner, p);
  }

  /** Where output slot i is read: 51 east of the corner, 26 up, 7 + 4i south. */
  function OutputPos(corner: Pos, i: int): Pos
  {
    Pos(corner.x + 51, corner.y + 26, corner.z + 7 + i * 4)
  }

  /** A slot is lit only when a powered repeater stands there. */
  function OutputsOf(blocks: map<Pos, Block>, corner: Pos): (out: seq<bool>)
    ensures |out| == COLS
    ensures forall i :: 0 <= i < COLS ==> (out[i] <==> BlockAt(blocks, OutputPos(corner, i)) == Repeater(true))
  {
    seq(COLS, i => match BlockAt(blocks, OutputPos(corner, i)) case Repeater(powered) => powered case _ => false)
  }

  /**
   readOutputs: fills a fresh array of seven slots; slot i is true exactly
   when the block at its position is a repeater and that repeater is powered.
   Any other block reads as false. The world is only read.
   */
  method ReadOutputs(world: World, nwbCorner: Pos) returns (outputs: array<bool>)
    ensures fresh(outputs) && outputs.Length == COLS
    ensures forall i :: 0 <= i < COLS ==>
      (outputs[i] <==> BlockAt(world.blocks, OutputPos(nwbCorner, i)) == Repeater(true))
    ensures outputs[..] == OutputsOf(world.blocks, nwbCorner)
  {
    outputs := new bool[COLS];
    var outputX := nwbCorner.x + 51;
    var outputY := nwbCorner.y + 26;
    var startZ := nwbCorner.z + 7;
    for i := 0 to COLS
      invariant forall k :: 0 <= k < i ==>
        (outputs[k] <==> BlockAt(world.blocks, OutputPos(nwbCorner, k)) == Repeater(true))
    {
      var z := startZ + i * 4;
      match world.GetBlockState(Pos(outputX, outputY, z))
      case Repeater(powered) =>
        outputs[i] := powered;
      case _ =>
        outputs[i] := false;
    }
  }

  /** No output slot is an input cell, so writing the inputs never touches the outputs. */
  lemma InputsLeaveOutputs(blocks: map<Pos, Block>, corner: Pos, board: seq<seq<int>>, after: map<Pos, Block>)
    requires IsBoard(board)
    requires forall p :: BlockAt(after, p) == InputsWritten(blocks, corner, board, p)
    ensures OutputsOf(after, corner) == OutputsOf(blocks, corner)
  {
    forall i | 0 <= i < COLS
      ensures OutputsOf(after, corner)[i] == OutputsOf(blocks, corner)[i]
    {
      assert InputCellOf(corner, OutputPos(corner, i)).None?;
      assert BlockAt(after, OutputPos(corner, i)) == BlockAt(blocks, OutputPos(corner, i));
    }
  }

  /** Any board written into an empty world reads back as seven unlit slots. */
  lemma EmptyWorldReadsDark(corner: Pos, board: seq<seq<int>>, after: map<Pos, Block>)
    requires IsBoard(board)
    requires forall p :: BlockAt(after, p) == InputsWritten(map[], corner, board, p)
    ensures OutputsOf(after, corner) == seq(COLS, i => false)
  {
    InputsLeaveOutputs(map[], corner, board, after);
  }
}
