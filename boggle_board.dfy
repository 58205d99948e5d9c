/** The Boggle board: sixteen dice and the 4×4 grid of letters they last showed.

    A new board shows no letters: every cell holds an unset marker. `Shake`
    rolls every die and writes its letter into the die's own cell, in
    row-major order, in place; the dice and the grid's shape never change.
    A roll is random in the game; here the face each die lands on is a
    parameter of `Shake`. */
module Boggle {
  import opened Wrappers
  import opened Text

  /** Rows and columns of the grid. */
  const Size: nat := 4

  /** The number of dice a board holds, one per cell. */
  const DiceCount: nat := 16

  /** A die, given by the letters on its faces. */
  datatype Die = Die(sides: string)

  /** The letter a die shows when it lands on face `face`. */
  function Roll(d: Die, face: nat): (letter: char)
    requires face < |d.sides|
    ensures letter in d.sides
  {
    d.sides[face]
  }

  /** A grid cell: unset before the first shake, a rolled letter afterwards. */
  datatype Cell = Unset | Letter(letter: char)

  datatype BoardError = InvalidDiceCount

  /** Four rows of four cells. */
  predicate IsFourByFour(rows: seq<seq<Cell>>) {
    |rows| == Size && forall r :: 0 <= r < |rows| ==> |rows[r]| == Size
  }

  /** The sixteen cells of a grid laid out as four rows, in row-major order. */
  function Rows(cells: seq<Cell>): (rows: seq<seq<Cell>>)
    requires |cells| == DiceCount
    ensures IsFourByFour(rows)
    ensures forall r, c :: 0 <= r < Size && 0 <= c < Size ==> rows[r][c] == cells[Size * r + c]
  {
    seq(Size, r requires 0 <= r < Size => cells[Size * r .. Size * r + Size])
  }

  /** The cells of a grid, row after row (Ruby's `flatten`). */
  function Flatten(rows: seq<seq<Cell>>): (cells: seq<Cell>)
    ensures (forall r :: 0 <= r < |rows| ==> |rows[r]| == Size) ==> |cells| == Size * |rows|
    ensures forall r, c :: 0 <= r < |rows| && 0 <= c < |rows[r]| ==> rows[r][c] in cells
  {
    if rows == [] then [] else rows[0] + Flatten(rows[1..])
  }

  /** Laying sixteen cells out as rows and reading the rows back gives the cells. */
  lemma {:induction false} FlattenRows(cells: seq<Cell>)
    requires |cells| == DiceCount
    ensures Flatten(Rows(cells)) == cells
  {
    var rows := Rows(cells);
    assert rows[0] == cells[..4] && rows[1] == cells[4..8] && rows[2] == cells[8..12] && rows[3] == cells[12..];
    assert rows[1..][1..][1..][1..] == [];
    assert Flatten(rows[3..]) == cells[12..];
    assert rows[1..][1..][1..] == rows[3..];
    assert Flatten(rows[2..]) == cells[8..12] + cells[12..];
    assert cells[8..12] + cells[12..] == cells[8..];
    assert rows[1..][1..] == rows[2..];
    assert Flatten(rows[1..]) == cells[4..8] + cells[8..];
    assert cells[4..8] + cells[8..] == cells[4..];
    assert cells[..4] + cells[4..] == cells;
  }

  /** The cell every die shows after landing on its face in `faces`. */
  function RolledCells(dice: seq<Die>, faces: seq<nat>): (cells: seq<Cell>)
    requires |faces| == |dice|
    requires forall i :: 0 <= i < |dice| ==> faces[i] < |dice[i].sides|
    ensures |cells| == |dice|
    ensures forall i :: 0 <= i < |dice| ==> cells[i].Letter? && cells[i].letter in dice[i].sides
  {
    seq(|dice|, i requires 0 <= i < |dice| => Letter(Roll(dice[i], faces[i])))
  }

  /** Every cell still holds the unset marker. */
  predicate IsUnshaken(rows: seq<seq<Cell>>) {
    forall r, c :: 0 <= r < |rows| && 0 <= c < |rows[r]| ==> rows[r][c] == Unset
  }

  // What a reader of the grid sees: the text of each cell, and which of those
  // texts show a letter.

  /** The text of a cell, as Ruby's `to_s` renders it: empty for the unset marker. */
  function CellText(cell: Cell): (text: string)
    ensures |text| <= 1
    ensures text == [] <==> cell.Unset?
    ensures cell.Letter? ==> text == [cell.letter]
  {
    match cell
    case Unset => ""
    case Letter(ch) => [ch]
  }

  /** Whether a text holds an ASCII letter of either case: the pattern `/[A-Z]/i`. */
  predicate ShowsLetter(text: string) {
    exists i :: 0 <= i < |text| && IsAsciiLetter(text[i])
  }

  /** Whether a text holds the three characters `A-Z`, in either case: the pattern `/A-Z/i`. */
  predicate ContainsAToZ(text: string) {
    exists i :: 0 <= i && i + 3 <= |text| &&
      UpcaseChar(text[i]) == 'A' && text[i + 1] == '-' && UpcaseChar(text[i + 2]) == 'Z'
  }

  /** The texts of the cells that show a letter, in order. */
  function LettersShowing(cells: seq<Cell>): (shown: seq<string>)
    ensures |shown| <= |cells|
    ensures forall i :: 0 <= i < |shown| ==> ShowsLetter(shown[i])
    ensures forall i :: 0 <= i < |cells| && ShowsLetter(CellText(cells[i])) ==> CellText(cells[i]) in shown
    ensures forall i :: 0 <= i < |shown| ==> exists j :: 0 <= j < |cells| && shown[i] == CellText(cells[j])
  {
    if cells == [] then []
    else
      var text := CellText(cells[0]);
      (if ShowsLetter(text) then [text] else []) + LettersShowing(cells[1..])
  }

  /** The texts of the cells kept by the pattern `/A-Z/i`, in order. */
  function SelectedByAToZ(cells: seq<Cell>): (kept: seq<string>)
    ensures |kept| <= |cells|
    ensures forall i :: 0 <= i < |kept| ==> ContainsAToZ(kept[i])
    ensures forall i :: 0 <= i < |cells| && ContainsAToZ(CellText(cells[i])) ==> CellText(cells[i]) in kept
    ensures forall i :: 0 <= i < |kept| ==> exists j :: 0 <= j < |cells| && kept[i] == CellText(cells[j])
  {
    if cells == [] then []
    else
      var text := CellText(cells[0]);
      (if ContainsAToZ(text) then [text] else []) + SelectedByAToZ(cells[1..])
  }

  /** The pattern `/A-Z/i` keeps no cell of any grid, shaken or not: a cell's
      text has at most one character. */
  lemma {:induction false} AToZSelectsNoCell(cells: seq<Cell>)
    ensures SelectedByAToZ(cells) == []
  {
    if cells != [] {
      AToZSelectsNoCell(cells[1..]);
    }
  }

  /** Cells holding the unset marker show no letter. */
  lemma {:induction false} UnsetCellsShowNoLetter(cells: seq<Cell>)
    requires forall i :: 0 <= i < |cells| ==> cells[i] == Unset
    ensures LettersShowing(cells) == []
  {
    if cells != [] {
      UnsetCellsShowNoLetter(cells[1..]);
    }
  }

  /** Every cell holding an ASCII letter shows it. */
  lemma {:induction false} LetterCellsAllShow(cells: seq<Cell>)
    requires forall i :: 0 <= i < |cells| ==> cells[i].Letter? && IsAsciiLetter(cells[i].letter)
    ensures |LettersShowing(cells)| == |cells|
  {
    if cells != [] {
      assert IsAsciiLetter(CellText(cells[0])[0]);
      LetterCellsAllShow(cells[1..]);
    }
  }

  /** The cells of an unshaken grid are all unset. */
  lemma {:induction false} FlattenUnshaken(rows: seq<seq<Cell>>)
    requires IsUnshaken(rows)
    ensures forall i :: 0 <= i < |Flatten(rows)| ==> Flatten(rows)[i] == Unset
  {
    if rows != [] {
      FlattenUnshaken(rows[1..]);
      assert forall c :: 0 <= c < |rows[0]| ==> rows[0][c] == Unset;
    }
  }

  /** An unshaken grid shows no letter, while a grid shaken with dice of
      ASCII letters shows one letter per die. */
  lemma ShowingLettersTellsShakenFromUnshaken(rows: seq<seq<Cell>>, dice: seq<Die>, faces: seq<nat>)
    requires IsUnshaken(rows)
    requires |dice| == DiceCount && |faces| == DiceCount
    requires forall i :: 0 <= i < DiceCount ==> faces[i] < |dice[i].sides|
    requires forall i, j :: 0 <= i < DiceCount && 0 <= j < |dice[i].sides| ==> IsAsciiLetter(dice[i].sides[j])
    ensures LettersShowing(Flatten(rows)) == []
    ensures |LettersShowing(Flatten(Rows(RolledCells(dice, faces))))| == DiceCount
  {
    FlattenUnshaken(rows);
    UnsetCellsShowNoLetter(Flatten(rows));
    ShakenLettersAllShow(dice, faces);
  }

  /** A grid shaken with dice of ASCII letters shows one letter per die. */
  lemma ShakenLettersAllShow(dice: seq<Die>, faces: seq<nat>)
    requires |dice| == DiceCount && |faces| == DiceCount
    requires forall i :: 0 <= i < DiceCount ==> faces[i] < |dice[i].sides|
    requires forall i, j :: 0 <= i < DiceCount && 0 <= j < |dice[i].sides| ==> IsAsciiLetter(dice[i].sides[j])
    ensures |LettersShowing(Flatten(Rows(RolledCells(dice, faces))))| == DiceCount
  {
    var rolled := RolledCells(dice, faces);
    FlattenRows(rolled);
    LetterCellsAllShow(rolled);
  }

  /** The dice of the scenario setup: sixteen dice with `A` on all six faces. */
  function AllADice(): (dice: seq<Die>)
    ensures |dice| == DiceCount
    ensures forall i :: 0 <= i < DiceCount ==> dice[i] == Die("AAAAAA")
  {
    seq(DiceCount, _ => Die("AAAAAA"))
  }

  /** The board the shake scenario builds from dice that all roll `A`: the
      pattern `/A-Z/i` keeps none of its sixteen letters. */
  lemma AToZMissesShakenLetters(faces: seq<nat>)
    requires |faces| == DiceCount && forall i :: 0 <= i < DiceCount ==> faces[i] < 6
    ensures var rolled := RolledCells(AllADice(), faces);
      SelectedByAToZ(Flatten(Rows(rolled))) == [] &&
      |LettersShowing(Flatten(Rows(rolled)))| == DiceCount
  {
    var dice := AllADice();
    forall i, j | 0 <= i < DiceCount && 0 <= j < |dice[i].sides| ensures IsAsciiLetter(dice[i].sides[j]) {
      assert dice[i].sides == "AAAAAA";
    }
    ShakenLettersAllShow(dice, faces);
    AToZSelectsNoCell(Flatten(Rows(RolledCells(dice, faces))));
  }

  /** The `i`-th letter of the alphabet, for `i` below 26. */
  function AlphabetLetter(i: nat): (ch: char)
    requires i < 26
    ensures IsUpper(ch)
  {
    ('A' as int + i) as char
  }

  /** The shake scenario's dice: die `i` has the `i`-th letter on all six faces. */
  function AlphabetDice(): (dice: seq<Die>)
    ensures |dice| == DiceCount
    ensures forall i :: 0 <= i < DiceCount ==> |dice[i].sides| == 6
  {
    seq(DiceCount, i requires 0 <= i < DiceCount => Die(seq(6, _ => AlphabetLetter(i))))
  }

  /** Shaking the alphabet dice, whatever faces they land on, puts the first
      sixteen letters of the alphabet on the board, each exactly once. */
  lemma ShakenAlphabetDiceShowTheirLetters(faces: seq<nat>)
    requires |faces| == DiceCount && forall i :: 0 <= i < DiceCount ==> faces[i] < 6
    ensures multiset(Flatten(Rows(RolledCells(AlphabetDice(), faces)))) ==
      multiset(seq(DiceCount, i requires 0 <= i < DiceCount => Letter(AlphabetLetter(i))))
  {
    var rolled := RolledCells(AlphabetDice(), faces);
    FlattenRows(rolled);
    assert rolled == seq(DiceCount, i requires 0 <= i < DiceCount => Letter(AlphabetLetter(i)));
  }

  class BoggleBoard {
    /** The dice, in the order they were given. */
    const dice: seq<Die>
    /** The letter grid; row `r`, column `c` belongs to die `4 * r + c`. */
    const grid: array2<Cell>

    ghost predicate Valid()
      reads this
    {
      |dice| == DiceCount && grid.Length0 == Size && grid.Length1 == Size
    }

    /** `board`: the current grid, as four rows of four cells. */
    function Board(): (rows: seq<seq<Cell>>)
      reads this, grid
      requires Valid()
      ensures IsFourByFour(rows)
      ensures forall r, c :: 0 <= r < Size && 0 <= c < Size ==> rows[r][c] == grid[r, c]
    {
      seq(Size, r requires 0 <= r < Size reads grid =>
        seq(Size, c requires 0 <= c < Size reads grid => grid[r, c]))
    }

    /** A new board keeps the dice it is given and shows no letter yet. */
    constructor (dice: seq<Die>)
      requires |dice| == DiceCount
      ensures Valid() && fresh(grid)
      ensures this.dice == dice
      ensures IsUnshaken(Board())
      ensures LettersShowing(Flatten(Board())) == []
    {
      this.dice := dice;
      grid := new Cell[Size, Size]((r, c) => Unset);
      new;
      FlattenUnshaken(Board());
      UnsetCellsShowNoLetter(Flatten(Board()));
    }

    /** Builds a board, failing when it is not given exactly sixteen dice. */
    static method New(dice: seq<Die>) returns (result: Result<BoggleBoard, BoardError>)
      ensures result.Failure? <==> |dice| != DiceCount
      ensures result.Failure? ==> result.error == InvalidDiceCount
      ensures result.Success? ==>
        var b := result.value;
        b.Valid() && fresh(b.grid) && b.dice == dice && IsUnshaken(b.Board())
    {
      if |dice| != DiceCount {
        return Failure(InvalidDiceCount);
      }
      var b := new BoggleBoard(dice);
      return Success(b);
    }

    /** `shake`: every die is rolled, landing on the face `faces` gives it, and
        its letter overwrites its own cell. */
    method Shake(faces: seq<nat>)
      requires Valid()
      requires |faces| == DiceCount
      requires forall i :: 0 <= i < DiceCount ==> faces[i] < |dice[i].sides|
      modifies grid
      ensures Valid()
      ensures Board() == Rows(RolledCells(dice, faces))
      ensures Flatten(Board()) == RolledCells(dice, faces)
      ensures multiset(Flatten(Board())) == multiset(RolledCells(dice, faces))
      ensures old(IsUnshaken(Board())) ==> Board() != old(Board())
    {
      for r := 0 to Size
        invariant forall i, j :: 0 <= i < r && 0 <= j < Size ==>
          grid[i, j] == Letter(Roll(dice[Size * i + j], faces[Size * i + j]))
      {
        for c := 0 to Size
          invariant forall i, j :: 0 <= i < r && 0 <= j < Size ==>
            grid[i, j] == Letter(Roll(dice[Size * i + j], faces[Size * i + j]))
          invariant forall j :: 0 <= j < c ==>
            grid[r, j] == Letter(Roll(dice[Size * r + j], faces[Size * r + j]))
        {
          grid[r, c] := Letter(Roll(dice[Size * r + c], faces[Size * r + c]));
        }
      }
      var rolled := RolledCells(dice, faces);
      forall r | 0 <= r < Size ensures Board()[r] == Rows(rolled)[r] {
        assert forall c :: 0 <= c < Size ==> Board()[r][c] == Rows(rolled)[r][c];
      }
      FlattenRows(rolled);
      if old(IsUnshaken(Board())) {
        assert Board()[0][0] != Unset;
      }
    }
  }
}
