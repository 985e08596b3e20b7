/** One cell of the playable board (minesweeper/game.py, class Cell): its state, the
    one-character save format, the sprite it is drawn with, and the cell type a director is
    shown for that sprite. */
module GameCell {
  import opened Common
  import opened DirectorBase

  /** `losing` marks the mine whose click lost the game. */
  datatype CellState = CellState(mine: bool, flagged: bool, revealed: bool, losing: bool)

  const Fresh := CellState(false, false, false, false)

  /** The states play produces: no cell is both flagged and revealed, and the losing mine is
      exactly a revealed mine. */
  predicate Reachable(c: CellState) {
    !(c.flagged && c.revealed) && (c.losing <==> c.mine && c.revealed)
  }

  /** The save character of a cell: a mine is `*` when it lost the game, `F` when flagged and
      `O` otherwise; a safe cell is `f` when flagged, `.` when revealed and `#` otherwise. */
  function CellChar(c: CellState): (ch: char)
    ensures ch in "*FOf.#"
    ensures ch in "*FO" <==> c.mine
  {
    if c.mine then
      if c.losing then '*' else if c.flagged then 'F' else 'O'
    else if c.flagged then 'f'
    else if c.revealed then '.'
    else '#'
  }

  /** Loading a character into a fresh cell. Any character outside the save format loads as a
      hidden safe cell, and it saves back as `#`. */
  function CellFromChar(ch: char): (c: CellState)
    ensures CellChar(c) == if ch in "*FOf." then ch else '#'
    ensures c.mine <==> ch in "*FO"
  {
    if ch == '*' then Fresh.(mine := true, losing := true)
    else if ch == 'F' then Fresh.(mine := true, flagged := true)
    else if ch == 'O' then Fresh.(mine := true)
    else if ch == 'f' then Fresh.(flagged := true)
    else if ch == '.' then Fresh.(revealed := true)
    else Fresh
  }

  /** Saving and loading restores every state play produces, except that the losing mine comes
      back hidden: the loader marks it as the losing mine without revealing it. */
  lemma CellRoundTrip(c: CellState)
    requires Reachable(c)
    ensures !c.losing ==> CellFromChar(CellChar(c)) == c
    ensures c.losing ==> CellFromChar(CellChar(c)) == c.(revealed := false)
  {
  }

  datatype Sprite =
    | MineLosing | MineShown | NumberSprite(n: int) | EmptySprite
    | FlagSprite | FlagWrong | MineUnrevealed | UnrevealedSprite

  /** The sprite a cell is drawn with, given its cached number (none for a mine that never had
      one) and whether the game is over. */
  function SpriteOf(c: CellState, number: Option<int>, gameOver: bool): (s: Sprite)
    ensures s.MineLosing? || s.MineShown? ==> c.revealed && c.mine
    ensures s.FlagWrong? || s.MineUnrevealed? ==> gameOver
    ensures s.NumberSprite? ==> number == Some(s.n) && s.n != 0
  {
    if c.revealed then
      if c.mine then (if c.losing then MineLosing else MineShown)
      else if number.Some? && number.value != 0 then NumberSprite(number.value)
      else EmptySprite
    else if c.flagged then
      if c.mine || !gameOver then FlagSprite else FlagWrong
    else if gameOver && c.mine then MineUnrevealed
    else UnrevealedSprite
  }

  /** While the game is on, the sprite of a cell that is not revealed does not depend on
      whether it holds a mine. */
  lemma SpriteHidesMines(c: CellState, number: Option<int>, other: Option<int>)
    requires !c.revealed
    ensures SpriteOf(c, number, false) == SpriteOf(c.(mine := !c.mine), other, false)
    ensures SpriteOf(c, number, false) == if c.flagged then FlagSprite else UnrevealedSprite
  {
  }

  /** The cell type a director is shown for a sprite: the number, 0 for an empty cell, a flag
      or an unrevealed cell; the mine sprites have no type. */
  function DirectorType(s: Sprite): (t: Option<int>)
    ensures t.Some? <==> s.NumberSprite? || s.EmptySprite? || s.FlagSprite? || s.UnrevealedSprite?
    ensures t.Some? && !s.NumberSprite? ==> t.value in {TypeNumber0, TypeFlag, TypeUnrevealed}
  {
    match s
    case NumberSprite(n) => Some(n)
    case EmptySprite => Some(TypeNumber0)
    case FlagSprite => Some(TypeFlag)
    case UnrevealedSprite => Some(TypeUnrevealed)
    case _ => None
  }

  /** What a director sees of a cell during play: hidden cells read as unrevealed or flagged,
      revealed safe cells as their number; a revealed mine has no type. */
  lemma DirectorSeesCell(c: CellState, number: Option<int>)
    requires !(c.revealed && c.mine) && !(c.revealed && c.flagged)
    requires number.Some? ==> 0 <= number.value <= 8
    ensures var t := DirectorType(SpriteOf(c, number, false));
            && t.Some?
            && (IsUnrevealed(t.value) <==> !c.revealed && !c.flagged)
            && (IsFlagged(t.value) <==> c.flagged)
            && (c.revealed && number.Some? ==> t.value == number.value)
  {
  }
}
