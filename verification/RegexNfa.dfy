/** The transition array read as an automaton: what one cell does when the
    closure walk or the generated matcher reaches it. */
module RegexNfa {
  import opened RegexSyntax

  type Cells = seq<Item>

  /** Index of the RngEnd that closes the bracket whose members start at `i`. */
  function RangeClose(cells: Cells, i: nat): (r: nat)
    requires i <= |cells|
    ensures i <= r
    decreases |cells| - i
  {
    if i + 1 < |cells| && cells[i].RngLeft? then
      (if i + 2 <= |cells| then RangeClose(cells, i + 2) else i)
    else if i < |cells| && cells[i].RngChar? then RangeClose(cells, i + 1)
    else i
  }

  /** Whether `c` is hit by one of the members from `i` to the closing RngEnd. */
  predicate RangeHit(cells: Cells, i: nat, c: int)
    requires i <= |cells|
    decreases |cells| - i
  {
    if i + 1 < |cells| && cells[i].RngLeft? then
      (cells[i + 1].RngRight? && cells[i].c <= c <= cells[i + 1].c) || RangeHit(cells, i + 2, c)
    else if i < |cells| && cells[i].RngChar? then c == cells[i].c || RangeHit(cells, i + 1, c)
    else false
  }

  /** The cell `i` is a term that consumes the character `c`. */
  predicate Consumes(cells: Cells, i: int, c: int) {
    0 <= i < |cells| &&
    match cells[i]
    case Chr(x) => x == c
    case RngStart(invert) => RangeHit(cells, i + 1, c) != invert
    case _ => false
  }

  /** Where the walk goes on after the term at `i` has consumed its character. */
  function AfterTerm(cells: Cells, i: nat): nat
    requires i < |cells|
  {
    if cells[i].RngStart? then RangeClose(cells, i + 1) + 1 else i + 1
  }

  /** Cells that are states of their own: `search_states[].type >= 0`. */
  predicate IsState(cell: Item) {
    cell.Begin? || cell.End? || cell.Chr? || cell.RngStart? || cell.RngEnd?
  }

  /** Steps that consume nothing. */
  predicate EpsStep(cells: Cells, i: int, j: int) {
    0 <= i < |cells| &&
    match cells[i]
    case Branch(t) => j == i + 1 || j == t
    case Jump(t) => j == t
    case cell => !IsState(cell) && j == i + 1
  }

  /** A run of exactly `n` steps from `i` to `f` that consumes `w`. */
  ghost predicate Run(cells: Cells, i: int, w: Word, f: int, n: nat)
    decreases n
  {
    if n == 0 then i == f && w == []
    else
      (exists j :: EpsStep(cells, i, j) && Run(cells, j, w, f, n - 1)) ||
      (w != [] && Consumes(cells, i, w[0]) && Run(cells, AfterTerm(cells, i), w[1..], f, n - 1))
  }

  ghost predicate Reaches(cells: Cells, i: int, w: Word, f: int) {
    exists n: nat :: Run(cells, i, w, f, n)
  }

  /** A run from the cell after `Begin` to the last cell consumes exactly `w`. */
  ghost predicate Accepts(cells: Cells, w: Word) {
    Reaches(cells, 1, w, |cells| - 1)
  }
}
