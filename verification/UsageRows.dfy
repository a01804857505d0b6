/** The iterator over the parts of a usage row: cells are separated by tabs, the lines within a cell by vertical
    tabs. */
module UsageRows {

  const TAB := '\t'
  const VTAB := '\U{000B}'
  const NEWLINE := '\n'

  /** A row ends at a newline or at the end of the help text. */
  predicate RowEnds(x: string, p: nat)
    requires p <= |x|
  {
    p == |x| || x[p] == NEWLINE
  }

  predicate CellEnds(x: string, p: nat)
    requires p <= |x|
  {
    RowEnds(x, p) || x[p] == TAB
  }

  predicate LineEnds(x: string, p: nat)
    requires p <= |x|
  {
    CellEnds(x, p) || x[p] == VTAB
  }

  // ---------------------------------------------------------- what the parts are

  function LineEnd(x: string, p: nat): (q: nat)
    requires p <= |x|
    ensures p <= q <= |x| && LineEnds(x, q) && forall k :: p <= k < q ==> !LineEnds(x, k)
    decreases |x| - p
  {
    if LineEnds(x, p) then p else LineEnd(x, p + 1)
  }

  function CellEnd(x: string, p: nat): (q: nat)
    requires p <= |x|
    ensures p <= q <= |x| && CellEnds(x, q) && forall k :: p <= k < q ==> !CellEnds(x, k)
    decreases |x| - p
  {
    if CellEnds(x, p) then p else CellEnd(x, p + 1)
  }

  /** How many cells the row has from a place in it on. */
  function Columns(x: string, p: nat): (n: nat)
    requires p <= |x|
    ensures n > 0
    decreases |x| - p
  {
    var q := CellEnd(x, p);
    if RowEnds(x, q) then 1 else 1 + Columns(x, q + 1)
  }

  /** Where the cell with the given index begins. */
  function CellStart(x: string, s: nat, c: nat): (p: nat)
    requires s <= |x| && c < Columns(x, s)
    ensures s <= p <= |x|
    decreases |x| - s
  {
    if c == 0 then s else CellStart(x, CellEnd(x, s) + 1, c - 1)
  }

  /** The vertical tabs of a cell from a place in it on. */
  function Breaks(x: string, p: nat): nat
    requires p <= |x|
    decreases |x| - p
  {
    var q := LineEnd(x, p);
    if CellEnds(x, q) then 0 else 1 + Breaks(x, q + 1)
  }

  function Max(a: nat, b: nat): nat { if a < b then b else a }

  /** The most vertical tabs in any cell. */
  function MostBreaks(x: string, p: nat): nat
    requires p <= |x|
    decreases |x| - p
  {
    var q := CellEnd(x, p);
    if RowEnds(x, q) then Breaks(x, p) else Max(Breaks(x, p), MostBreaks(x, q + 1))
  }

  /** A part: where it begins and how long it is. */
  datatype Part = Part(at: nat, length: nat)

  /** The line with the given index of the cell that begins at p; a cell with too few lines has an empty part at its
      end. */
  function LineOf(x: string, p: nat, t: nat): Part
    requires p <= |x|
    decreases |x| - p
  {
    var q := LineEnd(x, p);
    if t == 0 then Part(p, q - p)
    else if CellEnds(x, q) then Part(q, 0)
    else LineOf(x, q + 1, t - 1)
  }

  function PartAt(x: string, s: nat, t: nat, c: nat): Part
    requires s <= |x| && c < Columns(x, s)
  {
    LineOf(x, CellStart(x, s, c), t)
  }

  // ------------------------------------------------------------------- their order

  function LineParts(x: string, s: nat, t: nat): (r: seq<Part>)
    requires s <= |x|
    ensures |r| == Columns(x, s)
  {
    seq(Columns(x, s), c requires 0 <= c < Columns(x, s) => PartAt(x, s, t, c))
  }

  /** The lines below t, each with one part for every column. */
  function PartsBelow(x: string, s: nat, t: nat): (r: seq<Part>)
    requires s <= |x|
    ensures |r| == t * Columns(x, s)
  {
    if t == 0 then [] else PartsBelow(x, s, t - 1) + LineParts(x, s, t - 1)
  }

  /** The most breaks from a place in a cell on, when the cell has had so many already. */
  function MostFrom(x: string, p: nat, line: nat): nat
    requires p <= |x|
  {
    var q := CellEnd(x, p);
    if RowEnds(x, q) then line + Breaks(x, p) else Max(line + Breaks(x, p), MostBreaks(x, q + 1))
  }

  lemma {:induction false} NextCell(x: string, s: nat, c: nat)
    requires s <= |x| && c < Columns(x, s)
    ensures Columns(x, s) == c + Columns(x, CellStart(x, s, c))
    ensures var q := CellEnd(x, CellStart(x, s, c));
      if RowEnds(x, q) then c + 1 == Columns(x, s) else c + 1 < Columns(x, s) && CellStart(x, s, c + 1) == q + 1
    decreases c
  {
    if c > 0 {
      NextCell(x, CellEnd(x, s) + 1, c - 1);
    }
  }

  /** A character that ends no line changes nothing that is looked for behind it. */
  lemma Passing(x: string, p: nat)
    requires p < |x| && !LineEnds(x, p)
    ensures LineEnd(x, p) == LineEnd(x, p + 1) && CellEnd(x, p) == CellEnd(x, p + 1)
    ensures Breaks(x, p) == Breaks(x, p + 1)
    ensures forall k: nat :: k > 0 ==> LineOf(x, p, k) == LineOf(x, p + 1, k)
  {}

  lemma Breaking(x: string, p: nat)
    requires p < |x| && x[p] == VTAB
    ensures CellEnd(x, p) == CellEnd(x, p + 1) && Breaks(x, p) == 1 + Breaks(x, p + 1)
    ensures forall k: nat :: k > 0 ==> LineOf(x, p, k) == LineOf(x, p + 1, k - 1)
  {}

  lemma EndingCell(x: string, p: nat)
    requires p <= |x| && CellEnds(x, p)
    ensures CellEnd(x, p) == p && Breaks(x, p) == 0 && forall k: nat :: LineOf(x, p, k) == Part(p, 0)
  {}

  /** The place in a row: in the cell of a column, behind so many of its breaks, with the most breaks counted so far. */
  ghost predicate Place(x: string, s: nat, p: nat, c: int, line: nat, most: nat, target: nat) {
    && s <= p <= |x| && 0 <= c < Columns(x, s)
    && CellEnd(x, p) == CellEnd(x, CellStart(x, s, c))
    && line + Breaks(x, p) == Breaks(x, CellStart(x, s, c))
    && line <= most
    && Max(most, MostFrom(x, p, line)) == MostBreaks(x, s)
    && (target > 0 ==> most == MostBreaks(x, s))
    && target <= MostBreaks(x, s)
  }

  lemma PlacePasses(x: string, s: nat, p: nat, c: int, line: nat, most: nat, target: nat)
    requires Place(x, s, p, c, line, most, target) && !LineEnds(x, p)
    ensures Place(x, s, p + 1, c, line, most, target)
  {
    Passing(x, p);
    hide CellEnd, Breaks, MostBreaks, CellStart, Columns;
  }

  lemma PlaceBreaks(x: string, s: nat, p: nat, c: int, line: nat, most: nat, target: nat)
    requires Place(x, s, p, c, line, most, target) && !CellEnds(x, p) && x[p] == VTAB
    ensures Place(x, s, p + 1, c, line + 1, Max(most, line + 1), target)
  {
    Breaking(x, p);
    hide CellEnd, Breaks, MostBreaks, CellStart, Columns;
  }

  lemma PlaceMoves(x: string, s: nat, p: nat, c: int, line: nat, most: nat, target: nat)
    requires Place(x, s, p, c, line, most, target) && CellEnds(x, p) && !RowEnds(x, p)
    ensures c + 1 < Columns(x, s) && CellStart(x, s, c + 1) == p + 1
    ensures Place(x, s, p + 1, c + 1, 0, most, target)
  {
    EndingCell(x, p);
    NextCell(x, s, c);
    MostFromStart(x, p + 1);
    hide CellEnd, Breaks, MostBreaks, CellStart, Columns;
  }

  lemma MostFromStart(x: string, p: nat)
    requires p <= |x|
    ensures MostFrom(x, p, 0) == MostBreaks(x, p)
  {}

  lemma PlaceRestarts(x: string, s: nat, p: nat, c: int, line: nat, most: nat, target: nat)
    requires Place(x, s, p, c, line, most, target) && RowEnds(x, p)
    ensures c + 1 == Columns(x, s) && most == MostBreaks(x, s)
    ensures target < most ==> Place(x, s, s, 0, 0, most, target + 1)
  {
    EndingCell(x, p);
    NextCell(x, s, c);
    MostFromStart(x, s);
    hide CellEnd, Breaks, MostBreaks, Columns;
  }

  lemma PlaceStarts(x: string, s: nat)
    requires s <= |x|
    ensures Place(x, s, s, 0, 0, 0, 0)
  {
    MostFromStart(x, s);
    hide CellEnd, Breaks, MostBreaks, Columns, MostFrom;
  }

  lemma {:induction false} PlacePassesTo(x: string, s: nat, p: nat, q: nat, c: int, line: nat, most: nat, target: nat)
    requires Place(x, s, p, c, line, most, target) && p <= q <= LineEnd(x, p)
    ensures Place(x, s, q, c, line, most, target)
    decreases q - p
  {
    hide Place;
    if p < q {
      PlaceInside(x, s, p, c, line, most, target);
      PlacePasses(x, s, p, c, line, most, target);
      PlacePassesTo(x, s, p + 1, q, c, line, most, target);
    }
  }

  lemma PlaceInside(x: string, s: nat, p: nat, c: int, line: nat, most: nat, target: nat)
    requires Place(x, s, p, c, line, most, target)
    ensures s <= p <= |x| && 0 <= c < Columns(x, s)
  {}

  lemma {:induction false} LineOfShape(x: string, p: nat, t: nat)
    requires p <= |x|
    ensures var r := LineOf(x, p, t); r.at <= |x| && r.at + r.length == LineEnd(x, r.at)
    decreases |x| - p
  {
    var q := LineEnd(x, p);
    if t > 0 && !CellEnds(x, q) {
      LineOfShape(x, q + 1, t - 1);
    }
  }

  /** Behind a part the cell goes on with a break, or ends. */
  lemma PartEnds(x: string, s: nat, p: nat, len: nat, t: nat, c: int, line: nat, most: nat)
    requires Place(x, s, p, c, line, most, t) && Part(p, len) == PartAt(x, s, t, c)
    ensures p + len <= |x| && LineEnds(x, p + len) && Place(x, s, p + len, c, line, most, t)
    ensures CellEnds(x, p) ==> len == 0
  {
    LineOfShape(x, CellStart(x, s, c), t);
    hide Place;
    PlacePassesTo(x, s, p, p + len, c, line, most, t);
  }

  /** A line of the column is still ahead. */
  ghost predicate Seeks(x: string, s: nat, p: nat, line: nat, target: nat, c: int) {
    p <= |x| && s <= |x| && 0 <= c < Columns(x, s) && line < target
      && LineOf(x, p, target - line) == PartAt(x, s, target, c)
  }

  lemma SeekPasses(x: string, s: nat, p: nat, line: nat, target: nat, c: int)
    requires Seeks(x, s, p, line, target, c) && !LineEnds(x, p)
    ensures Seeks(x, s, p + 1, line, target, c)
  {
    Passing(x, p);
    hide LineOf, Columns, CellStart;
  }

  lemma SeekBreaks(x: string, s: nat, p: nat, line: nat, target: nat, c: int)
    requires Seeks(x, s, p, line, target, c) && !CellEnds(x, p) && x[p] == VTAB
    ensures if line + 1 == target then PartAt(x, s, target, c) == Part(p + 1, LineEnd(x, p + 1) - (p + 1))
      else Seeks(x, s, p + 1, line + 1, target, c)
  {
    Breaking(x, p);
    hide Columns, CellStart;
  }

  lemma SeekFails(x: string, s: nat, p: nat, line: nat, target: nat, c: int)
    requires Seeks(x, s, p, line, target, c) && CellEnds(x, p)
    ensures PartAt(x, s, target, c) == Part(p, 0) && LineEnd(x, p) == p
  {
    EndingCell(x, p);
    hide Columns, CellStart;
  }

  /** At the start of a cell its first line is here and any other one is ahead. */
  lemma SeekStarts(x: string, s: nat, c: int, target: nat)
    requires s <= |x| && 0 <= c < Columns(x, s)
    ensures var p := CellStart(x, s, c);
      if target == 0 then PartAt(x, s, 0, c) == Part(p, LineEnd(x, p) - p) else Seeks(x, s, p, 0, target, c)
  {}

  /** Between two parts: behind the one with line t and column c, or ahead of the one that comes next. */
  ghost predicate Walk(x: string, s: nat, p: nat, col: int, line: nat, most: nat, target: nat, hit: bool, t: nat,
                       c: nat) {
    && Place(x, s, p, col, line, most, target)
    && if hit then
         target == t && col == c && (line > t || CellEnds(x, p) || (line == t && LineEnds(x, p)))
       else
         Seeks(x, s, p, line, target, col) &&
         if c + 1 < Columns(x, s) then target == t && col == c + 1
         else target == t + 1 && t < MostBreaks(x, s) && col == 0
  }

  /** The part that comes next is here, with this length. */
  ghost predicate Found(x: string, s: nat, p: nat, col: int, line: nat, most: nat, target: nat, length: nat, t: nat,
                        c: nat) {
    && Place(x, s, p, col, line, most, target)
    && Part(p, length) == PartAt(x, s, target, col)
    && (line == target || (line < target && CellEnds(x, p)))
    && if c + 1 < Columns(x, s) then target == t && col == c + 1
       else target == t + 1 && t < MostBreaks(x, s) && col == 0
  }

  lemma WalkBounds(x: string, s: nat, p: nat, col: int, line: nat, most: nat, target: nat, hit: bool, t: nat, c: nat)
    requires Walk(x, s, p, col, line, most, target, hit, t, c)
    ensures s <= p <= |x| && 0 <= col
  {}

  lemma WalkStarts(x: string, s: nat, p: nat, len: nat, t: nat, c: nat, line: nat, most: nat)
    requires Place(x, s, p, c, line, most, t) && Part(p, len) == PartAt(x, s, t, c)
      && (line == t || (line < t && CellEnds(x, p)))
    ensures p + len <= |x| && Walk(x, s, p + len, c, line, most, t, true, t, c)
  {
    PartEnds(x, s, p, len, t, c, line, most);
    hide Place, PartAt, LineEnd;
  }

  lemma WalkPasses(x: string, s: nat, p: nat, col: int, line: nat, most: nat, target: nat, hit: bool, t: nat, c: nat)
    requires Walk(x, s, p, col, line, most, target, hit, t, c) && p < |x| && !LineEnds(x, p)
    ensures Walk(x, s, p + 1, col, line, most, target, hit, t, c)
  {
    hide Place, Seeks, Columns, MostBreaks;
    PlacePasses(x, s, p, col, line, most, target);
    if !hit {
      SeekPasses(x, s, p, line, target, col);
    }
  }

  lemma WalkBreaks(x: string, s: nat, p: nat, col: int, line: nat, most: nat, target: nat, hit: bool, t: nat, c: nat)
    requires Walk(x, s, p, col, line, most, target, hit, t, c) && p < |x| && !CellEnds(x, p) && x[p] == VTAB
    ensures if line + 1 == target then Found(x, s, p + 1, col, line
      + 1, Max(most, line + 1), target, LineEnd(x, p + 1) - (p + 1), t, c)
      else Walk(x, s, p + 1, col, line + 1, Max(most, line + 1), target, hit, t, c)
  {
    hide Place, Columns, MostBreaks, PartAt, LineEnd;
    PlaceBreaks(x, s, p, col, line, most, target);
    if !hit {
      SeekBreaks(x, s, p, line, target, col);
    }
  }

  lemma WalkMoves(x: string, s: nat, p: nat, col: int, line: nat, most: nat, target: nat, t: nat, c: nat)
    requires Walk(x, s, p, col, line, most, target, true, t, c) && p < |x| && CellEnds(x, p) && !RowEnds(x, p)
    ensures if target == 0 then Found(x, s, p + 1, col + 1, 0, most, 0, LineEnd(x, p + 1) - (p + 1), t, c)
      else Walk(x, s, p + 1, col + 1, 0, most, target, false, t, c)
  {
    hide Place, Columns, MostBreaks, PartAt, LineEnd, CellStart, Seeks;
    PlaceMoves(x, s, p, col, line, most, target);
    PlaceInside(x, s, p + 1, col + 1, 0, most, target);
    SeekStarts(x, s, col + 1, target);
  }

  lemma WalkRestarts(x: string, s: nat, p: nat, col: int, line: nat, most: nat, target: nat, t: nat, c: nat)
    requires Walk(x, s, p, col, line, most, target, true, t, c) && RowEnds(x, p)
    ensures c + 1 == Columns(x, s) && most == MostBreaks(x, s)
    ensures target < most ==> Walk(x, s, s, 0, 0, most, target + 1, false, t, c)
  {
    hide Place, MostBreaks, PartAt, LineEnd, Seeks;
    PlaceRestarts(x, s, p, col, line, most, target);
    PlaceInside(x, s, p, col, line, most, target);
    SeekStarts(x, s, 0, target + 1);
  }

  lemma WalkFails(x: string, s: nat, p: nat, col: int, line: nat, most: nat, target: nat, t: nat, c: nat)
    requires Walk(x, s, p, col, line, most, target, false, t, c) && CellEnds(x, p)
    ensures Found(x, s, p, col, line, most, target, 0, t, c) && LineEnd(x, p) == p
  {
    hide Place, Columns, MostBreaks, PartAt, LineEnd;
    SeekFails(x, s, p, line, target, col);
  }

  // -------------------------------------------------------------------- the iterator

  class LinePartIterator {
    const help: string
    const rowstart: nat
    var ptr: nat
    var col: int
    var len: nat
    var maxLineInBlock: nat
    var lineInBlock: nat
    var targetLineInBlock: nat
    var hitTargetLine: bool

    /** No part has been returned yet. */
    ghost predicate AtRow()
      reads this
    {
      && rowstart <= |help| && ptr == rowstart && col == -1 && len == 0
      && maxLineInBlock == lineInBlock == targetLineInBlock == 0 && hitTargetLine
    }

    ghost predicate InRow()
      reads this
    {
      rowstart <= ptr <= |help| && 0 <= col
        && Place(help, rowstart, ptr, col, lineInBlock, maxLineInBlock, targetLineInBlock)
    }

    /** The part with this line and column is the current one. */
    ghost predicate AtPart(t: nat, c: nat)
      reads this
    {
      && InRow() && col == c && targetLineInBlock == t && hitTargetLine
      && Part(ptr, len) == PartAt(help, rowstart, t, c)
      && (lineInBlock == t || (lineInBlock < t && CellEnds(help, ptr)))
    }

    ghost predicate AtCurrent()
      reads this
    {
      col >= 0 && AtPart(targetLineInBlock, col)
    }

    constructor (help: string, rowstart: nat)
      requires rowstart <= |help|
      ensures AtRow() && this.help == help && this.rowstart == rowstart
    {
      this.help, this.rowstart := help, rowstart;
      ptr, col, len := rowstart, -1, 0;
      maxLineInBlock, lineInBlock, targetLineInBlock, hitTargetLine := 0, 0, 0, true;
    }

    /** The length in bytes; a byte that begins a longer character takes its continuation bytes along. */
    method UpdateLength()
      requires ptr <= |help|
      modifies `len
      ensures ptr + len == LineEnd(help, ptr)
    {
      len := 0;
      while !LineEnds(help, ptr + len)
        invariant ptr + len <= LineEnd(help, ptr)
        decreases |help| - ptr - len
      {
        if help[ptr + len] > '\U{00C1}' {
          while ptr + len + 1 < |help| && '\U{0080}' <= help[ptr + len + 1] <= '\U{00BF}'
            invariant ptr + len < LineEnd(help, ptr)
            decreases |help| - ptr - len
          {
            len := len + 1;
          }
        }
        len := len + 1;
      }
    }

    /** The first call stays in the first line of the first column. */
    method FirstPart()
      requires AtRow()
      modifies `col, `len
      ensures AtPart(0, 0)
    {
      hide CellEnd, Breaks, MostBreaks, CellStart, Columns, LineOf, Place, LineEnd, MostFrom, Seeks;
      PlaceStarts(help, rowstart);
      SeekStarts(help, rowstart, 0, 0);
      StartOfRow(help, rowstart);
      col := 0;
      UpdateLength();
    }

    /** Moves to the next part in order: the same line of the next column, then the first column of the next line. */
    method Next() returns (more: bool)
      requires AtRow() || AtCurrent()
      modifies this
      ensures if old(AtRow()) then more && AtPart(0, 0)
        else if old(col) + 1 < Columns(help, rowstart) then more && AtPart(old(targetLineInBlock), old(col) + 1)
        else if old(targetLineInBlock) < MostBreaks(help, rowstart) then more && AtPart(old(targetLineInBlock) + 1, 0)
        else !more
    {
      hide CellEnd, Breaks, MostBreaks, CellStart, Columns, LineOf, Place, LineEnd, MostFrom, Seeks, PartAt;
      if col == -1 {
        FirstPart();
        return true;
      }
      ghost var t, c := targetLineInBlock, col;
      WalkStarts(help, rowstart, ptr, len, t, c, lineInBlock, maxLineInBlock);
      hide LineEnds;
      ptr := ptr + len;
      while true
        invariant Walk(help, rowstart, ptr, col, lineInBlock, maxLineInBlock, targetLineInBlock, hitTargetLine, t, c)
        decreases hitTargetLine, |help| - ptr
      {
        hide Walk, Found;
        WalkBounds(help, rowstart, ptr, col, lineInBlock, maxLineInBlock, targetLineInBlock, hitTargetLine, t, c);
        if RowEnds(help, ptr) {
          if !hitTargetLine {
            WalkFails(help, rowstart, ptr, col, lineInBlock, maxLineInBlock, targetLineInBlock, t, c);
            more := Return(t, c, 0);
            return;
          }
          WalkRestarts(help, rowstart, ptr, col, lineInBlock, maxLineInBlock, targetLineInBlock, t, c);
          targetLineInBlock := targetLineInBlock + 1;
          if targetLineInBlock > maxLineInBlock {
            UpdateLength();
            return false;
          }
          hitTargetLine := false;
          lineInBlock := 0;
          col := 0;
          ptr := rowstart;
          continue;
        } else if help[ptr] == VTAB {
          WalkBreaks(help, rowstart, ptr, col, lineInBlock, maxLineInBlock, targetLineInBlock, hitTargetLine, t, c);
          lineInBlock := lineInBlock + 1;
          maxLineInBlock := Max(maxLineInBlock, lineInBlock);
          ptr := ptr + 1;
        } else if help[ptr] == TAB {
          if !hitTargetLine {
            WalkFails(help, rowstart, ptr, col, lineInBlock, maxLineInBlock, targetLineInBlock, t, c);
            more := Return(t, c, 0);
            return;
          }
          WalkMoves(help, rowstart, ptr, col, lineInBlock, maxLineInBlock, targetLineInBlock, t, c);
          hitTargetLine := false;
          lineInBlock := 0;
          col := col + 1;
          ptr := ptr + 1;
        } else {
          WalkPasses(help, rowstart, ptr, col, lineInBlock, maxLineInBlock, targetLineInBlock, hitTargetLine, t, c);
          ptr := ptr + 1;
          continue;
        }
        if lineInBlock == targetLineInBlock {
          more := Return(t, c, LineEnd(help, ptr) - ptr);
          return;
        }
      }
    }

    /** The current place becomes the part that is returned. */
    method Return(ghost t: nat, ghost c: nat, ghost length: nat) returns (more: bool)
      requires ptr <= |help| && Found(help, rowstart, ptr, col, lineInBlock, maxLineInBlock, targetLineInBlock, length,
                                      t, c)
      requires length == LineEnd(help, ptr) - ptr && rowstart <= ptr && 0 <= col
      modifies this
      ensures more
      ensures if c + 1 < Columns(help, rowstart) then AtPart(t, c + 1)
              else t < MostBreaks(help, rowstart) && AtPart(t + 1, 0)
    {
      hide Place, PartAt, LineEnd, Columns, MostBreaks;
      UpdateLength();
      hitTargetLine := true;
      more := true;
    }

    /** Calling Next until it fails: every line in order, each with one part for every column. */
    method Parts() returns (parts: seq<Part>)
      requires AtRow()
      modifies this
      ensures parts == PartsBelow(help, rowstart, MostBreaks(help, rowstart) + 1)
    {
      hide Columns, MostBreaks, Place, PartAt, PartsBelow, LineParts;
      parts := [];
      ghost var t, c: nat := 0, 0;
      FirstLine(help, rowstart);
      while true
        invariant if |parts| == 0 then AtRow() && t == 0 && c == 0
          else 0 < c <= Columns(help, rowstart) && t <= MostBreaks(help, rowstart) && AtPart(t, c - 1)
        invariant c <= Columns(help, rowstart)
          && parts == PartsBelow(help, rowstart, t) + LineParts(help, rowstart, t)[..c]
        decreases MostBreaks(help, rowstart) - t, Columns(help, rowstart) - c
      {
        var more := Next();
        if !more {
          LineDone(help, rowstart, t, c);
          return;
        }
        LineDone(help, rowstart, t, c);
        if c == Columns(help, rowstart) {
          t, c := t + 1, 0;
        }
        parts := parts + [Part(ptr, len)];
        LineGrows(help, rowstart, t, c);
        c := c + 1;
      }
    }
  }

  lemma FirstLine(x: string, s: nat)
    requires s <= |x|
    ensures [] == PartsBelow(x, s, 0) + LineParts(x, s, 0)[..0]
  {}

  lemma LineDone(x: string, s: nat, t: nat, c: nat)
    requires s <= |x| && c <= Columns(x, s)
    ensures |LineParts(x, s, t)| == Columns(x, s)
    ensures c == Columns(x, s)
      ==> PartsBelow(x, s, t) + LineParts(x, s, t)[..c] == PartsBelow(x, s, t + 1) + LineParts(x, s, t + 1)[..0]
    ensures c == Columns(x, s) ==> PartsBelow(x, s, t) + LineParts(x, s, t)[..c] == PartsBelow(x, s, t + 1)
  {
    hide Columns, PartAt;
    assert LineParts(x, s, t)[..Columns(x, s)] == LineParts(x, s, t);
  }

  lemma LineGrows(x: string, s: nat, t: nat, c: nat)
    requires s <= |x| && c < Columns(x, s)
    ensures LineParts(x, s, t)[..c + 1] == LineParts(x, s, t)[..c] + [PartAt(x, s, t, c)]
  {
    hide Columns, PartAt;
  }

  lemma StartOfRow(x: string, s: nat)
    requires s <= |x|
    ensures CellStart(x, s, 0) == s && Columns(x, s) > 0
  {}
}
