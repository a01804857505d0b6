/** The parts of a usage row are its text: joined again with the separators they give the row. */
module UsageRules {
  import opened UsageRows

  function TextOf(x: string, p: Part): string
    requires p.at + p.length <= |x|
  {
    x[p.at..p.at + p.length]
  }

  function Joined(pieces: seq<string>, sep: char): string {
    if pieces == [] then ""
    else if |pieces| == 1 then pieces[0]
    else pieces[0] + [sep] + Joined(pieces[1..], sep)
  }

  lemma JoinedHead(first: string, rest: seq<string>, sep: char)
    requires rest != []
    ensures Joined([first] + rest, sep) == first + [sep] + Joined(rest, sep)
  {
    assert ([first] + rest)[1..] == rest;
  }

  /** Every part lies in the text, and holds no separator. */
  lemma {:induction false} LineIsInside(x: string, p: nat, t: nat)
    requires p <= |x|
    ensures var l := LineOf(x, p, t);
      && p <= l.at && l.at + l.length <= |x|
      && forall k :: l.at <= k < l.at + l.length ==> x[k] != TAB && x[k] != VTAB && x[k] != NEWLINE
    decreases |x| - p
  {
    var q := LineEnd(x, p);
    forall k | p <= k < q ensures x[k] != TAB && x[k] != VTAB && x[k] != NEWLINE { assert !LineEnds(x, k); }
    if t > 0 && !CellEnds(x, q) {
      LineIsInside(x, q + 1, t - 1);
      assert LineOf(x, p, t) == LineOf(x, q + 1, t - 1);
    } else {
      assert LineOf(x, p, t) == if t == 0 then Part(p, q - p) else Part(q, 0);
    }
  }

  /** The lines of the cell that begins at a place, one more than it has vertical tabs. */
  function CellLines(x: string, p: nat): (lines: seq<string>)
    requires p <= |x|
    ensures |lines| == Breaks(x, p) + 1
  {
    seq(Breaks(x, p) + 1, t requires 0 <= t <= Breaks(x, p) => LineText(x, p, t))
  }

  function LineText(x: string, p: nat, t: nat): string
    requires p <= |x|
  {
    LineIsInside(x, p, t);
    TextOf(x, LineOf(x, p, t))
  }

  lemma LineBeforeCell(x: string, p: nat)
    requires p <= |x|
    ensures var q := LineEnd(x, p);
      if CellEnds(x, q) then CellEnd(x, p) == q && Breaks(x, p) == 0
      else x[q] == VTAB && q < CellEnd(x, p) && CellEnd(x, q + 1) == CellEnd(x, p)
           && Breaks(x, p) == 1 + Breaks(x, q + 1)
    decreases |x| - p
  {
    if !LineEnds(x, p) { LineBeforeCell(x, p + 1); }
  }

  lemma CellLinesStep(x: string, p: nat)
    requires p <= |x|
    ensures var q := LineEnd(x, p);
      if CellEnds(x, q) then CellLines(x, p) == [x[p..q]] else CellLines(x, p) == [x[p..q]] + CellLines(x, q + 1)
  {
    hide Breaks;
    LineBeforeCell(x, p);
    var q := LineEnd(x, p);
    FirstLine(x, p);
    if !CellEnds(x, q) {
      forall t | 1 <= t <= Breaks(x, p) ensures LineText(x, p, t) == LineText(x, q + 1, t - 1) {
        LaterLine(x, p, t);
      }
    }
  }

  lemma FirstLine(x: string, p: nat)
    requires p <= |x|
    ensures LineText(x, p, 0) == x[p..LineEnd(x, p)]
  {}

  lemma LaterLine(x: string, p: nat, t: nat)
    requires p <= |x| && t >= 1 && !CellEnds(x, LineEnd(x, p))
    ensures LineText(x, p, t) == LineText(x, LineEnd(x, p) + 1, t - 1)
  {}

  lemma ThreeParts(x: string, p: nat, q: nat, r: nat)
    requires p <= q < r <= |x|
    ensures x[p..r] == x[p..q] + [x[q]] + x[q + 1..r]
  {}

  /** A cell is its lines with vertical tabs between them. */
  lemma {:induction false} CellIsItsLines(x: string, p: nat)
    requires p <= |x|
    ensures x[p..CellEnd(x, p)] == Joined(CellLines(x, p), VTAB)
    decreases |x| - p
  {
    hide CellLines;
    var q := LineEnd(x, p);
    LineBeforeCell(x, p);
    CellLinesStep(x, p);
    if !CellEnds(x, q) {
      CellIsItsLines(x, q + 1);
      JoinedHead(x[p..q], CellLines(x, q + 1), VTAB);
      ThreeParts(x, p, q, CellEnd(x, p));
    }
  }

  /** Where the row ends: at the first newline, or with the text. */
  function RowEnd(x: string, p: nat): (q: nat)
    requires p <= |x|
    ensures p <= q <= |x| && RowEnds(x, q) && forall k :: p <= k < q ==> x[k] != NEWLINE
    decreases |x| - p
  {
    if RowEnds(x, p) then p else RowEnd(x, p + 1)
  }

  function Cells(x: string, s: nat): (cells: seq<string>)
    requires s <= |x|
    ensures |cells| == Columns(x, s)
  {
    seq(Columns(x, s), c requires 0 <= c < Columns(x, s) => x[CellStart(x, s, c)..CellEnd(x, CellStart(x, s, c))])
  }

  lemma CellBeforeRow(x: string, p: nat)
    requires p <= |x|
    ensures var q := CellEnd(x, p);
      if RowEnds(x, q) then RowEnd(x, p) == q else x[q] == TAB && q < RowEnd(x, p) && RowEnd(x, q + 1) == RowEnd(x, p)
    decreases |x| - p
  {
    if !CellEnds(x, p) { CellBeforeRow(x, p + 1); }
  }

  lemma CellsStep(x: string, s: nat)
    requires s <= |x|
    ensures var q := CellEnd(x, s);
      if RowEnds(x, q) then Cells(x, s) == [x[s..q]] else Cells(x, s) == [x[s..q]] + Cells(x, q + 1)
  {
    assert CellStart(x, s, 0) == s;
  }

  /** A row is its cells with tabs between them. */
  lemma {:induction false} RowIsItsCells(x: string, s: nat)
    requires s <= |x|
    ensures x[s..RowEnd(x, s)] == Joined(Cells(x, s), TAB)
    decreases |x| - s
  {
    hide Cells;
    var q := CellEnd(x, s);
    CellBeforeRow(x, s);
    CellsStep(x, s);
    if !RowEnds(x, q) {
      RowIsItsCells(x, q + 1);
      JoinedHead(x[s..q], Cells(x, q + 1), TAB);
      ThreeParts(x, s, q, RowEnd(x, s));
    }
  }

  /** The vertical tabs of one cell of the row. */
  function BreaksIn(x: string, s: nat, c: nat): nat
    requires s <= |x| && c < Columns(x, s)
  {
    Breaks(x, CellStart(x, s, c))
  }

  lemma {:induction false} MostIsBound(x: string, s: nat, c: nat)
    requires s <= |x| && c < Columns(x, s)
    ensures BreaksIn(x, s, c) <= MostBreaks(x, s)
    decreases c
  {
    FirstCell(x, s);
    if c > 0 {
      LaterCell(x, s, c);
      MostIsBound(x, CellEnd(x, s) + 1, c - 1);
    }
    hide Breaks, MostBreaks, Columns, CellStart;
  }

  /** The most breaks are those of the cell that has the most. */
  lemma {:induction false} MostIsReached(x: string, s: nat) returns (c: nat)
    requires s <= |x|
    ensures c < Columns(x, s) && BreaksIn(x, s, c) == MostBreaks(x, s)
    ensures forall d: nat :: d < Columns(x, s) ==> BreaksIn(x, s, d) <= MostBreaks(x, s)
    decreases |x| - s
  {
    hide Breaks, MostBreaks, Columns, CellStart, BreaksIn, CellEnd;
    FirstCell(x, s);
    var q := CellEnd(x, s);
    if RowEnds(x, q) || MostBreaks(x, s) == Breaks(x, s) {
      c := 0;
    } else {
      var later := MostIsReached(x, q + 1);
      c := later + 1;
      LaterCell(x, s, c);
    }
    forall d: nat | d < Columns(x, s) ensures BreaksIn(x, s, d) <= MostBreaks(x, s) {
      MostIsBound(x, s, d);
    }
  }

  lemma FirstCell(x: string, s: nat)
    requires s <= |x|
    ensures var q := CellEnd(x, s);
      CellStart(x, s, 0) == s && Columns(x, s) > 0 && BreaksIn(x, s, 0) == Breaks(x, s) &&
      if RowEnds(x, q) then Columns(x, s) == 1 && MostBreaks(x, s) == Breaks(x, s)
      else
        && Columns(x, s) == 1 + Columns(x, q + 1) && Breaks(x, s) <= MostBreaks(x, s)
        && (MostBreaks(x, s) == Breaks(x, s) || MostBreaks(x, s) == MostBreaks(x, q + 1))
        && MostBreaks(x, q + 1) <= MostBreaks(x, s)
  {
    hide Breaks;
  }

  lemma LaterCell(x: string, s: nat, d: nat)
    requires s <= |x| && 1 <= d < Columns(x, s)
    ensures !RowEnds(x, CellEnd(x, s)) && d - 1 < Columns(x, CellEnd(x, s) + 1)
    ensures CellStart(x, s, d) == CellStart(x, CellEnd(x, s) + 1, d - 1)
    ensures BreaksIn(x, s, d) == BreaksIn(x, CellEnd(x, s) + 1, d - 1)
  {}
}
