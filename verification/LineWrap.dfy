/** The wrapper of the last usage column: it cuts text into pieces that fit, and queues them in a ring until they are
    written. */
module LineWrap {

  type byte = x: int | 0 <= x < 256

  const SPACE: byte := 0x20

  // --------------------------------------------------------------- screen widths

  predicate IsWideChar(ch: int) {
    ch != 0x303F &&
    (0x1100 <= ch <= 0x115F || 0x2329 <= ch <= 0x232A || 0x2E80 <= ch <= 0xA4C6 || 0xA960 <= ch <= 0xA97C
      || 0xAC00 <= ch <= 0xD7FB
     || 0xF900 <= ch <= 0xFAFF || 0xFE10 <= ch <= 0xFE6B || 0xFF01 <= ch <= 0xFF60 || 0xFFE0 <= ch <= 0xFFE6
       || 0x1B000 <= ch)
  }

  predicate Continues(b: byte) { 0x80 <= b < 0xC0 }

  predicate Leads(b: byte) { b > 0xC1 }

  /** The bits of a first byte that belong to the character: those behind its leading ones. */
  function LeadBits(b: byte): (v: int)
    requires Leads(b)
    ensures 0 <= v < 64
  {
    if b < 0xE0 then b % 64 else if b < 0xF0 then b % 32 else if b < 0xF8 then b % 16
    else if b < 0xFC then b % 8 else if b < 0xFE then b % 4 else b % 2
  }

  /** How many continuation bytes stand at a place. */
  function Tail(s: seq<byte>, i: nat): (n: nat)
    requires i <= |s|
    ensures i + n <= |s| && (forall k :: i <= k < i + n ==> Continues(s[k])) && (i + n < |s| ==> !Continues(s[i + n]))
    decreases |s| - i
  {
    if i < |s| && Continues(s[i]) then 1 + Tail(s, i + 1) else 0
  }

  /** The bytes of the character at a place. */
  function CharBytes(s: seq<byte>, i: nat): (n: nat)
    requires i < |s|
    ensures 1 <= n && i + n <= |s|
  {
    if Leads(s[i]) then 1 + Tail(s, i + 1) else 1
  }

  /** The code of a character of several bytes, in 32 bits. */
  function Code(s: seq<byte>): (ch: int)
    requires s != [] && Leads(s[0])
    ensures 0 <= ch < 0x1_0000_0000
    ensures |s| == 1 ==> ch < 64
  {
    var n := |s| - 1;
    if n == 0 then LeadBits(s[0]) else (Code(s[..n]) * 64 + (s[n] as int + 0x80) % 0x100) % 0x1_0000_0000
  }

  /** One screen column for a character, two for a wide one. */
  function CharWidth(s: seq<byte>): (w: nat)
    requires s != []
    ensures 1 <= w <= 2 && w <= |s|
  {
    if Leads(s[0]) && Code(s) >= 0x1100 && IsWideChar(Code(s)) then 2 else 1
  }

  function Width(s: seq<byte>): (w: nat)
    ensures w <= |s|
  {
    if s == [] then 0
    else
      var n := CharBytes(s, 0);
      CharWidth(s[..n]) + Width(s[n..])
  }

  /** A part of the text that ends where a character ends begins with the same character. */
  lemma SameFirst(s: seq<byte>, m: nat)
    requires s != [] && CharBytes(s, 0) <= m <= |s|
    ensures CharBytes(s[..m], 0) == CharBytes(s, 0)
  {
    if Leads(s[0]) {
      var n := Tail(s, 1);
      var k := Tail(s[..m], 1);
      assert forall j :: 0 <= j < m ==> s[..m][j] == s[j];
    }
  }

  lemma {:induction false} TailMoves(s: seq<byte>, i: nat, j: nat)
    requires i <= j <= |s|
    ensures Tail(s, j) == Tail(s[i..], j - i)
    decreases |s| - j
  {
    if j < |s| && Continues(s[j]) {
      TailMoves(s, i, j + 1);
    }
  }

  lemma CharMoves(s: seq<byte>, i: nat)
    requires i < |s|
    ensures CharBytes(s, i) == CharBytes(s[i..], 0)
  {
    TailMoves(s, i, i + 1);
  }

  lemma WidthStep(s: seq<byte>)
    requires s != []
    ensures Width(s) == CharWidth(s[..CharBytes(s, 0)]) + Width(s[CharBytes(s, 0)..])
  {}

  lemma CharEndsBefore(s: seq<byte>, i: nat)
    requires 0 < i <= |s| && (i < |s| ==> !Continues(s[i]))
    ensures CharBytes(s, 0) <= i
  {}

  /** A prefix that does not cut a character is no wider. */
  lemma {:induction false} WidthOfPrefix(s: seq<byte>, i: nat)
    requires i <= |s| && (i < |s| ==> !Continues(s[i]))
    ensures Width(s[..i]) <= Width(s)
    decreases |s|
  {
    hide Width, CharBytes, CharWidth, Continues;
    if i == 0 {
      assert |s[..i]| == 0;
    } else {
      var n, rest := CharBytes(s, 0), s[CharBytes(s, 0)..];
      CharEndsBefore(s, i);
      SameFirst(s, i);
      WidthStep(s);
      WidthStep(s[..i]);
      assert s[..i][..n] == s[..n] && s[..i][n..] == rest[..i - n];
      assert i < |s| ==> rest[i - n] == s[i];
      WidthOfPrefix(rest, i - n);
    }
  }

  // ---------------------------------------------------------------------- wrapping

  /** How far the characters from a place on fit when so many columns are taken. */
  function Fit(s: seq<byte>, i: nat, w: nat, width: nat): (m: nat)
    requires i <= |s| && w <= width
    ensures i <= m <= |s|
    ensures i < |s| && w + 2 <= width ==> i < m
    decreases |s| - i
  {
    if i == |s| || w == width then i
    else
      var n := CharBytes(s, i);
      var c := CharWidth(s[i..i + n]);
      if w + c > width then i else Fit(s, i + n, w + c, width)
  }

  lemma FitStep(s: seq<byte>, i: nat, w: nat, width: nat)
    requires i <= |s| && w <= width && Fit(s, i, w, width) != i
    ensures i < |s| && w + CharWidth(s[i..i + CharBytes(s, i)]) <= width
    ensures Fit(s, i, w, width) == Fit(s, i + CharBytes(s, i), w + CharWidth(s[i..i + CharBytes(s, i)]), width)
  {
    hide CharBytes, CharWidth;
  }

  /** The first character of a part that does not cut it. */
  lemma WidthFrom(s: seq<byte>, i: nat, m: nat)
    requires i < |s| && i + CharBytes(s, i) <= m <= |s|
    ensures var n := CharBytes(s, i); Width(s[i..m]) == CharWidth(s[i..i + n]) + Width(s[i + n..m])
  {
    hide Width, CharBytes, CharWidth;
    var n, t := CharBytes(s, i), s[i..m];
    CharMoves(s, i);
    assert s[i..][..m - i] == t;
    SameFirst(s[i..], m - i);
    WidthStep(t);
    assert t[..n] == s[i..i + n] && t[n..] == s[i + n..m];
  }

  lemma {:induction false} FitsWidth(s: seq<byte>, i: nat, w: nat, width: nat)
    requires i <= |s| && w <= width
    ensures w + Width(s[i..Fit(s, i, w, width)]) <= width
    decreases |s| - i
  {
    hide Fit, CharBytes, CharWidth, Width;
    var m := Fit(s, i, w, width);
    if i == m {
      assert |s[i..m]| == 0;
    } else {
      FitStep(s, i, w, width);
      var n := CharBytes(s, i);
      FitsWidth(s, i + n, w + CharWidth(s[i..i + n]), width);
      WidthFrom(s, i, m);
    }
  }

  datatype Option<T> = None | Some(value: T)

  /** The last space up to and with a place. */
  function LastSpace(s: seq<byte>, i: nat): (r: Option<nat>)
    requires i < |s|
    ensures r.Some? ==> r.value <= i && s[r.value] == SPACE && forall k :: r.value < k <= i ==> s[k] != SPACE
    ensures r.None? ==> forall k :: 0 <= k <= i ==> s[k] != SPACE
  {
    if s[i] == SPACE then Some(i) else if i == 0 then None else LastSpace(s, i - 1)
  }

  /** Where the first piece ends and where the text goes on behind it. */
  function Cut(s: seq<byte>, width: nat): (r: (nat, nat))
    requires s != [] && width >= 2
    ensures r.0 <= r.1 <= |s| && 0 < r.1
  {
    if |s| <= width then (|s|, |s|)
    else
      var m := Fit(s, 0, 0, width);
      if m == |s| then (|s|, |s|)
      else match LastSpace(s, m)
        case Some(i) => (i, i + 1)
        case None => (m, m)
  }

  function Wrap(s: seq<byte>, width: nat): seq<seq<byte>>
    requires width >= 2
    decreases |s|
  {
    if s == [] then [] else [s[..Cut(s, width).0]] + Wrap(s[Cut(s, width).1..], width)
  }

  /** Every piece fits the column. */
  lemma {:induction false} PiecesFit(s: seq<byte>, width: nat)
    requires width >= 2
    ensures forall p :: p in Wrap(s, width) ==> Width(p) <= width
    decreases |s|
  {
    if s != [] {
      PiecesFit(s[Cut(s, width).1..], width);
      FirstFits(s, width);
    }
  }

  lemma FirstFits(s: seq<byte>, width: nat)
    requires s != [] && width >= 2
    ensures Width(s[..Cut(s, width).0]) <= width
  {
    hide Width;
    if |s| <= width {
      assert s[..|s|] == s;
    } else {
      var m := Fit(s, 0, 0, width);
      FitsWidth(s, 0, 0, width);
      assert s[0..m] == s[..m];
      if m == |s| {
        assert s[..|s|] == s;
      } else {
        var r := LastSpace(s, m);
        if r.Some? {
          assert s[..m][..r.value] == s[..r.value];
          WidthOfPrefix(s[..m], r.value);
        }
      }
    }
  }

  /** Pieces in order are the text again, when a space may have been dropped behind each of them. */
  predicate Rebuilds(s: seq<byte>, pieces: seq<seq<byte>>)
    decreases |pieces|
  {
    if pieces == [] then s == []
    else
      pieces[0] <= s &&
      var rest := s[|pieces[0]|..];
      (Rebuilds(rest, pieces[1..]) || (rest != [] && rest[0] == SPACE && Rebuilds(rest[1..], pieces[1..])))
  }

  lemma {:induction false} PiecesRebuild(s: seq<byte>, width: nat)
    requires width >= 2
    ensures Rebuilds(s, Wrap(s, width))
    decreases |s|
  {
    hide Wrap, Cut, Rebuilds;
    if s == [] {
      WrapNothing(s, width);
      RebuildsNothing();
    } else {
      var c := Cut(s, width);
      PiecesRebuild(s[c.1..], width);
      WrapStep(s, width);
      CutDropsASpace(s, width);
      RebuildsStep(s, s[..c.0], Wrap(s[c.1..], width));
    }
  }

  lemma CutDropsASpace(s: seq<byte>, width: nat)
    requires s != [] && width >= 2
    ensures var c := Cut(s, width);
      c.0 <= |s| && s[|s[..c.0]|..] == s[c.0..]
      && (c.1 == c.0 || (c.1 == c.0 + 1 <= |s| && s[c.0] == SPACE && s[c.0..][1..] == s[c.1..]))
  {}

  lemma RebuildsNothing()
    ensures Rebuilds([], [])
  {}

  lemma RebuildsStep(s: seq<byte>, piece: seq<byte>, pieces: seq<seq<byte>>)
    requires piece <= s
    requires var rest := s[|piece|..];
      Rebuilds(rest, pieces) || (rest != [] && rest[0] == SPACE && Rebuilds(rest[1..], pieces))
    ensures Rebuilds(s, [piece] + pieces)
  {
    assert ([piece] + pieces)[1..] == pieces;
  }

  // ------------------------------------------------------------------------ the ring

  /** What goes to the writer. */
  datatype Output = Piece(text: seq<byte>) | NewLine | Indent(columns: int)

  function PiecesOf(out: seq<Output>): seq<seq<byte>> {
    if out == [] then []
    else
      var n := |out| - 1;
      PiecesOf(out[..n]) + (if out[n].Piece? then [out[n].text] else [])
  }

  lemma PiecesOfOne(out: seq<Output>, o: Output)
    ensures PiecesOf(out + [o]) == PiecesOf(out) + (if o.Piece? then [o.text] else [])
  {
    assert (out + [o])[..|out|] == out;
  }

  const SLOTS := 16

  /** The slot that lies so far behind the tail. */
  function Slot(tail: nat, i: nat): nat
    requires tail < SLOTS && i < SLOTS
  {
    if tail + 1 + i < SLOTS then tail + 1 + i else tail + 1 + i - SLOTS
  }

  lemma SlotMoves(tail: nat)
    requires tail < SLOTS
    ensures Slot(tail, 0) == (tail + 1) % SLOTS
    ensures forall i {:trigger Slot((tail + 1) % SLOTS, i)} :: 0 <= i < SLOTS - 1 ==>
      Slot((tail + 1) % SLOTS, i) == Slot(tail, i + 1)
  {}

  /** What the wrapper does to the pieces waiting, the output, and whether the current line has output already. */
  datatype Ring = Ring(queue: seq<seq<byte>>, out: seq<Output>, wrote: bool)

  /** One line: on a new line when this one is used, and empty when nothing waits. */
  function LineWritten(r: Ring, x: int): Ring {
    var out := if r.wrote then r.out + [NewLine] + [Indent(x)] else r.out;
    if r.queue == [] then Ring([], out, true) else Ring(r.queue[1..], out + [Piece(r.queue[0])], true)
  }

  function PieceStored(r: Ring, piece: seq<byte>, x: int): Ring {
    var s := if |r.queue| == SLOTS - 1 then LineWritten(r, x) else r;
    s.(queue := s.queue + [piece])
  }

  function AllStored(r: Ring, pieces: seq<seq<byte>>, x: int): Ring
    decreases |pieces|
  {
    if pieces == [] then r else AllStored(PieceStored(r, pieces[0], x), pieces[1..], x)
  }

  function Processed(r: Ring, pieces: seq<seq<byte>>, x: int): Ring {
    var s := AllStored(r.(wrote := false), pieces, x);
    if s.wrote then s else LineWritten(s, x)
  }

  function AllWritten(r: Ring, x: int): Ring
    decreases |r.queue|
  {
    if r.queue == [] then r else AllWritten(LineWritten(r, x), x)
  }

  /** Every waiting piece on a line of its own, the first indented too, and a line break at the end. */
  function Flushed(r: Ring, x: int): Ring {
    if r.queue == [] then r
    else
      var s := AllWritten(Ring(r.queue, r.out + [Indent(x)], false), x);
      s.(out := s.out + [NewLine])
  }

  class LineWrapper {
    const lenbuf: array<nat>
    const datbuf: array<seq<byte>>
    const x: int
    const width: int
    var head: nat
    var tail: nat
    var wroteSomething: bool
    var out: seq<Output>
    /** The pieces in the ring, the oldest first. */
    ghost var queue: seq<seq<byte>>

    ghost predicate Valid()
      reads this, lenbuf, datbuf
    {
      && lenbuf.Length == SLOTS && datbuf.Length == SLOTS && width >= 2
      && head < SLOTS && tail < SLOTS && |queue| < SLOTS
      && head == Slot(tail, |queue|)
      && forall i {:trigger queue[i]} :: 0 <= i < |queue| ==> var k := Slot(tail, i);
        lenbuf[k] <= |datbuf[k]| && datbuf[k][..lenbuf[k]] == queue[i]
    }

    ghost function Now(): Ring
      reads this
    {
      Ring(queue, out, wroteSomething)
    }

    /** Every piece that was ever stored, in the order of storing: those written, then those in the ring. */
    ghost function Stored(): seq<seq<byte>>
      reads this
    {
      PiecesOf(out) + queue
    }

    constructor (x1: int, x2: int)
      ensures Valid() && fresh(lenbuf) && fresh(datbuf) && Stored() == [] && queue == [] && out == []
      ensures x == x1 && width == if x2 - x1 < 2 then 2 else x2 - x1
    {
      lenbuf := new nat[SLOTS](_ => 0);
      datbuf := new seq<byte>[SLOTS](_ => []);
      x := x1;
      width := if x2 - x1 < 2 then 2 else x2 - x1;
      head, tail, wroteSomething, out, queue := 0, SLOTS - 1, false, [], [];
    }

    predicate BufEmpty()
      requires Valid()
      reads this, lenbuf, datbuf
      ensures BufEmpty() <==> queue == []
    {
      (tail + 1) % SLOTS == head
    }

    predicate BufFull()
      requires Valid()
      reads this, lenbuf, datbuf
      ensures BufFull() <==> |queue| == SLOTS - 1
    {
      tail == head
    }

    method BufStore(data: seq<byte>, len: nat)
      requires Valid() && !BufFull() && len <= |data|
      modifies this, lenbuf, datbuf
      ensures Valid() && queue == old(queue) + [data[..len]] && out == old(out) && wroteSomething == old(wroteSomething)
    {
      lenbuf[head] := len;
      datbuf[head] := data;
      head := (head + 1) % SLOTS;
      queue := queue + [data[..len]];
    }

    /** Advances the tail and reads what is there. */
    method BufNext() returns (piece: seq<byte>)
      requires Valid() && queue != []
      modifies this
      ensures Valid() && [piece] + queue == old(queue) && out == old(out) && wroteSomething == old(wroteSomething)
    {
      hide Slot;
      ghost var was := queue;
      SlotMoves(tail);
      assert was[0] == queue[0];
      tail := (tail + 1) % SLOTS;
      piece := datbuf[tail][..lenbuf[tail]];
      queue := queue[1..];
      assert forall i :: 0 <= i < |queue| ==> queue[i] == was[i + 1];
    }

    /** Anything but a piece goes straight to the writer. */
    method Emit(o: Output)
      requires Valid() && !o.Piece?
      modifies `out
      ensures Valid() && out == old(out) + [o] && PiecesOf(out) == old(PiecesOf(out))
    {
      PiecesOfOne(out, o);
      out := out + [o];
    }

    method EmitPiece(piece: seq<byte>)
      requires Valid()
      modifies `out
      ensures Valid() && out == old(out) + [Piece(piece)] && PiecesOf(out) == old(PiecesOf(out)) + [piece]
    {
      PiecesOfOne(out, Piece(piece));
      out := out + [Piece(piece)];
    }

    method SetWrote(wrote: bool)
      requires Valid()
      modifies `wroteSomething
      ensures Valid() && wroteSomething == wrote
    {
      wroteSomething := wrote;
    }

    method WriteOneLine()
      requires Valid()
      modifies this
      ensures Valid() && Stored() == old(Stored()) && Now() == LineWritten(old(Now()), x)
    {
      hide PiecesOf, Valid, BufEmpty;
      if wroteSomething {
        Emit(NewLine);
        Emit(Indent(x));
      }
      if !BufEmpty() {
        WriteOldest();
      }
      SetWrote(true);
    }

    method WriteOldest()
      requires Valid() && queue != []
      modifies this
      ensures Valid() && Stored() == old(Stored()) && queue == old(queue)[1..]
      ensures out == old(out) + [Piece(old(queue)[0])] && wroteSomething == old(wroteSomething)
    {
      hide PiecesOf, Valid;
      ghost var was, written := queue, PiecesOf(out);
      var piece := BufNext();
      assert was[0] == piece && was[1..] == queue;
      EmitPiece(piece);
      assert written + was == (written + [piece]) + queue;
    }

    /** A piece goes into the ring; a full ring writes its oldest piece first, so nothing is overwritten. */
    method Store(data: seq<byte>, len: nat)
      requires Valid() && len <= |data|
      modifies this, lenbuf, datbuf
      ensures Valid() && Stored() == old(Stored()) + [data[..len]] && Now() == PieceStored(old(Now()), data[..len], x)
    {
      if BufFull() {
        WriteOneLine();
      }
      BufStore(data, len);
    }

    /** Writes what is left, every line indented. */
    method Flush()
      requires Valid()
      modifies this
      ensures Valid() && queue == [] && PiecesOf(out) == old(Stored()) && Now() == Flushed(old(Now()), x)
    {
      hide PiecesOf, Valid, BufEmpty;
      if BufEmpty() {
        assert PiecesOf(out) + [] == PiecesOf(out);
        return;
      }
      Emit(Indent(x));
      SetWrote(false);
      ghost var goal := AllWritten(Now(), x);
      while !BufEmpty()
        invariant Valid() && Stored() == old(Stored()) && AllWritten(Now(), x) == goal
        decreases |queue|
      {
        WriteOneLine();
      }
      assert PiecesOf(out) + [] == PiecesOf(out);
      Emit(NewLine);
    }

    /** The character at a place: its bytes and its width. */
    method Measure(data: seq<byte>, at: nat) returns (charbytes: nat, columns: nat)
      requires at < |data|
      ensures charbytes == CharBytes(data, at) && columns == CharWidth(data[at..at + charbytes])
    {
      hide Code, Tail;
      charbytes, columns := 1, 1;
      FirstByte(data, at);
      if Leads(data[at]) {
        var ch := LeadBits(data[at]);
        while at + charbytes < |data| && Continues(data[at + charbytes])
          invariant 1 <= charbytes <= |data| - at && ch == Code(data[at..at + charbytes])
          invariant charbytes + Tail(data, at + charbytes) == CharBytes(data, at)
          decreases |data| - at - charbytes
        {
          NextByte(data, at, charbytes);
          ch := (ch * 64 + (data[at + charbytes] as int + 0x80) % 0x100) % 0x1_0000_0000;
          charbytes := charbytes + 1;
        }
        TailEnds(data, at + charbytes);
        if ch >= 0x1100 && IsWideChar(ch) {
          columns := 2;
        }
      }
    }

    /** The place behind the last character that fits on the line. */
    method FindFit(data: seq<byte>) returns (maxi: nat)
      requires width >= 2
      ensures maxi == Fit(data, 0, 0, width)
    {
      hide CharBytes, CharWidth;
      var utf8width: nat := 0;
      maxi := 0;
      while maxi < |data| && utf8width < width
        invariant maxi <= |data| && utf8width <= width && Fit(data, maxi, utf8width, width) == Fit(data, 0, 0, width)
        decreases |data| - maxi
      {
        var charbytes, columns := Measure(data, maxi);
        if utf8width + columns > width {
          break;
        }
        utf8width := utf8width + columns;
        maxi := maxi + charbytes;
      }
    }

    /** Where to split: everything when it fits, else at the last space that fits, else behind the last character that
        does. */
    method FindCut(data: seq<byte>) returns (cut: (nat, nat))
      requires width >= 2 && data != []
      ensures cut == Cut(data, width)
    {
      hide Fit;
      if |data| <= width {
        return (|data|, |data|);
      }
      var maxi := FindFit(data);
      if maxi == |data| {
        return (|data|, |data|);
      }
      var i: int := maxi;
      while i >= 0 && data[i] != SPACE
        invariant -1 <= i <= maxi
        invariant if i >= 0 then LastSpace(data, i) == LastSpace(data, maxi) else LastSpace(data, maxi) == None
      {
        i := i - 1;
      }
      cut := if i >= 0 then (i, i + 1) else (maxi, maxi);
    }

    /** Wraps a text, stores its pieces and writes at least one line. */
    method Process(text: seq<byte>)
      requires Valid() && width >= 2
      modifies this, lenbuf, datbuf
      ensures Valid() && Stored() == old(Stored()) + Wrap(text, width)
        && Now() == Processed(old(Now()), Wrap(text, width), x)
    {
      hide Wrap, Cut, PiecesOf, Valid, PieceStored, LineWritten, AllStored;
      ghost var before := Stored();
      SetWrote(false);
      assert Stored() == before;
      hide Stored;
      var data, len := text, |text|;
      ghost var done := [];
      ghost var goal := AllStored(Now(), Wrap(text, width), x);
      assert before + [] == before && [] + Wrap(text, width) == Wrap(text, width);
      while len > 0
        invariant AllStored(Now(), Wrap(data, width), x) == goal
        invariant Valid() && len == |data| && Stored() == before + done
        invariant done + Wrap(data, width) == Wrap(text, width)
        decreases len
      {
        var cut := FindCut(data);
        ghost var piece, rest := data[..cut.0], Wrap(data[cut.1..], width);
        WrapStep(data, width);
        StoredFirst(Now(), piece, rest, x);
        Appended(before, done, piece, rest);
        Store(data, cut.0);
        done := done + [piece];
        data := data[cut.1..];
        len := len - cut.1;
      }
      StoredNone(Now(), x);
      assert done + [] == done;
      WrapNothing(data, width);
      if !wroteSomething {
        WriteOneLine();
      }
    }
  }

  lemma StoredFirst(r: Ring, piece: seq<byte>, rest: seq<seq<byte>>, x: int)
    ensures AllStored(r, [piece] + rest, x) == AllStored(PieceStored(r, piece, x), rest, x)
  {
    hide PieceStored;
    assert ([piece] + rest)[1..] == rest;
  }

  lemma StoredNone(r: Ring, x: int)
    ensures AllStored(r, [], x) == r
  {}

  lemma Appended(before: seq<seq<byte>>, done: seq<seq<byte>>, piece: seq<byte>, rest: seq<seq<byte>>)
    ensures (before + done) + [piece] == before + (done + [piece])
    ensures (done + [piece]) + rest == done + ([piece] + rest)
  {}

  lemma FirstByte(s: seq<byte>, at: nat)
    requires at < |s|
    ensures s[at..at + 1] == [s[at]] && (Leads(s[at]) ==> Code([s[at]]) == LeadBits(s[at]))
  {
    hide LeadBits;
  }

  /** One more continuation byte of the character at a place. */
  lemma NextByte(s: seq<byte>, at: nat, n: nat)
    requires 0 < n && at + n < |s| && Leads(s[at]) && Continues(s[at + n])
    ensures Code(s[at..at + n + 1]) == (Code(s[at..at + n]) * 64 + (s[at + n] as int + 0x80) % 0x100) % 0x1_0000_0000
    ensures Tail(s, at + n) == 1 + Tail(s, at + n + 1)
  {
    LongerPart(s, at, n);
  }

  lemma LongerPart(s: seq<byte>, at: nat, n: nat)
    requires at + n < |s|
    ensures s[at..at + n + 1][..n] == s[at..at + n] && s[at..at + n + 1][n] == s[at + n]
  {}

  lemma TailEnds(s: seq<byte>, i: nat)
    requires i <= |s| && (i < |s| ==> !Continues(s[i]))
    ensures Tail(s, i) == 0
  {}

  function WrapAll(texts: seq<seq<byte>>, width: nat): seq<seq<byte>>
    requires width >= 2
  {
    if texts == [] then [] else WrapAll(texts[..|texts| - 1], width) + Wrap(texts[|texts| - 1], width)
  }

  /** Any texts processed and the rest flushed: the pieces written are those of every text, in order. */
  method WrapColumn(texts: seq<seq<byte>>, x1: int, x2: int) returns (out: seq<Output>)
    ensures PiecesOf(out) == WrapAll(texts, if x2 - x1 < 2 then 2 else x2 - x1)
  {
    hide LineWrapper.Valid, LineWrapper.Stored, Wrap, PiecesOf;
    var wrapper := new LineWrapper(x1, x2);
    for i := 0 to |texts|
      invariant wrapper.Valid() && fresh(wrapper) && fresh(wrapper.lenbuf) && fresh(wrapper.datbuf)
      invariant wrapper.Stored() == WrapAll(texts[..i], wrapper.width)
    {
      assert texts[..i + 1][..i] == texts[..i];
      wrapper.Process(texts[i]);
    }
    assert texts[..|texts|] == texts;
    wrapper.Flush();
    out := wrapper.out;
  }

  lemma WrapStep(s: seq<byte>, width: nat)
    requires s != [] && width >= 2
    ensures Wrap(s, width) == [s[..Cut(s, width).0]] + Wrap(s[Cut(s, width).1..], width)
  {}

  lemma WrapNothing(s: seq<byte>, width: nat)
    requires s == [] && width >= 2
    ensures Wrap(s, width) == []
  {}
}
