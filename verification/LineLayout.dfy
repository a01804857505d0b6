/** Where the line wrapper cuts, how it reads characters, and what its output looks like. */
module LineLayout {
  import opened LineWrap

  // --------------------------------------------------------------- characters

  /** How many bytes follow the first one in UTF-8, section 2 of RFC 2279; RFC 3629 only goes up to 0x10FFFF. */
  function Following(c: int): (k: nat)
    requires 0x80 <= c < 0x8000_0000
    ensures 1 <= k <= 5
  {
    if c < 0x800 then 1 else if c < 0x1_0000 then 2 else if c < 0x20_0000 then 3 else if c < 0x400_0000 then 4 else 5
  }

  /** What is left of a character when the last k groups of six bits are taken off. */
  function High(c: nat, k: nat): nat { if k == 0 then c else High(c / 64, k - 1) }

  /** The last k groups, one byte for each. */
  function Low(c: nat, k: nat): (s: seq<byte>)
    ensures |s| == k && forall i :: 0 <= i < k ==> Continues(s[i])
  {
    if k == 0 then [] else Low(c / 64, k - 1) + [0x80 + c % 64]
  }

  /** The first byte begins with a one for every byte and a zero. */
  function Ones(k: nat): byte
    requires 1 <= k <= 5
  {
    if k == 1 then 0xC0 else if k == 2 then 0xE0 else if k == 3 then 0xF0 else if k == 4 then 0xF8 else 0xFC
  }

  lemma FirstByte(c: int)
    requires 0x80 <= c < 0x8000_0000
    ensures var k := Following(c); var b := Ones(k) as int + High(c, k);
      b < 256 && Leads(b) && LeadBits(b) == High(c, k)
  {
    hide LeadBits;
    HighStep(c, Following(c));
    LeadOf(Following(c), High(c, Following(c)));
  }

  /** Five groups are taken off one after the other. */
  lemma HighStep(c: nat, k: nat)
    requires c < 0x8000_0000 && 1 <= k <= 5
    ensures High(c, k) == if k == 1 then c / 0x40 else if k == 2 then c / 0x1000 else if k == 3 then c / 0x4_0000
                          else if k == 4 then c / 0x100_0000 else c / 0x4000_0000
  {
    if k > 1 { HighStep(c / 64, k - 1); }
  }

  lemma LeadOf(k: nat, high: int)
    requires 1 <= k <= 5 && 0 <= high < 32 && (k == 1 ==> high >= 2)
    requires (k == 2 ==> high < 16) && (k == 3 ==> high < 8) && (k == 4 ==> high < 4) && (k == 5 ==> high < 2)
    ensures var b := Ones(k) as int + high; b < 256 && Leads(b) && LeadBits(b) == high
  {}

  function Utf8(c: int): (s: seq<byte>)
    requires 0x80 <= c < 0x8000_0000
    ensures |s| == 1 + Following(c) && Leads(s[0]) && forall i :: 1 <= i < |s| ==> Continues(s[i])
  {
    FirstByte(c);
    [Ones(Following(c)) as int + High(c, Following(c))] + Low(c, Following(c))
  }

  lemma Lower(b: byte)
    requires Continues(b)
    ensures (b as int + 0x80) % 0x100 == b as int - 0x80
  {}

  lemma CodeStep(s: seq<byte>, b: byte)
    requires s != [] && Leads(s[0]) && Continues(b) && Code(s) < 0x400_0000
    ensures Code(s + [b]) == Code(s) * 64 + (b as int - 0x80)
  {
    hide Code, LeadBits;
    CodeUnfolds(s, b);
    Lower(b);
    SmallCode(Code(s), b as int - 0x80);
  }

  lemma CodeUnfolds(s: seq<byte>, b: byte)
    requires s != [] && Leads(s[0])
    ensures Code(s + [b]) == (Code(s) * 64 + (b as int + 0x80) % 0x100) % 0x1_0000_0000
  {
    hide LeadBits;
    assert (s + [b])[..|s|] == s && (s + [b])[|s|] == b;
  }

  lemma SmallCode(high: int, low: int)
    requires 0 <= high < 0x400_0000 && 0 <= low < 64
    ensures (high * 64 + low) % 0x1_0000_0000 == high * 64 + low
  {}

  lemma CodeOne(b: byte)
    requires Leads(b)
    ensures Code([b]) == LeadBits(b)
  {}

  lemma {:induction false} CodeOfGroups(first: byte, c: nat, k: nat)
    requires Leads(first) && LeadBits(first) == High(c, k) && c < 0x8000_0000
    ensures Code([first] + Low(c, k)) == c
  {
    hide Code, LeadBits;
    if k == 0 {
      CodeOne(first);
      assert [first] + Low(c, 0) == [first];
    } else {
      CodeOfGroups(first, c / 64, k - 1);
      CodeStep([first] + Low(c / 64, k - 1), 0x80 + c % 64);
      assert [first] + Low(c, k) == [first] + Low(c / 64, k - 1) + [0x80 + c % 64];
    }
  }

  /** The wrapper reads the code of every character of several bytes. */
  lemma CodeOfUtf8(c: int)
    requires 0x80 <= c < 0x8000_0000
    ensures Code(Utf8(c)) == c
  {
    hide Code, LeadBits, Following;
    FirstByte(c);
    CodeOfGroups(Ones(Following(c)) as int + High(c, Following(c)), c, Following(c));
  }

  /** And takes its bytes together, when something else than one more continuation byte follows. */
  lemma BytesOfUtf8(c: int, rest: seq<byte>)
    requires 0x80 <= c < 0x8000_0000 && (rest != [] ==> !Continues(rest[0]))
    ensures CharBytes(Utf8(c) + rest, 0) == |Utf8(c)|
  {
    hide Utf8;
    var s := Utf8(c) + rest;
    TailOf(s, 1, |Utf8(c)|);
  }

  lemma TailOf(s: seq<byte>, i: nat, n: nat)
    requires i <= n <= |s| && (forall k :: i <= k < n ==> Continues(s[k])) && (n < |s| ==> !Continues(s[n]))
    ensures Tail(s, i) == n - i
    decreases n - i
  {
    if i < n { TailOf(s, i + 1, n); }
  }

  /** A byte that begins no character of several bytes stands for itself, in one column. */
  lemma LoneBytes(s: seq<byte>)
    requires s != [] && s[0] <= 0xC1
    ensures CharBytes(s, 0) == 1 && CharWidth(s[..1]) == 1
  {}

  /** The wide characters are those of the listed ranges, but for one. */
  lemma WideExactly(c: int)
    requires 0x80 <= c < 0x8000_0000
    ensures CharWidth(Utf8(c)) == 2 <==> c != 0x303F && exists k :: 0 <= k < |WIDE| && WIDE[k].0 <= c <= WIDE[k].1
  {
    hide Utf8, Code;
    CodeOfUtf8(c);
    assert WIDE[0] == (0x1100, 0x115F) && WIDE[1] == (0x2329, 0x232A) && WIDE[2] == (0x2E80, 0xA4C6);
    assert WIDE[3] == (0xA960, 0xA97C) && WIDE[4] == (0xAC00, 0xD7FB) && WIDE[5] == (0xF900, 0xFAFF);
    assert WIDE[6] == (0xFE10, 0xFE6B) && WIDE[7] == (0xFF01, 0xFF60) && WIDE[8] == (0xFFE0, 0xFFE6);
    assert WIDE[9] == (0x1B000, 0x7FFF_FFFF);
  }

  const WIDE: seq<(int, int)> := [
    (0x1100, 0x115F), (0x2329, 0x232A), (0x2E80, 0xA4C6), (0xA960, 0xA97C), (0xAC00, 0xD7FB),
    (0xF900, 0xFAFF), (0xFE10, 0xFE6B), (0xFF01, 0xFF60), (0xFFE0, 0xFFE6), (0x1B000, 0x7FFF_FFFF)
  ]

  // ----------------------------------------------------------------- the first cut

  /** The fitting part is the longest: with the next character it is too wide, and so is the whole. */
  lemma {:induction false} FitIsLongest(s: seq<byte>, i: nat, w: nat, width: nat)
    requires i <= |s| && w <= width
    ensures var m := Fit(s, i, w, width);
      m < |s| ==>
        && m + CharBytes(s, m) <= |s| && w + Width(s[i..m + CharBytes(s, m)]) > width
        && w + Width(s[i..|s|]) > width
    decreases |s| - i
  {
    hide CharBytes, CharWidth, Width, Fit;
    var m := Fit(s, i, w, width);
    if m == i {
      if i < |s| {
        FitStops(s, i, w, width);
        var n := CharBytes(s, i);
        WidthFrom(s, i, i + n);
        WidthFrom(s, i, |s|);
        EmptyWidth(s[i + n..i + n]);
      }
    } else {
      FitStep(s, i, w, width);
      var n := CharBytes(s, i);
      FitIsLongest(s, i + n, w + CharWidth(s[i..i + n]), width);
      if m < |s| {
        WidthFrom(s, i, m + CharBytes(s, m));
        WidthFrom(s, i, |s|);
      }
    }
  }

  lemma EmptyWidth(s: seq<byte>)
    requires |s| == 0
    ensures Width(s) == 0
  {}

  lemma FitStops(s: seq<byte>, i: nat, w: nat, width: nat)
    requires i < |s| && w <= width && Fit(s, i, w, width) == i
    ensures w + CharWidth(s[i..i + CharBytes(s, i)]) > width
  {
    hide CharBytes, CharWidth;
  }

  lemma WidthAtMostSize(s: seq<byte>)
    ensures Width(s) <= |s|
  {}

  /** How a text is cut: not at all exactly when it fits. Otherwise m is the end of the longest part that fits, and the
      piece ends before the last space up to and with m, which is dropped, or at m when there is none. */
  lemma CutExactly(s: seq<byte>, width: nat) returns (m: nat)
    requires s != [] && width >= 2
    ensures Cut(s, width) == (|s|, |s|) && m == |s| <==> Width(s) <= width
    ensures m <= |s| && Width(s[..m]) <= width
    ensures m < |s| ==> m + CharBytes(s, m) <= |s| && Width(s[..m + CharBytes(s, m)]) > width
    ensures m < |s| ==>
      var (end, next) := Cut(s, width);
      if exists k :: 0 <= k <= m && s[k] == SPACE then
        next == end + 1 && end <= m && s[end] == SPACE && forall k :: end < k <= m ==> s[k] != SPACE
      else end == next == m
  {
    hide Width, CharBytes, Fit;
    assert s[..|s|] == s;
    m := Fit(s, 0, 0, width);
    FitsWidth(s, 0, 0, width);
    FitIsLongest(s, 0, 0, width);
    assert s[0..m] == s[..m];
    if m < |s| {
      assert s[0..m + CharBytes(s, m)] == s[..m + CharBytes(s, m)];
      assert s[0..|s|] == s;
      assert |s| > width by { WidthAtMostSize(s); }
    }
  }

  // -------------------------------------------------------------------- the output

  /** Pieces as lines: each but the first of a used line on a new, indented one. */
  function Lines(pieces: seq<seq<byte>>, x: int, used: bool): seq<Output> {
    if pieces == [] then []
    else (if used then [NewLine, Indent(x)] else []) + [Piece(pieces[0])] + Lines(pieces[1..], x, true)
  }

  lemma {:induction false} LinesConcat(a: seq<seq<byte>>, b: seq<seq<byte>>, x: int, used: bool)
    ensures Lines(a + b, x, used) == Lines(a, x, used) + Lines(b, x, used || a != [])
  {
    if a == [] {
      assert a + b == b && Lines(a, x, used) == [];
    } else {
      assert (a + b)[1..] == a[1..] + b;
      LinesConcat(a[1..], b, x, true);
    }
  }

  lemma OneLine(piece: seq<byte>, x: int, used: bool)
    ensures Lines([piece], x, used) == (if used then [NewLine, Indent(x)] else []) + [Piece(piece)]
  {
    assert |[piece][1..]| == 0;
  }

  /** Writing a line adds it to the output. */
  lemma LineWrittenIs(r: Ring, x: int)
    requires r.queue != []
    ensures LineWritten(r, x) == Ring(r.queue[1..], r.out + Lines([r.queue[0]], x, r.wrote), true)
  {
    OneLine(r.queue[0], x, r.wrote);
  }

  /** How many of the waiting pieces a ring of 15 has to give up. */
  function Overflow(n: nat): nat { if n > SLOTS - 1 then n - (SLOTS - 1) else 0 }

  /** The ring after storing pieces: the oldest ones are written, as many as do not fit. */
  predicate IsStored(after: Ring, r: Ring, pieces: seq<seq<byte>>, x: int) {
    var all := r.queue + pieces;
    var n := Overflow(|all|);
    after == Ring(all[n..], r.out + Lines(all[..n], x, r.wrote), r.wrote || n > 0)
  }

  lemma {:induction false} AllStoredIs(r: Ring, pieces: seq<seq<byte>>, x: int)
    requires |r.queue| <= SLOTS - 1
    ensures IsStored(AllStored(r, pieces, x), r, pieces, x)
    decreases |pieces|
  {
    hide LineWritten, Lines, PieceStored, AllStored, IsStored;
    if pieces == [] {
      StoredNone(r, x);
      NoneStored(r, x);
    } else {
      var p, rest := pieces[0], pieces[1..];
      assert pieces == [p] + rest;
      StoredFirst(r, p, rest, x);
      StoredIs(r, p, x);
      AllStoredIs(PieceStored(r, p, x), rest, x);
      if |r.queue| == SLOTS - 1 {
        StoredFull(AllStored(r, pieces, x), r, p, rest, x);
      } else {
        StoredRoom(AllStored(r, pieces, x), r, p, rest, x);
      }
    }
  }

  lemma NoneStored(r: Ring, x: int)
    requires |r.queue| <= SLOTS - 1
    ensures IsStored(r, r, [], x)
  {
    assert r.queue + [] == r.queue && r.queue[0..] == r.queue;
    NoLines(r.queue[..0], x, r.wrote);
    assert r.out + [] == r.out;
  }

  lemma StoredFull(after: Ring, r: Ring, p: seq<byte>, rest: seq<seq<byte>>, x: int)
    requires |r.queue| == SLOTS - 1
    requires IsStored(after, Ring(r.queue[1..] + [p], r.out + Lines([r.queue[0]], x, r.wrote), true), rest, x)
    ensures IsStored(after, r, [p] + rest, x)
  {
    hide Lines;
    var later := r.queue[1..] + ([p] + rest);
    assert (r.queue[1..] + [p]) + rest == later && r.queue + ([p] + rest) == [r.queue[0]] + later;
    OneMoreLine(r.out, r.queue[0], later, Overflow(|later|), x, r.wrote);
  }

  lemma StoredRoom(after: Ring, r: Ring, p: seq<byte>, rest: seq<seq<byte>>, x: int)
    requires IsStored(after, r.(queue := r.queue + [p]), rest, x)
    ensures IsStored(after, r, [p] + rest, x)
  {
    assert (r.queue + [p]) + rest == r.queue + ([p] + rest);
  }

  lemma StoredIs(r: Ring, piece: seq<byte>, x: int)
    ensures PieceStored(r, piece, x) ==
      if |r.queue| == SLOTS - 1 then Ring(r.queue[1..] + [piece], r.out + Lines([r.queue[0]], x, r.wrote), true)
      else r.(queue := r.queue + [piece])
  {
    hide LineWritten, Lines;
    if |r.queue| == SLOTS - 1 { LineWrittenIs(r, x); }
  }

  lemma OneMoreLine(out: seq<Output>, first: seq<byte>, rest: seq<seq<byte>>, n: nat, x: int, used: bool)
    requires n <= |rest|
    ensures var all := [first] + rest;
      all[n + 1..] == rest[n..]
      && out + Lines(all[..n + 1], x, used) == (out + Lines([first], x, used)) + Lines(rest[..n], x, true)
  {
    hide Lines;
    var all := [first] + rest;
    assert all[..n + 1] == [first] + rest[..n];
    LinesConcat([first], rest[..n], x, used);
    var a, b := Lines([first], x, used), Lines(rest[..n], x, true);
    assert (out + a) + b == out + (a + b);
  }

  lemma NoLines(pieces: seq<seq<byte>>, x: int, used: bool)
    requires |pieces| == 0
    ensures Lines(pieces, x, used) == []
  {}

  /** What a processed text adds to the output: at least one line when there is a piece, and as many as do not fit the
      ring, the first of them at the current place of the current line. */
  lemma ProcessedIs(r: Ring, pieces: seq<seq<byte>>, x: int)
    requires |r.queue| <= SLOTS - 1
    ensures var all := r.queue + pieces;
      var n := if all != [] && Overflow(|all|) == 0 then 1 else Overflow(|all|);
      Processed(r, pieces, x) == Ring(all[n..], r.out + Lines(all[..n], x, false), true)
  {
    hide Lines, AllStored, LineWritten;
    var all := r.queue + pieces;
    AllStoredIs(r.(wrote := false), pieces, x);
    if Overflow(|all|) == 0 {
      NoLines(all[..0], x, false);
      assert r.out + [] == r.out && all[0..] == all;
      if all == [] {
        NothingWritten(r.out, x);
      } else {
        LineWrittenIs(Ring(all, r.out, false), x);
        assert all[..1] == [all[0]];
      }
    }
  }

  lemma NothingWritten(out: seq<Output>, x: int)
    ensures LineWritten(Ring([], out, false), x) == Ring([], out, true)
  {}

  lemma {:induction false} AllWrittenIs(r: Ring, x: int)
    ensures AllWritten(r, x) == Ring([], r.out + Lines(r.queue, x, r.wrote), r.wrote || r.queue != [])
    decreases |r.queue|
  {
    hide LineWritten, Lines;
    if r.queue == [] {
      NoLines(r.queue, x, r.wrote);
      assert r.out + [] == r.out;
    } else {
      LineWrittenIs(r, x);
      AllWrittenIs(LineWritten(r, x), x);
      assert r.queue == [r.queue[0]] + r.queue[1..];
      LinesConcat([r.queue[0]], r.queue[1..], x, r.wrote);
      var first, more := Lines([r.queue[0]], x, r.wrote), Lines(r.queue[1..], x, true);
      assert (r.out + first) + more == r.out + (first + more);
    }
  }

  /** What is left at the end is written on lines of their own, the first one indented as well, and a line break. */
  lemma FlushedIs(r: Ring, x: int)
    requires r.queue != []
    ensures Flushed(r, x).out == r.out + [Indent(x)] + Lines(r.queue, x, false) + [NewLine] && Flushed(r, x).queue == []
  {
    AllWrittenIs(Ring(r.queue, r.out + [Indent(x)], false), x);
  }
}
