/** Base64 as the block text uses it for the eight bytes of a lucky number. */
module Base64 {

  type byte = x: int | 0 <= x < 256

  /** The 64 symbols in rows of eight. */
  const TO_BASE64: seq<string> := [
    "ABCDEFGH", "IJKLMNOP", "QRSTUVWX", "YZabcdef", "ghijklmn", "opqrstuv", "wxyz0123", "456789+/"
  ]

  /** The digit of each of the 128 characters in rows of eight, 255 where there is none. */
  const FROM_BASE64: seq<seq<byte>> := [
    [255, 255, 255, 255, 255, 255, 255, 255],
    [255, 255, 255, 255, 255, 255, 255, 255],
    [255, 255, 255, 255, 255, 255, 255, 255],
    [255, 255, 255, 255, 255, 255, 255, 255],
    [255, 255, 255, 255, 255, 255, 255, 255],
    [255, 255, 255, 62, 255, 62, 255, 63],
    [52, 53, 54, 55, 56, 57, 58, 59],
    [60, 61, 255, 255, 255, 255, 255, 255],
    [255, 0, 1, 2, 3, 4, 5, 6],
    [7, 8, 9, 10, 11, 12, 13, 14],
    [15, 16, 17, 18, 19, 20, 21, 22],
    [23, 24, 25, 255, 255, 255, 255, 63],
    [255, 26, 27, 28, 29, 30, 31, 32],
    [33, 34, 35, 36, 37, 38, 39, 40],
    [41, 42, 43, 44, 45, 46, 47, 48],
    [49, 50, 51, 255, 255, 255, 255, 255]
  ]

  function SymbolAt(row: int, column: int): char
    requires 0 <= row < 8 && 0 <= column < 8
  {
    TO_BASE64[row][column]
  }

  function DigitAt(k: int): byte
    requires 0 <= k < 128
  {
    var row := FROM_BASE64[k / 8];
    assert |row| == 8;
    row[k % 8]
  }

  predicate ReadsBack(row: int, column: int)
    requires 0 <= row < 8 && 0 <= column < 8
  {
    var c := SymbolAt(row, column);
    c as int < 128 && DigitAt(c as int) == 8 * row + column && c != ','
  }

  lemma Row0ReadsBack(column: int)
    requires 0 <= column < 8
    ensures ReadsBack(0, column)
  {
    assert TO_BASE64[0] == "ABCDEFGH";
  }

  lemma Row1ReadsBack(column: int)
    requires 0 <= column < 8
    ensures ReadsBack(1, column)
  {
    assert TO_BASE64[1] == "IJKLMNOP";
  }

  lemma Row2ReadsBack(column: int)
    requires 0 <= column < 8
    ensures ReadsBack(2, column)
  {
    assert TO_BASE64[2] == "QRSTUVWX";
  }

  lemma Row3ReadsBack(column: int)
    requires 0 <= column < 8
    ensures ReadsBack(3, column)
  {
    assert TO_BASE64[3] == "YZabcdef";
  }

  lemma Row4ReadsBack(column: int)
    requires 0 <= column < 8
    ensures ReadsBack(4, column)
  {
    assert TO_BASE64[4] == "ghijklmn";
  }

  lemma Row5ReadsBack(column: int)
    requires 0 <= column < 8
    ensures ReadsBack(5, column)
  {
    assert TO_BASE64[5] == "opqrstuv";
  }

  lemma Row6ReadsBack(column: int)
    requires 0 <= column < 8
    ensures ReadsBack(6, column)
  {
    assert TO_BASE64[6] == "wxyz0123";
  }

  lemma Row7ReadsBack(column: int)
    requires 0 <= column < 8
    ensures ReadsBack(7, column)
  {
    assert TO_BASE64[7] == "456789+/";
  }

  lemma RowReadsBack(row: int, column: int)
    requires 0 <= row < 8 && 0 <= column < 8
    ensures ReadsBack(row, column)
  {
    hide ReadsBack;
    if
    case row == 0 => Row0ReadsBack(column);
    case row == 1 => Row1ReadsBack(column);
    case row == 2 => Row2ReadsBack(column);
    case row == 3 => Row3ReadsBack(column);
    case row == 4 => Row4ReadsBack(column);
    case row == 5 => Row5ReadsBack(column);
    case row == 6 => Row6ReadsBack(column);
    case row == 7 => Row7ReadsBack(column);
  }

  function Symbol(d: int): (c: char)
    requires 0 <= d < 64
    ensures c as int < 128
  {
    RowReadsBack(d / 8, d % 8);
    SymbolAt(d / 8, d % 8)
  }

  /** The table ends at character 127. */
  predicate InTable(c: char) { c as int < 128 }

  function Digit(c: char): byte
    requires InTable(c)
  {
    DigitAt(c as int)
  }

  lemma SymbolsReadBack(d: int)
    requires 0 <= d < 64
    ensures InTable(Symbol(d)) && Digit(Symbol(d)) == d && Symbol(d) != ','
  {
    hide SymbolAt, DigitAt;
    RowReadsBack(d / 8, d % 8);
  }

  // ------------------------------------------------------------------- groups

  function Sextets(b: seq<byte>): (d: seq<int>)
    requires |b| == 3
    ensures |d| == 4 && forall k :: 0 <= k < 4 ==> 0 <= d[k] < 64
  {
    var b0: int, b1: int, b2: int := b[0], b[1], b[2];
    [b0 / 4, b0 % 4 * 16 + b1 / 16, b1 % 16 * 4 + b2 / 64, b2 % 64]
  }

  function Octets(d: seq<byte>): (b: seq<byte>)
    requires |d| == 4
    ensures |b| == 3
  {
    var d0: int, d1: int, d2: int, d3: int := d[0], d[1], d[2], d[3];
    var b0: int, b1: int, b2: int := d0 % 64 * 4 + d1 / 16 % 4, d1 % 16 * 16 + d2 / 4 % 16, d2 % 4 * 64 + d3 % 64;
    [b0, b1, b2]
  }

  function Group(b: seq<byte>): (s: string)
    requires |b| == 3
    ensures |s| == 4
  {
    var d := Sextets(b);
    [Symbol(d[0]), Symbol(d[1]), Symbol(d[2]), Symbol(d[3])]
  }

  predicate Readable(s: string) { forall c :: c in s ==> InTable(c) }

  function Ungroup(s: string): (b: seq<byte>)
    requires |s| == 4 && Readable(s)
    ensures |b| == 3
  {
    Octets([Digit(s[0]), Digit(s[1]), Digit(s[2]), Digit(s[3])])
  }

  lemma SextetsReadBack(b: seq<byte>, d: seq<byte>)
    requires |b| == 3 && |d| == 4 && forall k :: 0 <= k < 4 ==> d[k] == Sextets(b)[k]
    ensures Octets(d) == b
  {
    var b0: int, b1: int, b2: int := b[0], b[1], b[2];
    assert d[1] / 16 == b0 % 4 && d[1] % 16 == b1 / 16;
    assert d[2] / 4 == b1 % 16 && d[2] % 4 == b2 / 64;
  }

  lemma GroupReadsBack(b: seq<byte>)
    requires |b| == 3
    ensures Readable(Group(b)) && Ungroup(Group(b)) == b && ',' !in Group(b)
  {
    var d := Sextets(b);
    SymbolsReadBack(d[0]);
    SymbolsReadBack(d[1]);
    SymbolsReadBack(d[2]);
    SymbolsReadBack(d[3]);
    hide Symbol, Digit, Octets, Sextets;
    var s := Group(b);
    SextetsReadBack(b, [Digit(s[0]), Digit(s[1]), Digit(s[2]), Digit(s[3])]);
  }

  /** How many groups of three bytes are read for a buffer of that length: the last one may reach past its end. */
  function Groups(length: nat): (n: nat)
    ensures length <= 3 * n < length + 3
  {
    4 * (length + 2) / 3 / 4
  }

  lemma LessOneGroup(n: nat)
    requires n % 3 == 0
    ensures n > 0 ==> n >= 3 && (n - 3) % 3 == 0
  {}

  lemma OneGroupMore(n: nat)
    requires n % 4 == 0
    ensures (n + 4) % 4 == 0
  {}

  function Encoded(b: seq<byte>): (s: string)
    requires |b| % 3 == 0
    ensures |s| % 4 == 0
  {
    LessOneGroup(|b|);
    if b == [] then ""
    else
      var rest := Encoded(b[..|b| - 3]);
      OneGroupMore(|rest|);
      rest + Group(b[|b| - 3..])
  }

  function Decoded(s: string): (b: seq<byte>)
    requires |s| % 4 == 0 && Readable(s)
  {
    if s == "" then []
    else
      ReadableParts(s, s[..|s| - 4], s[|s| - 4..]);
      Decoded(s[..|s| - 4]) + Ungroup(s[|s| - 4..])
  }

  lemma ReadableParts(s: string, x: string, y: string)
    requires Readable(s) && s == x + y
    ensures Readable(x) && Readable(y)
  {
    forall c | c in x || c in y ensures InTable(c) {
      assert c in s;
    }
  }

  /** Decoding gives back every byte that was read, and the text holds no comma. */
  lemma {:induction false} RoundTrip(b: seq<byte>)
    requires |b| % 3 == 0
    ensures Readable(Encoded(b)) && Decoded(Encoded(b)) == b && ',' !in Encoded(b)
  {
    hide Group, Ungroup, InTable, Encoded, Decoded, Readable;
    EncodedNothing();
    NothingDecoded();
    if b != [] {
      LessOneGroup(|b|);
      var rest, last := b[..|b| - 3], b[|b| - 3..];
      RoundTrip(rest);
      GroupReadsBack(last);
      EncodedStep(rest, last);
      DecodedStep(Encoded(rest), Group(last));
      assert b == rest + last;
    }
  }

  // -------------------------------------------------------------------- the loops

  /** buf holds length bytes and whatever lies behind them. */
  method Encode(buf: array<byte>, length: nat) returns (text: string)
    requires 3 * Groups(length) <= buf.Length
    ensures text == Encoded(buf[..3 * Groups(length)])
  {
    hide Symbol, Encoded, Group;
    text := "";
    EncodedNothing();
    assert buf[..0] == [];
    for i := 0 to 4 * (length + 2) / 3 / 4
      invariant text == Encoded(buf[..3 * i])
    {
      var b0: int, b1: int, b2: int := buf[3 * i], buf[3 * i + 1], buf[3 * i + 2];
      EncodedStep(buf[..3 * i], buf[3 * i..3 * i + 3]);
      assert buf[3 * i..3 * i + 3] == [b0, b1, b2] && buf[..3 * i + 3] == buf[..3 * i] + buf[3 * i..3 * i + 3];
      GroupIs(b0, b1, b2);
      text := text + [Symbol(b0 / 4)] + [Symbol(b0 % 4 * 16 + b1 / 16)] + [Symbol(b1 % 16 * 4 + b2 / 64)]
        + [Symbol(b2 % 64)];
    }
  }

  lemma GroupIs(b0: byte, b1: byte, b2: byte)
    ensures var x0: int, x1: int, x2: int := b0, b1, b2; forall text: string ::
      text + [Symbol(x0 / 4)] + [Symbol(x0 % 4 * 16 + x1 / 16)] + [Symbol(x1 % 16 * 4 + x2 / 64)] + [Symbol(x2 % 64)]
      == text + Group([b0, b1, b2])
  {
    hide Symbol;
  }

  lemma EncodedNothing()
    ensures Encoded([]) == ""
  {}

  lemma EncodedStep(b: seq<byte>, group: seq<byte>)
    requires |b| % 3 == 0 && |group| == 3
    ensures (|b| + 3) % 3 == 0 && Encoded(b + group) == Encoded(b) + Group(group)
  {
    hide Group;
    assert (b + group)[..|b|] == b && (b + group)[|b|..] == group;
  }

  /** The character behind the end of a string reads as 0; the ones further on are outside it. */
  function CharAt(text: string, i: nat): char
    requires i <= |text|
  {
    if i < |text| then text[i] else '\0'
  }

  /** Every read lies inside the string, its end included, and inside the table. */
  predicate ReadsInside(text: string) { (|text| % 4 == 0 || |text| % 4 == 3) && Readable(text) }

  function Filled(text: string): (s: string)
    requires ReadsInside(text)
    ensures |s| % 4 == 0 && Readable(s) && |text| <= |s| <= |text| + 1
    ensures forall i :: 0 <= i < |s| ==> s[i] == CharAt(text, i)
  {
    if |text| % 4 == 0 then text else text + "\0"
  }

  method Decode(text: string) returns (bytes: seq<byte>)
    requires ReadsInside(text)
    ensures bytes == Decoded(Filled(text))
  {
    hide Digit, InTable, Readable, Decoded, Ungroup, ReadsInside;
    NothingDecoded();
    bytes := [];
    var i := 0;
    ghost var k, all := 0, Filled(text);
    while i < |text|
      invariant i == 4 * k <= |all| && Readable(all[..i])
      invariant bytes == Decoded(all[..i])
    {
      RoomForGroup(|all|, k);
      var s := [CharAt(text, i), CharAt(text, i + 1), CharAt(text, i + 2), CharAt(text, i + 3)];
      assert all == all[..i] + all[i..] && all[i..] == s + all[i + 4..] && all[..i + 4] == all[..i] + s;
      ReadableParts(all, all[..i], all[i..]);
      ReadableParts(all[i..], s, all[i + 4..]);
      DecodedStep(all[..i], s);
      bytes := bytes + Ungroup(s);
      i := i + 4;
      k := k + 1;
    }
    RoomForGroup(|all|, k);
    assert all[..i] == all;
  }

  lemma RoomForGroup(n: nat, k: nat)
    requires n % 4 == 0 && 4 * k <= n
    ensures 4 * k < n ==> 4 * k + 4 <= n
    ensures 4 * k >= n - 1 ==> 4 * k == n
  {}

  lemma NothingDecoded()
    ensures Readable("") && Decoded("") == []
  {}

  lemma DecodedStep(s: string, group: string)
    requires |s| % 4 == 0 && |group| == 4 && Readable(s) && Readable(group)
    ensures Readable(s + group) && Decoded(s + group) == Decoded(s) + Ungroup(group)
  {
    hide InTable, Ungroup;
    assert (s + group)[..|s|] == s && (s + group)[|s|..] == group;
  }

  lemma LastDigit(s: string)
    requires |s| == 3 && Readable(s)
    ensures Readable(s + "\0") && Readable(s + "/") && Ungroup(s + "\0") == Ungroup(s + "/")
  {
    SlashAndEnd();
    ReadableMore(s, '\0');
    ReadableMore(s, '/');
    hide Digit, InTable, Readable;
  }

  lemma SlashAndEnd()
    ensures InTable('\0') && InTable('/') && Digit('\0') == 255 && Digit('/') == 63
  {}

  /** For a text of three characters more than whole groups the end of the string counts like a slash. */
  lemma EndCountsAsSlash(text: string)
    requires |text| % 4 == 3 && Readable(text)
    ensures ReadsInside(text) && ReadsInside(text + "/") && Decoded(Filled(text)) == Decoded(text + "/")
  {
    hide Ungroup, InTable, Decoded, Readable, Digit;
    var n := |text| - 3;
    var head, tail := text[..n], text[n..];
    assert text == head + tail;
    ReadableParts(text, head, tail);
    SlashAndEnd();
    LastDigit(tail);
    OneMoreCharacter(text, head, tail, '\0');
    OneMoreCharacter(text, head, tail, '/');
  }

  lemma OneMoreCharacter(text: string, head: string, tail: string, c: char)
    requires text == head + tail && |head| % 4 == 0 && |tail| == 3 && Readable(head) && Readable(tail + [c])
    ensures Readable(text + [c]) && |text + [c]| % 4 == 0
    ensures Decoded(text + [c]) == Decoded(head) + Ungroup(tail + [c])
  {
    hide Ungroup, InTable, Decoded, Readable;
    Regrouped(head, tail, c);
    OneGroupMore(|head|);
    DecodedStep(head, tail + [c]);
  }

  lemma Regrouped(s: string, t: string, c: char)
    ensures (s + t) + [c] == s + (t + [c])
  {}

  lemma ReadableMore(s: string, c: char)
    requires Readable(s) && InTable(c)
    ensures Readable(s + [c])
  {
    hide InTable;
  }
}
