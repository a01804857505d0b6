/** Z85 text for bytes: ZeroMQ RFC 32/Z85, and the length-prefixed form for sizes that are no multiple of four. */
module Z85 {

  type byte = x: int | 0 <= x < 256
  newtype uint32 = x: int | 0 <= x < 0x1_0000_0000
  newtype uint64 = x: int | 0 <= x < 0x1_0000_0000_0000_0000

  // ------------------------------------------------------------------ the tables

  /** The 85 symbols in rows of ten. */
  const BASE85: seq<string> := [
    "0123456789", "abcdefghij", "klmnopqrst", "uvwxyzABCD", "EFGHIJKLMN", "OPQRSTUVWX", "YZ.-:+=^!/", "*?&<>()[]{",
      "}@%$#"
  ]

  /** The digit of each character from the space on, in rows of eight. */
  const BASE256: seq<seq<byte>> := [
    [0x00, 0x44, 0x00, 0x54, 0x53, 0x52, 0x48, 0x00],
    [0x4B, 0x4C, 0x46, 0x41, 0x00, 0x3F, 0x3E, 0x45],
    [0x00, 0x01, 0x02, 0x03, 0x04, 0x05, 0x06, 0x07],
    [0x08, 0x09, 0x40, 0x00, 0x49, 0x42, 0x4A, 0x47],
    [0x51, 0x24, 0x25, 0x26, 0x27, 0x28, 0x29, 0x2A],
    [0x2B, 0x2C, 0x2D, 0x2E, 0x2F, 0x30, 0x31, 0x32],
    [0x33, 0x34, 0x35, 0x36, 0x37, 0x38, 0x39, 0x3A],
    [0x3B, 0x3C, 0x3D, 0x4D, 0x00, 0x4E, 0x43, 0x00],
    [0x00, 0x0A, 0x0B, 0x0C, 0x0D, 0x0E, 0x0F, 0x10],
    [0x11, 0x12, 0x13, 0x14, 0x15, 0x16, 0x17, 0x18],
    [0x19, 0x1A, 0x1B, 0x1C, 0x1D, 0x1E, 0x1F, 0x20],
    [0x21, 0x22, 0x23, 0x4F, 0x00, 0x50, 0x00, 0x00]
  ]

  function SymbolAt(row: int, column: int): char
    requires 0 <= row < 9 && 0 <= column < 10 && (row == 8 ==> column < 5)
  {
    BASE85[row][column]
  }

  function DigitAt(k: int): byte
    requires 0 <= k < 96
  {
    var row := BASE256[k / 8];
    assert |row| == 8;
    row[k % 8]
  }

  predicate ReadsBack(row: int, column: int)
    requires 0 <= row < 9 && 0 <= column < 10 && (row == 8 ==> column < 5)
  {
    var k := SymbolAt(row, column) as int - 32;
    0 <= k < 96 && DigitAt(k) == 10 * row + column
  }

  lemma Row0ReadsBack(column: int)
    requires 0 <= column < 10
    ensures ReadsBack(0, column)
  {
    assert BASE85[0] == "0123456789";
  }

  lemma Row1ReadsBack(column: int)
    requires 0 <= column < 10
    ensures ReadsBack(1, column)
  {
    assert BASE85[1] == "abcdefghij";
  }

  lemma Row2ReadsBack(column: int)
    requires 0 <= column < 10
    ensures ReadsBack(2, column)
  {
    assert BASE85[2] == "klmnopqrst";
  }

  lemma Row3ReadsBack(column: int)
    requires 0 <= column < 10
    ensures ReadsBack(3, column)
  {
    assert BASE85[3] == "uvwxyzABCD";
  }

  lemma Row4ReadsBack(column: int)
    requires 0 <= column < 10
    ensures ReadsBack(4, column)
  {
    assert BASE85[4] == "EFGHIJKLMN";
  }

  lemma Row5ReadsBack(column: int)
    requires 0 <= column < 10
    ensures ReadsBack(5, column)
  {
    assert BASE85[5] == "OPQRSTUVWX";
  }

  lemma Row6ReadsBack(column: int)
    requires 0 <= column < 10
    ensures ReadsBack(6, column)
  {
    assert BASE85[6] == "YZ.-:+=^!/";
  }

  lemma Row7ReadsBack(column: int)
    requires 0 <= column < 10
    ensures ReadsBack(7, column)
  {
    assert BASE85[7] == "*?&<>()[]{";
  }

  lemma Row8ReadsBack(column: int)
    requires 0 <= column < 5
    ensures ReadsBack(8, column)
  {
    assert BASE85[8] == "}@%$#";
  }

  lemma RowReadsBack(row: int, column: int)
    requires 0 <= row < 9 && 0 <= column < 10 && (row == 8 ==> column < 5)
    ensures ReadsBack(row, column)
  {
    hide ReadsBack;
    if
    case row == 0 => Row0ReadsBack(column);
    case row == 1 => Row1ReadsBack(column);
    case row == 2 => Row2ReadsBack(column);
    case row == 3 => Row3ReadsBack(column);
    case row == 4 => Row4ReadsBack(column);
    case row == 5 => Row5ReadsBack(column);
    case row == 6 => Row6ReadsBack(column);
    case row == 7 => Row7ReadsBack(column);
    case row == 8 => Row8ReadsBack(column);
  }

  function Symbol(d: int): (c: byte)
    requires 0 <= d < 85
    ensures 32 <= c < 128
  {
    RowReadsBack(d / 10, d % 10);
    SymbolAt(d / 10, d % 10) as int
  }

  /** The characters for which the table has an entry: the others are read past its end. */
  predicate InTable(c: byte) { (c - 32) % 128 < 96 }

  function Digit(c: byte): byte
    requires InTable(c)
  {
    DigitAt((c - 32) % 128)
  }

  lemma SymbolsReadBack(d: int)
    requires 0 <= d < 85
    ensures InTable(Symbol(d)) && Digit(Symbol(d)) == d
  {
    hide SymbolAt, DigitAt;
    RowReadsBack(d / 10, d % 10);
  }

  // -------------------------------------------------------- the division by 85

  const DIV85_MAGIC: uint64 := 3233857729

  /** The product fits in 64 bits and its upper half in 32. */
  function Div85(n: uint32): uint32 {
    Div85Fits(n as int);
    (DIV85_MAGIC * (n as uint64) / 0x1_0000_0000) as uint32 / 64
  }

  lemma Div85Fits(n: int)
    requires 0 <= n < 0x1_0000_0000
    ensures 0 <= 3233857729 * n < 0x1_0000_0000_0000_0000 && 3233857729 * n / 0x1_0000_0000 < 0x1_0000_0000
  {}

  /** The multiplication and the shifts are the division, for every 32-bit number. */
  lemma Div85IsDivision(n: uint32)
    ensures Div85(n) as int == n as int / 85
  {
    var q, r := n as int / 85, n as int % 85;
    var product := 3233857729 * (n as int);
    assert product == 0x40_0000_0000 * q + (21 * q + 3233857729 * r);
    assert 0 <= 21 * q + 3233857729 * r < 0x40_0000_0000;
    assert product / 0x40_0000_0000 == q;
    assert product / 0x1_0000_0000 / 64 == product / 0x40_0000_0000;
  }

  // ------------------------------------------------------------------- the frames

  function BigEndian(b: seq<byte>): (v: int)
    requires |b| == 4
    ensures 0 <= v < 0x1_0000_0000
  {
    (b[0] as int) * 0x100_0000 + (b[1] as int) * 0x1_0000 + (b[2] as int) * 0x100 + (b[3] as int)
  }

  function Octet(v: int): byte { v % 0x100 }

  function Octets(v: int): (b: seq<byte>)
    requires 0 <= v < 0x1_0000_0000
    ensures |b| == 4
  {
    [Octet(v / 0x100_0000), Octet(v / 0x1_0000), Octet(v / 0x100), Octet(v)]
  }

  lemma OctetsOfBigEndian(b: seq<byte>)
    requires |b| == 4
    ensures Octets(BigEndian(b)) == b
  {
    var v: int, g: int := BigEndian(b), (b[0] as int) * 0x100 + (b[1] as int);
    var h: int := g * 0x100 + (b[2] as int);
    assert v == h * 0x100 + (b[3] as int);
    LastByte(h, b[3]);
    LastByte(g, b[2]);
    LastByte(b[0], b[1]);
    ByteByByte(v);
  }

  lemma LastByte(high: nat, low: byte)
    ensures (high * 0x100 + low) / 0x100 == high && (high * 0x100 + low) % 0x100 == low
  {}

  lemma ByteByByte(v: nat)
    ensures v / 0x1_0000 == v / 0x100 / 0x100 && v / 0x100_0000 == v / 0x100 / 0x100 / 0x100
  {}

  /** The five base-85 digits of a number, the most significant first. */
  function Digits(v: int): (d: seq<int>)
    requires 0 <= v < 0x1_0000_0000
    ensures |d| == 5 && forall k :: 0 <= k < 5 ==> 0 <= d[k] < 85
  {
    [v / 85 / 85 / 85 / 85, v / 85 / 85 / 85 % 85, v / 85 / 85 % 85, v / 85 % 85, v % 85]
  }

  function Number(d: seq<int>): int
    requires |d| == 5
  {
    (((d[0] * 85 + d[1]) * 85 + d[2]) * 85 + d[3]) * 85 + d[4]
  }

  lemma NumberOfDigits(v: int)
    requires 0 <= v < 0x1_0000_0000
    ensures Number(Digits(v)) == v
  {}

  /** No other five digits stand for the number. */
  lemma DigitsAreUnique(d: seq<int>, v: int)
    requires |d| == 5 && (forall k :: 0 <= k < 5 ==> 0 <= d[k] < 85) && Number(d) == v && v < 0x1_0000_0000
    ensures 0 <= v && Digits(v) == d
  {
    assert v / 85 == ((d[0] * 85 + d[1]) * 85 + d[2]) * 85 + d[3];
    assert v / 85 / 85 == (d[0] * 85 + d[1]) * 85 + d[2];
    assert v / 85 / 85 / 85 == d[0] * 85 + d[1];
    assert v / 85 / 85 / 85 / 85 == d[0];
  }

  function Symbols(d: seq<int>): (s: seq<byte>)
    requires |d| == 5 && forall k :: 0 <= k < 5 ==> 0 <= d[k] < 85
    ensures |s| == 5
  {
    [Symbol(d[0]), Symbol(d[1]), Symbol(d[2]), Symbol(d[3]), Symbol(d[4])]
  }

  predicate Readable(s: seq<byte>) { forall c :: c in s ==> InTable(c) }

  lemma ReadableParts(s: seq<byte>, x: seq<byte>, y: seq<byte>, z: seq<byte>)
    requires Readable(s) && s == x + y + z
    ensures Readable(x) && Readable(y) && Readable(z)
  {
    forall c | c in x || c in y || c in z ensures InTable(c) {
      assert c in s;
    }
  }

  function DigitsOf(s: seq<byte>): (d: seq<int>)
    requires |s| == 5 && Readable(s)
    ensures |d| == 5
  {
    [Digit(s[0]), Digit(s[1]), Digit(s[2]), Digit(s[3]), Digit(s[4])]
  }

  lemma Multiples(k: nat)
    ensures k * 5 % 5 == 0 && k * 5 / 5 == k && k * 4 % 4 == 0 && k * 4 / 4 == k
  {}

  /** A loop that has done k whole frames out of a whole number of them has room for one more, or is done. */
  lemma WholeFrames(n: nat, k: nat)
    ensures n % 4 == 0 && 4 * k < n ==> 4 * k + 4 <= n
    ensures n % 5 == 0 && 5 * k < n ==> 5 * k + 5 <= n
    ensures n == 4 * k ==> n / 4 * 5 == 5 * k
    ensures n == 5 * k ==> n / 5 * 4 == 4 * k
    ensures n % 4 == 0 && 4 * k <= n ==> 5 * k <= n / 4 * 5
    ensures n % 5 == 0 && 5 * k <= n ==> 4 * k <= n / 5 * 4
  {}

  lemma FourFifths(n: nat)
    requires n % 4 == 0
    ensures n / 4 * 5 % 5 == 0 && (n >= 4 ==> (n - 4) % 4 == 0 && (n - 4) / 4 * 5 + 5 == n / 4 * 5)
  {
    var k: nat := n / 4;
    assert n == k * 4;
    Multiples(k);
    if k > 0 {
      assert n - 4 == (k - 1) * 4;
      Multiples(k - 1);
    }
  }

  lemma FiveFourths(n: nat)
    requires n % 5 == 0
    ensures n / 5 * 4 % 4 == 0 && (n >= 5 ==> (n - 5) % 5 == 0 && (n - 5) / 5 * 4 + 4 == n / 5 * 4)
  {
    var k: nat := n / 5;
    assert n == k * 5;
    Multiples(k);
    if k > 0 {
      assert n - 5 == (k - 1) * 5;
      Multiples(k - 1);
    }
  }

  /** Frames of four bytes, each as five symbols. */
  function Encoded(b: seq<byte>): (s: seq<byte>)
    requires |b| % 4 == 0
    ensures |s| == |b| / 4 * 5 && |s| % 5 == 0
  {
    FourFifths(|b|);
    if b == [] then [] else Encoded(b[..|b| - 4]) + Symbols(Digits(BigEndian(b[|b| - 4..])))
  }

  /** Five symbols as four bytes; a number over 32 bits wraps. */
  function FrameOctets(s: seq<byte>): (b: seq<byte>)
    requires |s| == 5 && Readable(s)
    ensures |b| == 4
  {
    Octets(Number(DigitsOf(s)) % 0x1_0000_0000)
  }

  /** Frames of five symbols, each as four bytes. */
  function Decoded(s: seq<byte>): (b: seq<byte>)
    requires |s| % 5 == 0 && Readable(s)
    ensures |b| == |s| / 5 * 4 && |b| % 4 == 0
  {
    FiveFourths(|s|);
    if s == [] then []
    else
      ReadableParts(s, s[..|s| - 5], s[|s| - 5..], []);
      Decoded(s[..|s| - 5]) + FrameOctets(s[|s| - 5..])
  }

  lemma EncodedStep(b: seq<byte>, frame: seq<byte>)
    requires |b| % 4 == 0 && |frame| == 4
    ensures Encoded(b + frame) == Encoded(b) + Symbols(Digits(BigEndian(frame)))
  {
    hide Symbols, Digits, BigEndian;
    assert (b + frame)[..|b|] == b && (b + frame)[|b|..] == frame;
  }

  lemma DecodedStep(s: seq<byte>, frame: seq<byte>)
    requires |s| % 5 == 0 && |frame| == 5 && Readable(s) && Readable(frame)
    ensures Readable(s + frame)
    ensures Decoded(s + frame) == Decoded(s) + FrameOctets(frame)
  {
    hide FrameOctets;
    assert (s + frame)[..|s|] == s && (s + frame)[|s|..] == frame;
  }

  lemma FrameReadsBack(v: int)
    requires 0 <= v < 0x1_0000_0000
    ensures Readable(Symbols(Digits(v))) && Number(DigitsOf(Symbols(Digits(v)))) == v
  {
    var d := Digits(v);
    SymbolsReadBack(d[0]);
    SymbolsReadBack(d[1]);
    SymbolsReadBack(d[2]);
    SymbolsReadBack(d[3]);
    SymbolsReadBack(d[4]);
    hide Digit, Symbol, InTable;
    assert DigitsOf(Symbols(d)) == d;
    NumberOfDigits(v);
  }

  /** Decoding undoes encoding. */
  lemma {:induction false} DecodedEncoded(b: seq<byte>)
    requires |b| % 4 == 0
    ensures Readable(Encoded(b)) && Decoded(Encoded(b)) == b
  {
    hide Symbols, Digits, BigEndian, DigitsOf, Number, Octets, Readable, Encoded, Decoded;
    EncodedNothing();
    DecodedNothing();
    if b != [] {
      var rest, frame := b[..|b| - 4], b[|b| - 4..];
      FourFifths(|b|);
      DecodedEncoded(rest);
      FrameReadsBack(BigEndian(frame));
      EncodedStep(rest, frame);
      DecodedStep(Encoded(rest), Symbols(Digits(BigEndian(frame))));
      OctetsOfBigEndian(frame);
      assert b == rest + frame;
    }
  }

  // --------------------------------------------------------------- the loops in place

  /** Five symbols for one number, from the last to the first. */
  method PutFrame(value: uint32, dst: array<byte>, at: nat)
    requires at + 5 <= dst.Length
    modifies dst
    ensures dst[..] == old(dst[..at]) + Symbols(Digits(value as int)) + old(dst[at + 5..])
  {
    hide Symbol, Div85;
    ghost var d, before := Digits(value as int), dst[..];
    var v := value;
    Div85IsDivision(v);
    var v2 := Div85(v);
    dst[at + 4] := Symbol((v - v2 * 85) as int);
    v := v2;
    Div85IsDivision(v);
    v2 := Div85(v);
    dst[at + 3] := Symbol((v - v2 * 85) as int);
    v := v2;
    Div85IsDivision(v);
    v2 := Div85(v);
    dst[at + 2] := Symbol((v - v2 * 85) as int);
    v := v2;
    Div85IsDivision(v);
    v2 := Div85(v);
    dst[at + 1] := Symbol((v - v2 * 85) as int);
    dst[at] := Symbol(v2 as int);
    assert dst[at..at + 5] == Symbols(d);
    assert dst[..] == dst[..at] + dst[at..at + 5] + dst[at + 5..];
  }

  method FrameAt(src: array<byte>, i: nat) returns (value: uint32)
    requires i + 4 <= src.Length
    ensures value as int == BigEndian(src[i..i + 4])
  {
    value := (src[i] as uint32) * 0x100_0000 + (src[i + 1] as uint32) * 0x1_0000 + (src[i + 2] as uint32) * 0x100
      + (src[i + 3] as uint32);
  }

  /** Z85_encode_unsafe over src[from..to], writing at dst[at]. */
  method EncodeUnsafe(src: array<byte>, from: nat, to: nat, dst: array<byte>, at: nat) returns (next: nat)
    requires src != dst && from <= to <= src.Length && (to - from) % 4 == 0 && at + (to - from) / 4 * 5 <= dst.Length
    modifies dst
    ensures next == at + (to - from) / 4 * 5
    ensures dst[..] == old(dst[..at]) + Encoded(src[from..to]) + old(dst[next..])
  {
    hide Symbols, Digits, BigEndian, Encoded, Written;
    ghost var before, s, k := dst[..], src[..], 0;
    var i := from;
    next := at;
    EncodedNothing();
    assert s[from..from] == [];
    WrittenNothing(before, at);
    while i != to
      invariant i == from + 4 * k <= to && next == at + 5 * k && src[..] == s
      invariant Written(dst[..], before, at, Encoded(s[from..i]), next)
    {
      WholeFrames(to - from, k);
      WholeFrames(to - from, k + 1);
      EncodedOn(s, from, i, to, before, dst[..], at, next);
      var value := FrameAt(src, i);
      assert src[i..i + 4] == s[i..i + 4];
      PutFrame(value, dst, next);
      i := i + 4;
      next := next + 5;
      k := k + 1;
    }
    WholeFrames(to - from, k);
    WrittenAll(dst[..], before, at, Encoded(s[from..to]), next);
  }

  lemma EncodedOn(s: seq<byte>, from: nat, i: nat, to: nat, before: seq<byte>, now: seq<byte>, at: nat, next: nat)
    requires from <= i && i + 4 <= to <= |s| && (i - from) % 4 == 0
    requires Written(now, before, at, Encoded(s[from..i]), next) && next + 5 <= |before|
    ensures (i + 4 - from) % 4 == 0 && |now| == |before|
    ensures Written(now[..next] + Symbols(Digits(BigEndian(s[i..i + 4]))) + now[next + 5..], before, at,
                    Encoded(s[from..i + 4]), next + 5)
  {
    hide Symbols, Digits, BigEndian, Encoded, Written;
    FrameParts(s, from, i, 4, to);
    EncodedStep(s[from..i], s[i..i + 4]);
    Splice(before, now, at, next, Encoded(s[from..i]), Symbols(Digits(BigEndian(s[i..i + 4]))));
  }

  lemma FrameParts(s: seq<byte>, from: nat, i: nat, n: nat, to: nat)
    requires from <= i && i + n <= to <= |s|
    ensures s[from..to] == s[from..i] + s[i..i + n] + s[i + n..to] && s[from..i + n] == s[from..i] + s[i..i + n]
  {}

  /** From a place on, exactly these bytes have been written so far. */
  ghost predicate Written(now: seq<byte>, before: seq<byte>, at: nat, done: seq<byte>, next: nat) {
    next == at + |done| && next <= |before| && now == before[..at] + done + before[next..]
  }

  lemma WrittenNothing(before: seq<byte>, at: nat)
    requires at <= |before|
    ensures Written(before, before, at, [], at)
  {}

  lemma WrittenAll(now: seq<byte>, before: seq<byte>, at: nat, done: seq<byte>, next: nat)
    requires Written(now, before, at, done, next)
    ensures next <= |before| && now == before[..at] + done + before[next..]
  {}

  /** One more frame behind those already written. */
  lemma Splice(before: seq<byte>, now: seq<byte>, at: nat, next: nat, done: seq<byte>, frame: seq<byte>)
    requires Written(now, before, at, done, next) && next + |frame| <= |before|
    ensures |now| == |before|
    ensures Written(now[..next] + frame + now[next + |frame|..], before, at, done + frame, next + |frame|)
  {
    var now' := now[..next] + frame + now[next + |frame|..];
    assert now[..next] == before[..at] + done;
    assert now[next + |frame|..] == before[next + |frame|..];
    assert now' == before[..at] + (done + frame) + before[next + |frame|..];
  }

  lemma EncodedNothing()
    ensures Encoded([]) == []
  {}

  lemma DecodedNothing()
    ensures Readable([]) && Decoded([]) == []
  {}

  /** The value of five symbols, in 32 bits. */
  method ValueAt(src: array<byte>, i: nat) returns (value: uint32)
    requires i + 5 <= src.Length && Readable(src[i..i + 5])
    ensures value as int == Number(DigitsOf(src[i..i + 5])) % 0x1_0000_0000
  {
    hide Digit, InTable, Append;
    ghost var s := src[i..i + 5];
    assert s[0] in s && s[1] in s && s[2] in s && s[3] in s && s[4] in s;
    ghost var d := DigitsOf(s);
    value := Digit(src[i]) as uint32;
    value := Append(value, Digit(src[i + 1]));
    assert value as int == d[0] * 85 + d[1] < 0x1_0000;
    value := Append(value, Digit(src[i + 2]));
    assert value as int == (d[0] * 85 + d[1]) * 85 + d[2] < 0x100_0000;
    value := Append(value, Digit(src[i + 3]));
    assert value as int == ((d[0] * 85 + d[1]) * 85 + d[2]) * 85 + d[3];
    value := Append(value, Digit(src[i + 4]));
  }

  /** value * 85 + digit in 32 bits. */
  function Append(value: uint32, digit: byte): (r: uint32)
    ensures r as int == ((value as int) * 85 + (digit as int)) % 0x1_0000_0000
  {
    (((value as int) * 85 + (digit as int)) % 0x1_0000_0000) as uint32
  }

  /** Z85_decode_unsafe over src[from..to], writing at dst[at]. */
  method DecodeUnsafe(src: array<byte>, from: nat, to: nat, dst: array<byte>, at: nat) returns (next: nat)
    requires src != dst && from <= to <= src.Length && (to - from) % 5 == 0 && at + (to - from) / 5 * 4 <= dst.Length
    requires Readable(src[from..to])
    modifies dst
    ensures next == at + (to - from) / 5 * 4
    ensures dst[..] == old(dst[..at]) + Decoded(src[from..to]) + old(dst[next..])
  {
    hide FrameOctets, Decoded, Readable, InTable, Written;
    ghost var before, s, k := dst[..], src[..], 0;
    var i := from;
    next := at;
    DecodedNothing();
    assert s[from..from] == [];
    WrittenNothing(before, at);
    while i != to
      invariant i == from + 5 * k <= to && next == at + 4 * k && src[..] == s
      invariant Readable(s[from..i])
      invariant Written(dst[..], before, at, Decoded(s[from..i]), next)
    {
      WholeFrames(to - from, k);
      WholeFrames(to - from, k + 1);
      DecodedOn(s, from, i, to, before, dst[..], at, next);
      assert src[i..i + 5] == s[i..i + 5];
      DecodeFrame(src, i, dst, next);
      i := i + 5;
      next := next + 4;
      k := k + 1;
    }
    WholeFrames(to - from, k);
    WrittenAll(dst[..], before, at, Decoded(s[from..to]), next);
  }

  /** The same frame by frame as DecodedStep, for the bytes read and written so far. */
  lemma DecodedOn(s: seq<byte>, from: nat, i: nat, to: nat, before: seq<byte>, now: seq<byte>, at: nat, next: nat)
    requires from <= i && i + 5 <= to <= |s| && (i - from) % 5 == 0
    requires Readable(s[from..to]) && Readable(s[from..i])
    requires Written(now, before, at, Decoded(s[from..i]), next) && next + 4 <= |before|
    ensures (i + 5 - from) % 5 == 0 && |now| == |before|
    ensures Readable(s[i..i + 5]) && Readable(s[from..i + 5])
    ensures Written(now[..next] + FrameOctets(s[i..i + 5])
      + now[next + 4..], before, at, Decoded(s[from..i + 5]), next + 4)
  {
    hide FrameOctets, Decoded, Readable, InTable, Written;
    FrameParts(s, from, i, 5, to);
    ReadableParts(s[from..to], s[from..i], s[i..i + 5], s[i + 5..to]);
    DecodedStep(s[from..i], s[i..i + 5]);
    Splice(before, now, at, next, Decoded(s[from..i]), FrameOctets(s[i..i + 5]));
  }

  method DecodeFrame(src: array<byte>, i: nat, dst: array<byte>, at: nat)
    requires src != dst && i + 5 <= src.Length && at + 4 <= dst.Length && Readable(src[i..i + 5])
    modifies dst
    ensures dst[..] == old(dst[..at]) + FrameOctets(src[i..i + 5]) + old(dst[at + 4..])
  {
    hide Octets, DigitsOf, Number, Readable, InTable;
    var value := ValueAt(src, i);
    PutOctets(value, dst, at);
  }

  method PutOctets(value: uint32, dst: array<byte>, at: nat)
    requires at + 4 <= dst.Length
    modifies dst
    ensures dst[..] == old(dst[..at]) + Octets(value as int) + old(dst[at + 4..])
  {
    dst[at] := (value / 0x100_0000) as byte;
    dst[at + 1] := Octet((value / 0x1_0000) as int);
    dst[at + 2] := Octet((value / 0x100) as int);
    dst[at + 3] := Octet(value as int);
    assert dst[at..at + 4] == Octets(value as int);
    assert dst[..] == dst[..at] + dst[at..at + 4] + dst[at + 4..];
  }

  // ------------------------------------------------------------- bounds and padding

  function EncodeBound(size: nat): nat { size * 5 / 4 }

  function DecodeBound(size: nat): nat { size * 4 / 5 }

  function EncodeWithPaddingBound(size: nat): nat {
    if size == 0 then 0
    else
      var n := EncodeBound(size);
      n + (5 - n % 5) % 5 + 1
  }

  /** '1' to '4' count the bytes in the last frame. */
  predicate GoodMark(c: byte) { (c - 49) % 256 <= 3 }

  function Count(mark: byte): (n: int)
    requires GoodMark(mark)
    ensures 1 <= n <= 4
  {
    mark - 48
  }

  function MarkOf(n: int): (mark: byte)
    requires 1 <= n <= 4
    ensures GoodMark(mark) && Count(mark) == n
  {
    48 + n
  }

  function DecodeWithPaddingBound(s: seq<byte>): int {
    if s == [] || !GoodMark(s[0]) then 0 else DecodeBound(|s| - 1) - 4 + Count(s[0])
  }

  function Zeros(n: nat): (z: seq<byte>)
    ensures |z| == n
  {
    seq(n, _ => 0)
  }

  function Body(b: seq<byte>): (r: seq<byte>)
    ensures |r| % 4 == 0 && |r| == |b| - |b| % 4
  {
    b[..|b| - |b| % 4]
  }

  function LastFrame(b: seq<byte>): (r: seq<byte>)
    requires |b| % 4 != 0
    ensures |r| == 4
  {
    b[|b| - |b| % 4..] + Zeros(4 - |b| % 4)
  }

  /** The count of tail bytes as a digit, the whole frames, and the tail filled up with zeros. */
  function EncodedWithPadding(b: seq<byte>): seq<byte> {
    var tail := |b| % 4;
    if b == [] then []
    else if tail == 0 then [MarkOf(4)] + Encoded(b)
    else [MarkOf(tail)] + Encoded(Body(b)) + Encoded(LastFrame(b))
  }

  predicate Proper(s: seq<byte>) { s != [] && (|s| - 1) % 5 == 0 && GoodMark(s[0]) }

  // ------------------------------------- what the decoder of padded text reads

  /** One frame of the loop: its five characters lie inside the text, and their digits inside the table. */
  predicate FrameInside(s: seq<byte>, at: int) {
    0 <= at && at + 5 <= |s| && forall k :: at <= k < at + 5 ==> InTable(s[k])
  }

  /** The frames of the loop `for (; src != end; src += 5)`. */
  predicate LoopInside(s: seq<byte>, at: int, end: int)
    requires 0 <= at
    decreases |s| - at
  {
    at == end || (FrameInside(s, at) && LoopInside(s, at + 5, end))
  }

  /** Everything the decoder reads lies inside the text and the table. It reads nothing but the mark when the
      size or the mark is wrong; otherwise the frames from 1 up to the last one, and the last one. */
  predicate ReadsInside(s: seq<byte>) {
    s == [] || (|s| - 1) % 5 != 0 || !GoodMark(s[0]) || (LoopInside(s, 1, |s| - 5) && FrameInside(s, |s| - 5))
  }

  lemma {:induction false} LoopReads(s: seq<byte>, at: nat, end: int)
    requires at <= end <= |s| && (end - at) % 5 == 0
    ensures LoopInside(s, at, end) <==> forall k :: at <= k < end ==> InTable(s[k])
    decreases end - at
  {
    hide InTable;
    if at < end {
      LoopReads(s, at + 5, end);
    }
  }

  lemma ReadableFrom(s: seq<byte>)
    requires s != []
    ensures Readable(s[1..]) <==> forall k :: 1 <= k < |s| ==> InTable(s[k])
  {
    hide InTable;
    assert forall k :: 1 <= k < |s| ==> s[k] == s[1..][k - 1] && s[k] in s[1..];
  }

  /** The decoder reads inside the text and the table exactly when it refuses the text, or the text has at least
      one frame and every character behind the mark has an entry in the table. */
  lemma ReadsInsideExactly(s: seq<byte>)
    ensures ReadsInside(s) <==>
      s == [] || (|s| - 1) % 5 != 0 || !GoodMark(s[0]) || (|s| > 1 && Readable(s[1..]))
  {
    hide InTable, Readable, GoodMark, LoopInside;
    if s != [] && (|s| - 1) % 5 == 0 {
      ReadableFrom(s);
      if |s| > 1 {
        assert (|s| - 5 - 1) % 5 == 0;
        LoopReads(s, 1, |s| - 5);
      }
    }
  }

  /** A mark alone is read past its end, and before its start. */
  lemma OneCharacterReadsOutside(mark: byte)
    ensures ReadsInside([mark]) <==> !GoodMark(mark)
  {
    ReadsInsideExactly([mark]);
  }

  /** Exactly the bytes 0 to 31 and 128 to 159 are read past the end of the table, wherever they stand. */
  lemma BadByteReadsOutside(s: seq<byte>, k: nat)
    requires Proper(s) && 1 <= k < |s| && (s[k] < 32 || 128 <= s[k] < 160)
    ensures !ReadsInside(s)
  {
    ReadsInsideExactly(s);
    assert s[k] in s[1..] by { assert s[k] == s[1..][k - 1]; }
  }

  lemma TableEntries(c: byte)
    ensures InTable(c) <==> !(c < 32 || 128 <= c < 160)
  {}

  /** What is written for a text: nothing when its size or its mark is wrong. */
  function DecodedWithPadding(s: seq<byte>): seq<byte>
    requires ReadsInside(s)
  {
    ReadsInsideExactly(s);
    if Proper(s) then FirstOf(Decoded(s[1..]), Count(s[0])) else []
  }

  /** All bytes up to the last frame, and that many of it. */
  function FirstOf(b: seq<byte>, n: int): seq<byte>
    requires 1 <= n <= 4
  {
    if |b| < 4 then [] else b[..|b| - 4 + n]
  }

  /** The bytes filled up to whole frames, and how many of the last frame are meant. */
  function Full(b: seq<byte>): (f: seq<byte>)
    ensures |f| % 4 == 0 && b <= f
  {
    if |b| % 4 == 0 then b else b + Zeros(4 - |b| % 4)
  }

  function Meant(b: seq<byte>): (n: int)
    ensures 1 <= n <= 4
    ensures b != [] ==> |Full(b)| - 4 + n == |b|
  {
    if |b| % 4 == 0 then 4 else |b| % 4
  }

  lemma EncodedParts(body: seq<byte>, last: seq<byte>)
    requires |body| % 4 == 0 && |last| == 4
    ensures Encoded(body + last) == Encoded(body) + Encoded(last)
  {
    hide Symbols, Digits, BigEndian, Encoded;
    EncodedNothing();
    EncodedStep(body, last);
    EncodedStep([], last);
    assert [] + last == last;
    var frame := Symbols(Digits(BigEndian(last)));
    assert [] + frame == frame;
  }

  lemma PaddedFrames(b: seq<byte>)
    requires b != []
    ensures EncodedWithPadding(b) == [MarkOf(Meant(b))] + Encoded(Full(b))
  {
    if |b| % 4 > 0 {
      hide Encoded, MarkOf, Full, Body, LastFrame;
      FullParts(b);
      EncodedParts(Body(b), LastFrame(b));
      var mark := [MarkOf(|b| % 4)];
      assert mark + Encoded(Body(b)) + Encoded(LastFrame(b)) == mark + (Encoded(Body(b)) + Encoded(LastFrame(b)));
    }
  }

  lemma FullParts(b: seq<byte>)
    requires |b| % 4 != 0
    ensures Full(b) == Body(b) + LastFrame(b)
  {}

  /** Decoding undoes encoding for every byte string of every length. */
  lemma PaddingRoundTrip(b: seq<byte>)
    ensures b != [] ==> Readable(EncodedWithPadding(b)[1..])
    ensures ReadsInside(EncodedWithPadding(b)) && DecodedWithPadding(EncodedWithPadding(b)) == b
  {
    if b != [] {
      hide Encoded, Decoded, Readable, Full, Meant, EncodedWithPadding, GoodMark, MarkOf, Count, FirstOf, ReadsInside;
      PaddedFrames(b);
      var full := Full(b);
      DecodedEncoded(full);
      MarkedFrames(EncodedWithPadding(b), Meant(b), Encoded(full));
      FirstOfFull(b);
    }
  }

  lemma MarkedFrames(s: seq<byte>, n: int, frames: seq<byte>)
    requires 1 <= n <= 4 && |frames| % 5 == 0 && frames != [] && Readable(frames) && s == [MarkOf(n)] + frames
    ensures s != [] && s[1..] == frames && ReadsInside(s) && DecodedWithPadding(s) == FirstOf(Decoded(frames), n)
  {
    hide Decoded, Readable, GoodMark, MarkOf, Count, FirstOf, ReadsInside;
    ReadsInsideExactly(s);
    assert s[1..] == frames && s[0] == MarkOf(n);
  }

  lemma FirstOfFull(b: seq<byte>)
    requires b != []
    ensures FirstOf(Full(b), Meant(b)) == b
  {}

  lemma BoundOfParts(q: nat, tail: nat)
    requires tail < 4 && 4 * q + tail > 0
    ensures EncodeWithPaddingBound(4 * q + tail) == 1 + (if tail == 0 then q else q + 1) * 5
  {
    assert (4 * q + tail) * 5 / 4 == 5 * q + tail;
    assert (5 * q + tail) % 5 == tail;
  }

  lemma FullSize(b: seq<byte>)
    ensures |Full(b)| == 4 * (if |b| % 4 == 0 then |b| / 4 else |b| / 4 + 1)
  {}

  lemma PaddedSize(b: seq<byte>)
    requires b != []
    ensures |EncodedWithPadding(b)| == EncodeWithPaddingBound(|b|)
    ensures |EncodedWithPadding(b)| - 1 == |Full(b)| / 4 * 5
    ensures EncodedWithPadding(b)[0] == MarkOf(Meant(b))
  {
    hide Encoded, EncodedWithPadding, EncodeWithPaddingBound, Full, Meant, MarkOf;
    PaddedFrames(b);
    FullSize(b);
    BoundOfParts(|b| / 4, |b| % 4);
  }

  /** Each bound is the number of bytes written. */
  lemma BoundsAreExact(b: seq<byte>)
    ensures |EncodedWithPadding(b)| == EncodeWithPaddingBound(|b|)
    ensures |b| % 4 == 0 ==> |Encoded(b)| == EncodeBound(|b|)
    ensures b != [] ==> DecodeWithPaddingBound(EncodedWithPadding(b)) == |b|
  {
    hide Encoded;
    if b != [] {
      PaddedSize(b);
      FullSize(b);
      hide EncodedWithPadding, EncodeWithPaddingBound, Full, Meant, MarkOf, GoodMark, Count;
      var k := |Full(b)| / 4;
      assert DecodeBound(k * 5) == 4 * k == |Full(b)|;
    }
  }

  lemma DecodeBoundIsExact(s: seq<byte>)
    requires |s| % 5 == 0 && Readable(s)
    ensures |Decoded(s)| == DecodeBound(|s|)
  {
    hide Decoded;
  }

  /** The bound for padded text counts the bytes written for every text that has room for a frame. */
  lemma DecodeWithPaddingBoundIsExact(s: seq<byte>)
    requires s == [] || (|s| - 1) % 5 == 0
    requires ReadsInside(s)
    ensures |DecodedWithPadding(s)| == DecodeWithPaddingBound(s)
  {
    hide Decoded, Readable, ReadsInside, InTable;
    ReadsInsideExactly(s);
    if Proper(s) {
      DecodeBoundIsExact(s[1..]);
    }
  }

  lemma TailInFrame(frame: seq<byte>, tail: seq<byte>)
    requires 1 <= |tail| <= 3 && |frame| == 4
    requires frame[0] == tail[0] && frame[1] == (if |tail| > 1 then tail[1] else 0)
    requires frame[2] == (if |tail| > 2 then tail[2] else 0) && frame[3] == 0
    ensures frame == tail + Zeros(4 - |tail|)
  {}

  /** The tail of the bytes in a zeroed frame. */
  method EncodeTail(source: array<byte>, end: nat, tail: nat, dest: array<byte>, at: nat) returns (next: nat)
    requires source != dest && 1 <= tail <= 3 && end + tail <= source.Length && at + 5 <= dest.Length
    modifies dest
    ensures next == at + 5
    ensures dest[..] == old(dest[..at]) + Encoded(source[end..end + tail] + Zeros(4 - tail)) + old(dest[next..])
  {
    hide Encoded;
    var tailBuf := new byte[4](_ => 0);
    if tail == 3 {
      tailBuf[2] := source[end + 2];
    }
    if tail >= 2 {
      tailBuf[1] := source[end + 1];
    }
    tailBuf[0] := source[end];
    TailInFrame(tailBuf[..], source[end..end + tail]);
    assert tailBuf[0..4] == tailBuf[..];
    assert dest[..] == old(dest[..]);
    next := EncodeUnsafe(tailBuf, 0, 4, dest, at);
  }

  method EncodeWithPadding(source: array<byte>, size: nat, dest: array<byte>) returns (written: nat)
    requires source != dest && size <= source.Length && EncodeWithPaddingBound(size) <= dest.Length
    modifies dest
    ensures written == EncodeWithPaddingBound(size)
    ensures dest[..] == EncodedWithPadding(source[..size]) + old(dest[written..])
  {
    hide Encoded, MarkOf, EncodeWithPaddingBound;
    ghost var b, before := source[..size], dest[..];
    var tail := size % 4;
    if size == 0 {
      BoundsAreExact(b);
      return 0;
    }
    BoundOfParts(size / 4, tail);
    var end := size - tail;
    var mark := MarkOf(if tail == 0 then 4 else tail);
    dest[0] := mark;
    assert dest[..1] == [mark] && dest[1..] == before[1..];
    var dst := EncodeUnsafe(source, 0, end, dest, 1);
    assert source[0..end] == Body(b);
    assert dest[..] == [mark] + Encoded(Body(b)) + before[dst..];
    if tail > 0 {
      dst := EncodeTail(source, end, tail, dest, dst);
      assert source[end..end + tail] + Zeros(4 - tail) == LastFrame(b);
    } else {
      assert Body(b) == b;
    }
    written := dst;
  }

  method DecodeBody(source: array<byte>, end: nat, dest: array<byte>) returns (dst: nat)
    requires source != dest && 1 <= end <= source.Length && (end - 1) % 5 == 0 && Readable(source[1..end])
    requires |Decoded(source[1..end])| <= dest.Length
    modifies dest
    ensures dst == |Decoded(source[1..end])| && dest[..] == Decoded(source[1..end]) + old(dest[dst..])
  {
    hide Decoded, Readable;
    dst := 0;
    if end != 1 {
      dst := DecodeUnsafe(source, 1, end, dest, 0);
    }
  }

  /** For every text that the program reads inside. */
  method DecodeWithPadding(source: array<byte>, size: nat, dest: array<byte>) returns (written: nat)
    requires source != dest && size <= source.Length
    requires ReadsInside(source[..size])
    requires |DecodedWithPadding(source[..size])| <= dest.Length
    modifies dest
    ensures written == |DecodedWithPadding(source[..size])|
    ensures dest[..] == DecodedWithPadding(source[..size]) + old(dest[written..])
  {
    hide Decoded, Readable, DecodedWithPadding, ReadsInside, InTable;
    ghost var s, before := source[..size], dest[..];
    ReadsInsideExactly(s);
    if size == 0 || (size - 1) % 5 != 0 {
      OtherwiseNothing(s);
      return 0;
    }
    var mark := source[0];
    if !GoodMark(mark) {
      OtherwiseNothing(s);
      return 0;
    }
    var tail := Count(mark);
    var end := size - 5;
    ghost var body, last := source[1..end], source[end..size];
    assert s[1..] == body + last && source[1..size] == s[1..] && end - 1 == size - 1 - 5;
    ReadableParts(s[1..], body, last, []);
    DecodedOfParts(s, body, last);
    var dst := DecodeBody(source, end, dest);
    var tailBuf := new byte[4](_ => 0);
    var full := DecodeUnsafe(source, end, size, tailBuf, 0);
    assert tailBuf[..] == Decoded(last);
    CopyTail(dest, dst, tailBuf, tail);
    written := dst + tail;
  }

  lemma OtherwiseNothing(s: seq<byte>)
    requires !Proper(s)
    ensures ReadsInside(s) && DecodedWithPadding(s) == []
  {}

  lemma DecodedOfParts(s: seq<byte>, body: seq<byte>, last: seq<byte>)
    requires Proper(s) && s[1..] == body + last && |last| == 5 && |body| % 5 == 0 && Readable(s[1..])
      && Readable(body) && Readable(last)
    ensures ReadsInside(s) && DecodedWithPadding(s) == Decoded(body) + Decoded(last)[..Count(s[0])]
  {
    hide Decoded, Readable, ReadsInside;
    ReadsInsideExactly(s);
    DecodedParts(body, last);
  }

  lemma DecodedParts(body: seq<byte>, last: seq<byte>)
    requires |body| % 5 == 0 && |last| == 5 && Readable(body) && Readable(last)
    ensures Readable(body + last) && Decoded(body + last) == Decoded(body) + Decoded(last)
  {
    hide Octets, Number, DigitsOf, Decoded, Readable;
    DecodedNothing();
    DecodedStep(body, last);
    DecodedStep([], last);
    assert [] + last == last;
    var frame := FrameOctets(last);
    assert [] + frame == frame;
  }

  /** The switch that falls through. */
  method CopyTail(dest: array<byte>, dst: nat, tailBuf: array<byte>, tail: int)
    requires dest != tailBuf && tailBuf.Length == 4 && 1 <= tail <= 4 && dst + tail <= dest.Length
    modifies dest
    ensures dest[..] == old(dest[..dst]) + tailBuf[..tail] + old(dest[dst + tail..])
  {
    if tail == 4 {
      dest[dst + 3] := tailBuf[3];
    }
    if tail >= 3 {
      dest[dst + 2] := tailBuf[2];
    }
    if tail >= 2 {
      dest[dst + 1] := tailBuf[1];
    }
    dest[dst] := tailBuf[0];
    assert dest[dst..dst + tail] == tailBuf[..tail];
    assert dest[..] == dest[..dst] + dest[dst..dst + tail] + dest[dst + tail..];
  }
}
