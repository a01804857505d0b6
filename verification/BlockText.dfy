/** Blocks as text on the wire: fields ended by commas, transactions by semicolons, their fields by underscores, inputs
    by dashes. */
module BlockText {
  import Base64
  import Framing
  import Ledger

  datatype Option<T> = None | Some(value: T)

  /** A block as it is printed. The lucky number is its eight bytes in memory. */
  datatype Block = Block(prev: string, merkle: string, txs: seq<Ledger.Transaction>, hash: string, index: int,
                         luck: seq<Base64.byte>, timestamp: int, certificate: string)

  // ------------------------------------------------------------- lists of strings

  /** Every piece with the separator behind it. */
  function Ended(pieces: seq<string>, sep: char): string {
    if pieces == [] then "" else pieces[0] + [sep] + Ended(pieces[1..], sep)
  }

  /** QString::split: the pieces between separators, empty ones kept. */
  function Split(s: string, sep: char): (r: seq<string>)
    ensures |r| >= 1
  {
    if sep !in s then [s]
    else
      var k := IndexOf(s, sep);
      [s[..k]] + Split(s[k + 1..], sep)
  }

  function IndexOf(s: string, c: char): (k: nat)
    requires c in s
    ensures k < |s| && s[k] == c && forall j :: 0 <= j < k ==> s[j] != c
  {
    if s[0] == c then 0 else
      assert s == [s[0]] + s[1..];
      IndexOf(s[1..], c) + 1
  }

  lemma SplitFirst(x: string, rest: string, sep: char)
    requires sep !in x
    ensures Split(x + [sep] + rest, sep) == [x] + Split(rest, sep)
  {
    var s := x + [sep] + rest;
    assert s[|x|] == sep;
    var k := IndexOf(s, sep);
    assert forall j :: 0 <= j < |x| ==> s[j] == x[j] && x[j] in x;
    assert k == |x|;
    assert s[..k] == x && s[k + 1..] == rest;
  }

  ghost predicate Free(s: string, sep: char) { sep !in s }

  /** Splitting undoes ending each piece with the separator, and goes on behind the last one. */
  lemma {:induction false} SplitEnded(pieces: seq<string>, tail: string, sep: char)
    requires forall p :: p in pieces ==> Free(p, sep)
    ensures Split(Ended(pieces, sep) + tail, sep) == pieces + Split(tail, sep)
  {
    hide Split;
    if pieces == [] {
      assert "" + tail == tail;
    } else {
      var rest := Ended(pieces[1..], sep);
      assert Free(pieces[0], sep);
      SplitFirst(pieces[0], rest + tail, sep);
      SplitEnded(pieces[1..], tail, sep);
      assert Ended(pieces, sep) + tail == pieces[0] + [sep] + (rest + tail);
      assert [pieces[0]] + (pieces[1..] + Split(tail, sep)) == pieces + Split(tail, sep);
    }
  }

  lemma {:induction false} EndedIsFree(pieces: seq<string>, sep: char, c: char)
    requires c != sep && forall p :: p in pieces ==> Free(p, c)
    ensures Free(Ended(pieces, sep), c)
  {
    if pieces != [] {
      assert Free(pieces[0], c);
      EndedIsFree(pieces[1..], sep, c);
    }
  }

  // --------------------------------------------------------------------- numbers

  function IntText(n: int): string { if n < 0 then "-" + Framing.Decimal(-n) else Framing.Decimal(n) }

  lemma {:induction false} DecimalIsDigits(n: nat)
    ensures forall c :: c in Framing.Decimal(n) ==> '0' <= c <= '9'
  {
    if n >= 10 {
      DecimalIsDigits(n / 10);
    }
  }

  lemma IntTextIsFree(n: int)
    ensures Free(IntText(n), ',') && Free(IntText(n), ';') && Free(IntText(n), '_')
  {
    DecimalIsDigits(if n < 0 then -n else n);
  }

  predicate IsInt32(n: int) { -0x8000_0000 <= n < 0x8000_0000 }

  /** What the library's conversions make of a plain number is all that matters of them. */
  ghost predicate Converts(toInt: string -> int) {
    forall n {:trigger IntText(n)} :: IsInt32(n) ==> toInt(IntText(n)) == n
  }

  // -------------------------------------------------------------------- printing

  function TxFields(tx: Ledger.Transaction): seq<string> {
    [tx.sender, tx.recipient, IntText(tx.value), tx.hash, IntText(tx.timestamp)]
  }

  function TxText(tx: Ledger.Transaction): string { Ended(TxFields(tx), '_') + Ended(tx.inputs, '-') }

  function TxTexts(txs: seq<Ledger.Transaction>): seq<string> {
    if txs == [] then [] else [TxText(txs[0])] + TxTexts(txs[1..])
  }

  /** junk is the byte that lies behind the number in memory: encoding reads it too. */
  function LuckText(luck: seq<Base64.byte>, junk: Base64.byte): string
    requires |luck| == 8
  {
    Base64.Encoded(luck + [junk])
  }

  function Fields(b: Block, fork: int, junk: Base64.byte): seq<string>
    requires |b.luck| == 8
  {
    [b.prev, b.merkle, Ended(TxTexts(b.txs), ';'), b.hash, IntText(b.index), LuckText(b.luck, junk),
     IntText(b.timestamp), b.certificate, IntText(fork)]
  }

  function Print(b: Block, fork: int, junk: Base64.byte): string
    requires |b.luck| == 8
  {
    Ended(Fields(b, fork, junk), ',')
  }

  // --------------------------------------------------------------------- parsing

  /** None stands for reading past the end of a list or a table. */
  function ParseTx(s: string, toInt: string -> int, toValue: string -> int): Option<Ledger.Transaction> {
    var p := Split(s, '_');
    if |p| < 5 then None
    else
      var q := if |p| >= 6 then Split(p[5], '-') else [""];
      Some(Ledger.Transaction(p[0], p[1], toValue(p[2]), p[3], toInt(p[4]), 0, q[..|q| - 1]))
  }

  function ParseTxs(pieces: seq<string>, toInt: string -> int,
                    toValue: string -> int): Option<seq<Ledger.Transaction>> {
    if pieces == [] then Some([])
    else
      var n := |pieces| - 1;
      var rest, tx := ParseTxs(pieces[..n], toInt, toValue), ParseTx(pieces[n], toInt, toValue);
      if rest.None? || tx.None? then None else Some(rest.value + [tx.value])
  }

  function ParseLuck(s: string): Option<seq<Base64.byte>> {
    if !Base64.ReadsInside(s) then None
    else
      var bytes := Base64.Decoded(Base64.Filled(s));
      if |bytes| < 8 then None else Some(bytes[..8])
  }

  function Parse(s: string, toInt: string -> int, toValue: string -> int): Option<(Block, int)> {
    var p := Split(s, ',');
    if |p| < 9 then None
    else
      var t := Split(p[2], ';');
      var txs, luck := ParseTxs(t[..|t| - 1], toInt, toValue), ParseLuck(p[5]);
      if txs.None? || luck.None? then None
      else Some((Block(p[0], p[1], txs.value, p[3], toInt(p[4]), luck.value, toInt(p[6]), p[7]), toInt(p[8])))
  }

  // ------------------------------------------------------------------- round trip

  ghost predicate Plain(s: string) { Free(s, ',') && Free(s, ';') && Free(s, '_') }

  ghost predicate CleanTx(tx: Ledger.Transaction) {
    && Plain(tx.sender) && Plain(tx.recipient) && Plain(tx.hash) && IsInt32(tx.value) && IsInt32(tx.timestamp)
    && forall s :: s in tx.inputs ==> Plain(s) && Free(s, '-')
  }

  ghost predicate AllClean(txs: seq<Ledger.Transaction>) { forall tx :: tx in txs ==> CleanTx(tx) }

  ghost predicate Clean(b: Block, fork: int)
    ensures Clean(b, fork) ==> |b.luck| == 8
  {
    && Free(b.prev, ',') && Free(b.merkle, ',') && Free(b.hash, ',') && Free(b.certificate, ',')
    && IsInt32(b.index) && IsInt32(b.timestamp) && IsInt32(fork) && |b.luck| == 8 && AllClean(b.txs)
  }

  /** What the text keeps of a transaction: everything but the separate count of its inputs. */
  function Kept(tx: Ledger.Transaction): Ledger.Transaction { tx.(numOfInputs := 0) }

  function KeptAll(txs: seq<Ledger.Transaction>): (r: seq<Ledger.Transaction>)
    ensures |r| == |txs|
  {
    seq(|txs|, i requires 0 <= i < |txs| => Kept(txs[i]))
  }

  lemma TxTextIsFree(tx: Ledger.Transaction, c: char)
    requires CleanTx(tx) && (c == ',' || c == ';')
    ensures Free(TxText(tx), c)
  {
    IntTextIsFree(tx.value);
    IntTextIsFree(tx.timestamp);
    hide IntText;
    EndedIsFree(TxFields(tx), '_', c);
    EndedIsFree(tx.inputs, '-', c);
  }

  lemma InputsReadBack(inputs: seq<string>)
    requires forall s :: s in inputs ==> Plain(s) && Free(s, '-')
    ensures Free(Ended(inputs, '-'), '_') && Split(Ended(inputs, '-'), '-') == inputs + [""]
  {
    hide Split, Ended, Free;
    EndedIsFree(inputs, '-', '_');
    SplitEnded(inputs, "", '-');
    SplitNothing('-');
    assert Ended(inputs, '-') + "" == Ended(inputs, '-');
  }

  lemma SplitFree(s: string, sep: char)
    requires Free(s, sep)
    ensures Split(s, sep) == [s]
  {}

  lemma ParsedTxFrom(s: string, f: seq<string>, list: string, inputs: seq<string>,
                     toInt: string -> int, toValue: string -> int)
    requires |f| == 5 && Split(s, '_') == f + [list] && Split(list, '-') == inputs + [""]
    ensures ParseTx(s, toInt, toValue)
      == Some(Ledger.Transaction(f[0], f[1], toValue(f[2]), f[3], toInt(f[4]), 0, inputs))
  {
    hide Split;
    assert (inputs + [""])[..|inputs|] == inputs;
  }

  lemma TxRoundTrip(tx: Ledger.Transaction, toInt: string -> int, toValue: string -> int)
    requires CleanTx(tx) && Converts(toInt) && Converts(toValue)
    ensures ParseTx(TxText(tx), toInt, toValue) == Some(Kept(tx))
  {
    var inputs := Ended(tx.inputs, '-');
    InputsReadBack(tx.inputs);
    IntTextIsFree(tx.value);
    IntTextIsFree(tx.timestamp);
    hide IntText, Split, Ended, Free, ParseTx;
    SplitEnded(TxFields(tx), inputs, '_');
    SplitFree(inputs, '_');
    ParsedTxFrom(TxText(tx), TxFields(tx), inputs, tx.inputs, toInt, toValue);
    assert toValue(IntText(tx.value)) == tx.value && toInt(IntText(tx.timestamp)) == tx.timestamp;
  }

  lemma {:induction false} TxTextsAre(txs: seq<Ledger.Transaction>)
    ensures |TxTexts(txs)| == |txs| && forall i :: 0 <= i < |txs| ==> TxTexts(txs)[i] == TxText(txs[i])
  {
    hide TxText;
    if txs != [] {
      TxTextsAre(txs[1..]);
    }
  }

  lemma {:induction false} TxsRoundTrip(txs: seq<Ledger.Transaction>, k: nat, toInt: string -> int,
                                        toValue: string -> int)
    requires AllClean(txs) && k <= |txs| && Converts(toInt) && Converts(toValue)
    ensures |TxTexts(txs)| == |txs| && ParseTxs(TxTexts(txs)[..k], toInt, toValue) == Some(KeptAll(txs)[..k])
    decreases k
  {
    hide TxText, ParseTx;
    TxTextsAre(txs);
    if k > 0 {
      TxsRoundTrip(txs, k - 1, toInt, toValue);
      assert txs[k - 1] in txs;
      TxRoundTrip(txs[k - 1], toInt, toValue);
      assert TxTexts(txs)[..k][..k - 1] == TxTexts(txs)[..k - 1];
      assert KeptAll(txs)[..k] == KeptAll(txs)[..k - 1] + [Kept(txs[k - 1])];
    }
  }

  lemma ListRoundTrip(txs: seq<Ledger.Transaction>, toInt: string -> int, toValue: string -> int)
    requires AllClean(txs) && Converts(toInt) && Converts(toValue)
    ensures var t := Split(Ended(TxTexts(txs), ';'), ';'); ParseTxs(t[..|t| - 1], toInt, toValue) == Some(KeptAll(txs))
    ensures Free(Ended(TxTexts(txs), ';'), ',')
  {
    hide TxText, ParseTx, ParseTxs, Split, Ended, KeptAll, Free, TxTexts, IndexOf;
    TxTextsAre(txs);
    SplitNothing(';');
    forall p | p in TxTexts(txs) ensures Free(p, ';') && Free(p, ',') {
      var i :| 0 <= i < |txs| && TxTexts(txs)[i] == p;
      assert txs[i] in txs;
      TxTextIsFree(txs[i], ';');
      TxTextIsFree(txs[i], ',');
    }
    var texts := TxTexts(txs);
    var text := Ended(texts, ';');
    SplitEnded(texts, "", ';');
    EndedIsFree(texts, ';', ',');
    assert text + "" == text;
    assert (texts + [""])[..|texts|] == texts && texts[..|txs|] == texts && KeptAll(txs)[..|txs|] == KeptAll(txs);
    TxsRoundTrip(txs, |txs|, toInt, toValue);
  }

  lemma LuckRoundTrip(luck: seq<Base64.byte>, junk: Base64.byte)
    requires |luck| == 8
    ensures ParseLuck(LuckText(luck, junk)) == Some(luck) && Free(LuckText(luck, junk), ',')
  {
    Base64.RoundTrip(luck + [junk]);
    assert (luck + [junk])[..8] == luck;
  }

  lemma FieldsReadBack(b: Block, fork: int, junk: Base64.byte)
    requires Clean(b, fork) && Free(Ended(TxTexts(b.txs), ';'), ',') && Free(LuckText(b.luck, junk), ',')
    ensures Split(Print(b, fork, junk), ',') == Fields(b, fork, junk) + [""]
  {
    var f := Fields(b, fork, junk);
    IntTextIsFree(b.index);
    IntTextIsFree(b.timestamp);
    IntTextIsFree(fork);
    hide IntText, LuckText, TxTexts, Free, Split, Ended;
    SplitEnded(f, "", ',');
    SplitNothing(',');
    var text := Ended(f, ',');
    assert text + "" == text;
  }

  lemma ParsedFrom(s: string, p: seq<string>, txs: seq<Ledger.Transaction>, luck: seq<Base64.byte>,
                   toInt: string -> int, toValue: string -> int)
    requires |p| == 9 && Split(s, ',') == p + [""] && ParseLuck(p[5]) == Some(luck)
    requires var t := Split(p[2], ';'); ParseTxs(t[..|t| - 1], toInt, toValue) == Some(txs)
    ensures Parse(s, toInt, toValue)
      == Some((Block(p[0], p[1], txs, p[3], toInt(p[4]), luck, toInt(p[6]), p[7]), toInt(p[8])))
  {
    hide Split, ParseTxs, ParseLuck;
  }

  lemma NumbersReadBack(b: Block, fork: int, toInt: string -> int)
    requires Clean(b, fork) && Converts(toInt)
    ensures toInt(IntText(b.index)) == b.index && toInt(IntText(b.timestamp)) == b.timestamp
      && toInt(IntText(fork)) == fork
  {
    hide IntText;
  }

  lemma PartsAreClean(b: Block, fork: int)
    requires Clean(b, fork)
    ensures |b.luck| == 8 && AllClean(b.txs)
  {}

  /** Parsing a printed block gives back its fields and the fork id, whatever byte lay behind the lucky number. */
  lemma BlockRoundTrip(b: Block, fork: int, junk: Base64.byte, toInt: string -> int, toValue: string -> int)
    requires Clean(b, fork) && Converts(toInt) && Converts(toValue)
    ensures Parse(Print(b, fork, junk), toInt, toValue) == Some((b.(txs := KeptAll(b.txs)), fork))
  {
    hide Clean, AllClean, Converts, IntText, LuckText, ParseLuck, ParseTxs, TxTexts, Free, KeptAll, Print, Split,
         Ended, Parse;
    PartsAreClean(b, fork);
    ListRoundTrip(b.txs, toInt, toValue);
    LuckRoundTrip(b.luck, junk);
    FieldsReadBack(b, fork, junk);
    NumbersReadBack(b, fork, toInt);
    ParsedFrom(Print(b, fork, junk), Fields(b, fork, junk), KeptAll(b.txs), b.luck, toInt, toValue);
  }

  lemma SplitNothing(sep: char)
    ensures Split("", sep) == [""]
  {}

  // -------------------------------------------------------------------- the loops

  lemma {:induction false} EndedSnoc(pieces: seq<string>, last: string, sep: char)
    ensures Ended(pieces + [last], sep) == Ended(pieces, sep) + last + [sep]
  {
    if pieces == [] {
      assert Ended([last], sep) == last + [sep] + Ended([], sep);
    } else {
      assert (pieces + [last])[1..] == pieces[1..] + [last];
      EndedSnoc(pieces[1..], last, sep);
    }
  }

  lemma EndedPrefix(pieces: seq<string>, i: nat, sep: char)
    requires i < |pieces|
    ensures Ended(pieces[..i + 1], sep) == Ended(pieces[..i], sep) + pieces[i] + [sep]
  {
    assert pieces[..i + 1] == pieces[..i] + [pieces[i]];
    EndedSnoc(pieces[..i], pieces[i], sep);
  }

  method PrintTx(tx: Ledger.Transaction) returns (text: string)
    ensures text == TxText(tx)
  {
    hide IntText;
    text := tx.sender + "_" + tx.recipient + "_" + IntText(tx.value) + "_" + tx.hash + "_" + IntText(tx.timestamp)
      + "_";
    FiveEnded(tx.sender, tx.recipient, IntText(tx.value), tx.hash, IntText(tx.timestamp));
    for j := 0 to |tx.inputs|
      invariant text == Ended(TxFields(tx), '_') + Ended(tx.inputs[..j], '-')
    {
      EndedPrefix(tx.inputs, j, '-');
      text := text + tx.inputs[j];
      text := text + "-";
    }
    assert tx.inputs[..|tx.inputs|] == tx.inputs;
  }

  lemma EndedNothing(f: seq<string>, sep: char)
    ensures Ended(f[..0], sep) == ""
  {}

  lemma FiveEnded(a: string, b: string, c: string, d: string, e: string)
    ensures Ended([a, b, c, d, e], '_') == a + "_" + b + "_" + c + "_" + d + "_" + e + "_"
  {
    hide Ended;
    var f := [a, b, c, d, e];
    EndedNothing(f, '_');
    EndedPrefix(f, 0, '_');
    EndedPrefix(f, 1, '_');
    EndedPrefix(f, 2, '_');
    EndedPrefix(f, 3, '_');
    EndedPrefix(f, 4, '_');
    assert f[..5] == f && "" + a == a;
  }

  method PrintList(txs: seq<Ledger.Transaction>) returns (list: string)
    ensures list == Ended(TxTexts(txs), ';')
  {
    hide TxText;
    list := "";
    TxTextsAre(txs);
    for i := 0 to |txs|
      invariant list == Ended(TxTexts(txs)[..i], ';')
    {
      var tx := PrintTx(txs[i]);
      EndedPrefix(TxTexts(txs), i, ';');
      list := list + tx;
      list := list + ";";
    }
    assert TxTexts(txs)[..|txs|] == TxTexts(txs);
  }

  method PrintLuck(luck: seq<Base64.byte>, junk: Base64.byte) returns (text: string)
    requires |luck| == 8
    ensures text == LuckText(luck, junk)
  {
    hide Base64.Encoded;
    assert Base64.Groups(8) == 3;
    hide Base64.Groups;
    var memory := new Base64.byte[9](i requires 0 <= i < 9 => if i < 8 then luck[i] else junk);
    assert memory[..9] == luck + [junk];
    text := Base64.Encode(memory, 8);
  }

  method PrintBlock(b: Block, fork: int, junk: Base64.byte) returns (text: string)
    requires |b.luck| == 8
    ensures text == Print(b, fork, junk)
  {
    hide TxTexts, IntText, Ended, LuckText;
    text := b.prev + "," + b.merkle + ",";
    var list := PrintList(b.txs);
    text := text + list + ",";
    text := text + b.hash + ",";
    text := text + IntText(b.index) + ",";
    var luck := PrintLuck(b.luck, junk);
    text := text + luck + ",";
    text := text + IntText(b.timestamp) + ",";
    text := text + b.certificate + ",";
    text := text + IntText(fork) + ",";
    NineEnded(Fields(b, fork, junk));
  }

  lemma NineEnded(f: seq<string>)
    requires |f| == 9
    ensures Ended(f, ',') == f[0] + "," + f[1] + "," + f[2] + "," + f[3] + "," + f[4] + "," + f[5] + "," + f[6] + ","
      + f[7] + "," + f[8] + ","
  {
    hide Ended;
    EndedNothing(f, ',');
    ThreeMore(f, 0);
    ThreeMore(f, 3);
    ThreeMore(f, 6);
    assert f[..9] == f && "" + f[0] == f[0];
  }

  lemma ThreeMore(f: seq<string>, i: nat)
    requires i + 3 <= |f|
    ensures Ended(f[..i + 3], ',') == Ended(f[..i], ',') + f[i] + "," + f[i + 1] + "," + f[i + 2] + ","
  {
    hide Ended;
    EndedPrefix(f, i, ',');
    EndedPrefix(f, i + 1, ',');
    EndedPrefix(f, i + 2, ',');
  }

  method ParseTransaction(s: string, toInt: string -> int, toValue: string -> int)
    returns (tx: Option<Ledger.Transaction>)
    ensures tx == ParseTx(s, toInt, toValue)
  {
    var parts := Split(s, '_');
    if |parts| < 5 { return None; }
    var inputs: seq<string> := [];
    if |parts| >= 6 {
      var pieces := Split(parts[5], '-');
      for j := 0 to |pieces| - 1
        invariant inputs == pieces[..j]
      {
        inputs := inputs + [pieces[j]];
      }
    }
    tx := Some(Ledger.Transaction(parts[0], parts[1], toValue(parts[2]), parts[3], toInt(parts[4]), 0, inputs));
  }

  lemma {:induction false} BadTxStays(pieces: seq<string>, i: nat, toInt: string -> int, toValue: string -> int)
    requires i < |pieces| && ParseTx(pieces[i], toInt, toValue).None?
    ensures ParseTxs(pieces, toInt, toValue).None?
    decreases |pieces|
  {
    hide ParseTx;
    var n := |pieces| - 1;
    if i < n {
      BadTxStays(pieces[..n], i, toInt, toValue);
    }
  }

  method ParseBlock(s: string, toInt: string -> int, toValue: string -> int) returns (r: Option<(Block, int)>)
    ensures r == Parse(s, toInt, toValue)
  {
    hide ParseTx, Split;
    var params := Split(s, ',');
    if |params| < 9 { return None; }
    var list := Split(params[2], ';');
    ghost var pieces := list[..|list| - 1];
    var txs: seq<Ledger.Transaction> := [];
    for i := 0 to |list| - 1
      invariant ParseTxs(pieces[..i], toInt, toValue) == Some(txs)
    {
      var tx := ParseTransaction(list[i], toInt, toValue);
      if tx.None? {
        BadTxStays(pieces, i, toInt, toValue);
        return None;
      }
      assert pieces[..i + 1][..i] == pieces[..i] && pieces[..i + 1][i] == list[i];
      txs := txs + [tx.value];
    }
    assert pieces[..|list| - 1] == pieces;
    if !Base64.ReadsInside(params[5]) { return None; }
    var bytes := Base64.Decode(params[5]);
    if |bytes| < 8 { return None; }
    r := Some((Block(params[0], params[1], txs, params[3], toInt(params[4]), bytes[..8], toInt(params[6]), params[7]),
               toInt(params[8])));
  }

  /** From one node's block to the other's, over a connection that delivers in any pieces but never cuts a token. */
  lemma BlockArrives(ms: seq<Framing.Message>, chunks: seq<string>, i: nat, b: Block, fork: int, junk: Base64.byte,
      toInt: string -> int, toValue: string -> int)
    requires Framing.Converts(toInt) && Converts(toInt) && Converts(toValue) && Clean(b, fork)
    requires Framing.AllSendable(ms) && 1 <= i < |ms| && ms[0].kind == Framing.Greeting
    requires Framing.Concat(chunks) == Framing.Stream(ms) && !Framing.SplitsToken(chunks, ms)
    requires ms[i] == Framing.Message(Framing.BlockResponse, Print(b, fork, junk))
    ensures var c := Framing.ReceiveAll(Framing.Fresh, chunks, toInt);
      i - 1 < |c.dispatched| && Parse(c.dispatched[i - 1].payload, toInt, toValue)
        == Some((b.(txs := KeptAll(b.txs)), fork))
  {
    hide Framing.ReceiveAll, Framing.SplitsToken, Framing.Stream, Print, Parse, Clean, KeptAll;
    Framing.FramingIsExact(ms, chunks, toInt);
    BlockRoundTrip(b, fork, junk, toInt, toValue);
  }

  // --------------------------------------------------------- texts with less in them

  /** A minus stands before the digits of exactly the negative numbers. */
  lemma IntTextSign(n: int)
    ensures if n < 0 then IntText(n)[0] == '-' && IntText(n)[1..] == Framing.Decimal(-n)
            else '-' !in IntText(n) && IntText(n) == Framing.Decimal(n)
  {
    DecimalIsDigits(if n < 0 then -n else n);
  }

  /** A transaction may end behind its timestamp, and then has no inputs. */
  lemma WithoutInputs(tx: Ledger.Transaction, toInt: string -> int, toValue: string -> int)
    requires CleanTx(tx) && Converts(toInt) && Converts(toValue)
    ensures ParseTx(Ended(TxFields(tx)[..4], '_') + IntText(tx.timestamp), toInt, toValue)
      == Some(Kept(tx).(inputs := []))
  {
    var fields := TxFields(tx);
    IntTextIsFree(tx.value);
    IntTextIsFree(tx.timestamp);
    hide IntText, Split, Ended, Free;
    SplitEnded(fields[..4], fields[4], '_');
    SplitFree(fields[4], '_');
    assert fields[..4] + [fields[4]] == fields;
    assert toValue(IntText(tx.value)) == tx.value && toInt(IntText(tx.timestamp)) == tx.timestamp;
  }

  lemma ListIsFree(txs: seq<Ledger.Transaction>)
    requires AllClean(txs)
    ensures Free(Ended(TxTexts(txs), ';'), ',')
  {
    hide TxText, Free, TxTexts, Ended, CleanTx;
    TxTextsAre(txs);
    forall p | p in TxTexts(txs) ensures Free(p, ',') {
      var i :| 0 <= i < |txs| && TxTexts(txs)[i] == p;
      assert txs[i] in txs;
      TxTextIsFree(txs[i], ',');
    }
    EndedIsFree(TxTexts(txs), ';', ',');
  }

  lemma FieldsAreFree(b: Block, fork: int, junk: Base64.byte)
    requires Clean(b, fork)
    ensures forall p :: p in Fields(b, fork, junk) ==> Free(p, ',')
  {
    ListIsFree(b.txs);
    LuckRoundTrip(b.luck, junk);
    IntTextIsFree(b.index);
    IntTextIsFree(b.timestamp);
    IntTextIsFree(fork);
    hide IntText, LuckText, TxTexts, Ended, Free, AllClean;
  }

  lemma SameParse(s: string, t: string, p: seq<string>, toInt: string -> int, toValue: string -> int)
    requires |p| == 9 && Split(s, ',') == p && Split(t, ',') == p + [""]
    ensures Parse(s, toInt, toValue) == Parse(t, toInt, toValue)
  {
    hide Split, ParseTxs, ParseLuck;
  }

  /** And a block behind its fork id. */
  lemma WithoutLastComma(b: Block, fork: int, junk: Base64.byte, toInt: string -> int, toValue: string -> int)
    requires Clean(b, fork)
    ensures Parse(Ended(Fields(b, fork, junk)[..8], ',') + IntText(fork), toInt, toValue)
      == Parse(Print(b, fork, junk), toInt, toValue)
  {
    var f := Fields(b, fork, junk);
    FieldsAreFree(b, fork, junk);
    assert f[8] == IntText(fork);
    hide IntText, Split, Ended, Free, Parse, Fields, Clean;
    assert forall p :: p in f[..8] ==> p in f;
    SplitEnded(f[..8], f[8], ',');
    SplitFree(f[8], ',');
    assert f[..8] + [f[8]] == f;
    SplitEnded(f, "", ',');
    SplitNothing(',');
    assert Ended(f, ',') + "" == Ended(f, ',');
    SameParse(Ended(f[..8], ',') + f[8], Ended(f, ','), f, toInt, toValue);
  }
}
