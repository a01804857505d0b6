/** Published and worked examples of the text formats. */
module TextExamples {
  import Z85
  import Base64
  import BlockText
  import Framing
  import Ledger

  // ---------------------------------------------------------------------- Z85

  /** The example of ZeroMQ RFC 32: these eight bytes are "HelloWorld". */
  const HELLO_BYTES: seq<Z85.byte> := [0x86, 0x4F, 0xD2, 0x6F, 0xB5, 0x59, 0xF7, 0x5B]

  lemma HelloFrame()
    ensures Z85.Symbols(Z85.Digits(0x864F_D26F)) == [72, 101, 108, 108, 111]
  {
    hide Z85.Symbol;
    assert Z85.Digits(0x864F_D26F) == [43, 14, 21, 21, 24];
    SymbolsOf();
  }

  lemma WorldFrame()
    ensures Z85.Symbols(Z85.Digits(0xB559_F75B)) == [87, 111, 114, 108, 100]
  {
    hide Z85.Symbol;
    assert Z85.Digits(0xB559_F75B) == [58, 24, 27, 21, 13];
    SymbolsOf();
  }

  lemma SymbolsOf()
    ensures Z85.Symbol(43) == 'H' as int && Z85.Symbol(14) == 'e' as int && Z85.Symbol(21) == 'l' as int
    ensures Z85.Symbol(24) == 'o' as int && Z85.Symbol(58) == 'W' as int && Z85.Symbol(27) == 'r' as int
    ensures Z85.Symbol(13) == 'd' as int
  {}

  lemma HelloWorld()
    ensures Z85.Encoded(HELLO_BYTES) == [72, 101, 108, 108, 111, 87, 111, 114, 108, 100]
  {
    hide Z85.Symbols, Z85.Digits, Z85.Encoded;
    var a: seq<Z85.byte>, b: seq<Z85.byte> := [0x86, 0x4F, 0xD2, 0x6F], [0xB5, 0x59, 0xF7, 0x5B];
    assert Z85.BigEndian(a) == 0x864F_D26F && Z85.BigEndian(b) == 0xB559_F75B;
    Z85.EncodedNothing();
    Z85.EncodedStep([], a);
    Z85.EncodedStep(a, b);
    assert [] + a == a && a + b == HELLO_BYTES;
    HelloFrame();
    WorldFrame();
  }

  /** The mark in front of a padded text is the digit for the bytes in its last frame. */
  lemma MarkIsADigit(b: seq<Z85.byte>)
    requires b != []
    ensures |Z85.EncodedWithPadding(b)| > 0
    ensures Z85.EncodedWithPadding(b)[0] as int == '0' as int + if |b| % 4 == 0 then 4 else |b| % 4
  {
    hide Z85.Encoded;
  }

  // ------------------------------------------------------------------- Base64

  /** The first example of section 9 of RFC 4648. */
  lemma SixBytes()
    ensures Base64.Encoded([0x14, 0xFB, 0x9C, 0x03, 0xD9, 0x7E]) == "FPucA9l+"
  {
    hide Base64.Group, Base64.Encoded;
    var a: seq<Base64.byte>, b: seq<Base64.byte> := [0x14, 0xFB, 0x9C], [0x03, 0xD9, 0x7E];
    Base64.EncodedNothing();
    Base64.EncodedStep([], a);
    Base64.EncodedStep(a, b);
    assert [] + a == a && a + b == [0x14, 0xFB, 0x9C, 0x03, 0xD9, 0x7E];
    FirstGroup();
    SecondGroup();
  }

  lemma FirstGroup()
    ensures Base64.Group([0x14, 0xFB, 0x9C]) == "FPuc"
  {
    hide Base64.Symbol;
    assert Base64.Sextets([0x14, 0xFB, 0x9C]) == [5, 15, 46, 28];
    assert Base64.Symbol(5) == 'F' && Base64.Symbol(15) == 'P' by { LettersOf(); }
    assert Base64.Symbol(46) == 'u' && Base64.Symbol(28) == 'c' by { LettersOf(); }
  }

  lemma SecondGroup()
    ensures Base64.Group([0x03, 0xD9, 0x7E]) == "A9l+"
  {
    hide Base64.Symbol;
    assert Base64.Sextets([0x03, 0xD9, 0x7E]) == [0, 61, 37, 62];
    LettersOf();
  }

  lemma LettersOf()
    ensures Base64.Symbol(5) == 'F' && Base64.Symbol(15) == 'P' && Base64.Symbol(46) == 'u' && Base64.Symbol(28) == 'c'
    ensures Base64.Symbol(0) == 'A' && Base64.Symbol(61) == '9' && Base64.Symbol(37) == 'l' && Base64.Symbol(62) == '+'
  {}

  // -------------------------------------------------------------- blocks as text

  /** A block with one transaction, in the order and with the separators of the wire. */
  lemma PrintedBlock(luck: seq<Base64.byte>, junk: Base64.byte)
    requires |luck| == 8
    ensures var tx := Ledger.Transaction("a", "b", 5, "x", 7, 2, ["i", "j"]);
      BlockText.Print(BlockText.Block("p", "m", [tx], "h", 2, luck, 9, "c"), 1, junk)
      == "p,m,a_b_5_x_7_i-j-;,h,2," + BlockText.LuckText(luck, junk) + ",9,c,1,"
  {
    hide BlockText.LuckText;
    var tx := Ledger.Transaction("a", "b", 5, "x", 7, 2, ["i", "j"]);
    PrintedTx();
    assert BlockText.TxTexts([tx]) == ["a_b_5_x_7_i-j-"] by { OneText(tx); }
    assert BlockText.Ended(["a_b_5_x_7_i-j-"], ';') == "a_b_5_x_7_i-j-;" by { OneEnded("a_b_5_x_7_i-j-", ';'); }
    var f := BlockText.Fields(BlockText.Block("p", "m", [tx], "h", 2, luck, 9, "c"), 1, junk);
    assert f == ["p", "m", "a_b_5_x_7_i-j-;", "h", "2", BlockText.LuckText(luck, junk), "9", "c", "1"] by { Numbers(); }
    BlockText.NineEnded(f);
    Wired(f[5]);
  }

  lemma Wired(luck: string)
    ensures "p" + "," + "m" + "," + "a_b_5_x_7_i-j-;" + "," + "h" + "," + "2" + "," + luck + "," + "9" + "," + "c"
        + "," + "1" + ","
      == "p,m,a_b_5_x_7_i-j-;,h,2," + luck + ",9,c,1,"
  {
    assert "p" + "," + "m" + "," + "a_b_5_x_7_i-j-;" + "," + "h" + "," + "2" + "," == "p,m,a_b_5_x_7_i-j-;,h,2,";
    assert "," + "9" + "," + "c" + "," + "1" + "," == ",9,c,1,";
  }

  lemma OneText(tx: Ledger.Transaction)
    ensures BlockText.TxTexts([tx]) == [BlockText.TxText(tx)]
  {
    hide BlockText.TxText;
    assert |[tx][1..]| == 0;
  }

  lemma OneEnded(s: string, sep: char)
    ensures BlockText.Ended([s], sep) == s + [sep]
  {
    assert |[s][1..]| == 0;
  }

  lemma Numbers()
    ensures BlockText.IntText(1) == "1" && BlockText.IntText(2) == "2" && BlockText.IntText(5) == "5"
    ensures BlockText.IntText(7) == "7" && BlockText.IntText(9) == "9"
  {}

  lemma PrintedTx()
    ensures BlockText.TxText(Ledger.Transaction("a", "b", 5, "x", 7, 2, ["i", "j"])) == "a_b_5_x_7_i-j-"
  {
    hide BlockText.IntText;
    Numbers();
    BlockText.FiveEnded("a", "b", "5", "x", "7");
    assert ["i", "j"][1..] == ["j"];
    OneEnded("j", '-');
    assert BlockText.Ended(["i", "j"], '-') == "i-j-";
  }

  // --------------------------------------------------------------------- messages

  /** A message on the wire: its token, the size of its payload, and the payload. */
  lemma SentMessage()
    ensures Framing.Stream([Framing.Message(Framing.BlockRequest, "7 0")]) == "BLOCK_REQUEST 3 7 0"
  {
    var m := Framing.Message(Framing.BlockRequest, "7 0");
    assert |[m][1..]| == 0;
    assert Framing.Decimal(3) == "3";
    assert "BLOCK_REQUEST " + ("3" + " " + "7 0") + "" == "BLOCK_REQUEST 3 7 0";
  }
}
