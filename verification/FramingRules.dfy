/** What a connection does with anything that is no stream of messages. */
module FramingRules {
  import opened Framing

  /** The bytes that one read moves into the buffer: up to and with the first space, or all there are, or as many as
      the buffer takes. */
  ghost predicate Moves(c: Conn, n: nat) {
    && n <= |c.incoming| && (n > 0 ==> |c.buffer| + n <= MAX_BUFFER_SIZE)
    && (forall k :: 0 <= k < n - 1 ==> c.incoming[k] != ' ')
    && (n < |c.incoming| && |c.buffer| + n < MAX_BUFFER_SIZE ==> n > 0 && c.incoming[n - 1] == ' ')
  }

  lemma {:induction false} AbsorbExactly(c: Conn) returns (n: nat)
    ensures Moves(c, n) && Absorb(c) == c.(incoming := c.incoming[n..], buffer := c.buffer + c.incoming[..n])
    decreases |c.incoming|
  {
    if c.incoming == "" || |c.buffer| >= MAX_BUFFER_SIZE {
      n := 0;
      assert c.buffer + c.incoming[..0] == c.buffer;
    } else {
      var d := c.(incoming := c.incoming[1..], buffer := c.buffer + [c.incoming[0]]);
      if c.incoming[0] == ' ' {
        n := 1;
      } else {
        var m := AbsorbExactly(d);
        n := m + 1;
        assert d.buffer + d.incoming[..m] == c.buffer + c.incoming[..n];
        assert forall k :: 1 <= k < n ==> c.incoming[k] == d.incoming[k - 1];
      }
    }
  }

  /** The words with a kind are the tokens, and no others. */
  lemma KnownExactly(s: string)
    ensures KindOf(s) != Undefined <==> exists k :: k != Undefined && Token(k) == s
  {
    if KindOf(s) != Undefined {
      assert Token(KindOf(s)) == s;
    }
    if k :| k != Undefined && Token(k) == s {
      TokensAreKnown(k);
    }
  }

  lemma WordIsRead(c: Conn, word: string, rest: string)
    requires c.buffer == "" && c.incoming == word + rest && IsWord(word) && |word| <= MAX_BUFFER_SIZE
    ensures ReadIntoBuffer(c) == (c.(incoming := rest, buffer := word), |word|)
  {
    hide Absorb;
    AbsorbWord(c, word, rest);
    assert c.buffer + word == word;
  }

  lemma WordIsHeader(c: Conn, word: string, rest: string, toInt: string -> int)
    requires c.buffer == "" && c.incoming == word + rest && IsWord(word) && |word| <= MAX_BUFFER_SIZE
    ensures var h, k := ReadHeader(c, toInt), KindOf(word);
      h.0.phase == c.phase && h.0.dispatched == c.dispatched && h.0.kind == k && (h.1 <==> k != Undefined)
      && (k == Undefined ==> h.0.aborted)
  {
    hide Absorb, KindOf, DataLength, ReadIntoBuffer;
    WordIsRead(c, word, rest);
    LengthKeeps(c.(incoming := rest, kind := KindOf(word), buffer := ""), toInt);
  }

  /** The first word of a connection has to be the greeting's: any other word aborts it, a message's token too. */
  lemma FirstWordGreets(word: string, rest: string, toInt: string -> int)
    requires IsWord(word) && |word| <= MAX_BUFFER_SIZE
    ensures var c := Receive(Fresh, word + rest, toInt);
      if word == Token(Greeting) then c.phase != WaitingForGreeting else c.aborted && c.dispatched == []
  {
    hide IsWord, KindOf, Token, ReadHeader, ReadGreeting;
    var c := Fresh.(incoming := "" + (word + rest));
    assert c.incoming == word + rest;
    WordIsHeader(c, word, rest, toInt);
    KindsOfWords(word);
    if word == Token(Greeting) {
      GreetingKeeps(ReadHeader(c, toInt).0.(phase := ReadingGreeting), toInt);
    }
  }

  lemma KindsOfWords(word: string)
    ensures KindOf(word) == Greeting <==> word == Token(Greeting)
  {
    if KindOf(word) == Greeting { assert word == "GREETING "; }
    TokensAreKnown(Greeting);
  }

  lemma {:induction false} AbsorbKeeps(c: Conn)
    ensures Same(c, Absorb(c)) && Absorb(c).kind == c.kind
    decreases |c.incoming|
  {
    if c.incoming != "" && |c.buffer| < MAX_BUFFER_SIZE && c.incoming[0] != ' ' {
      AbsorbKeeps(c.(incoming := c.incoming[1..], buffer := c.buffer + [c.incoming[0]]));
    }
  }

  lemma LengthKeeps(c: Conn, toInt: string -> int)
    ensures var d := DataLength(c, toInt).0; d.phase == c.phase && d.dispatched == c.dispatched && d.kind == c.kind
  {
    hide Absorb;
    AbsorbKeeps(c);
  }

  lemma HeaderKeeps(c: Conn, toInt: string -> int)
    ensures var d := ReadHeader(c, toInt).0; d.phase == c.phase && d.dispatched == c.dispatched
  {
    hide Absorb, KindOf, DataLength;
    AbsorbKeeps(c);
    var r := ReadIntoBuffer(c);
    LengthKeeps(r.0.(kind := KindOf(r.0.buffer), buffer := ""), toInt);
  }

  lemma {:induction false} LoopKeepsPhase(c: Conn, toInt: string -> int)
    ensures Loop(c, toInt).phase == c.phase && c.dispatched <= Loop(c, toInt).dispatched
    decreases |c.incoming|
  {
    hide ReadHeader, DataLength;
    HeaderKeeps(c, toInt);
    PrepareConsumes(c, toInt);
    var h := if c.kind == Undefined then ReadHeader(c, toInt) else (c, true);
    LengthKeeps(h.0, toInt);
    var e := Prepare(c, toInt);
    if e.1 {
      var d := Dispatch(e.0);
      if d.incoming != "" { LoopKeepsPhase(d, toInt); }
    }
  }

  lemma GreetingKeeps(c: Conn, toInt: string -> int)
    requires c.phase == ReadingGreeting
    ensures ReadGreeting(c, toInt).phase != WaitingForGreeting
  {
    hide DataLength, Loop;
    LengthKeeps(c, toInt);
    var e := HasEnough(c, toInt);
    if e.1 { LoopKeepsPhase(Done(e.0).(phase := ReadyForUse), toInt); }
  }

  /** Between messages a word that is no token aborts the connection, and nothing more is handed on. */
  lemma UnknownWordAborts(c: Conn, word: string, rest: string, toInt: string -> int)
    requires c.phase == ReadyForUse && AtStart(c) && !c.aborted && c.incoming == ""
    requires IsWord(word) && |word| <= MAX_BUFFER_SIZE && forall k :: k != Undefined ==> Token(k) != word
    ensures var d := Receive(c, word + rest, toInt); d.aborted && d.dispatched == c.dispatched
  {
    hide IsWord, KindOf, Token, ReadHeader;
    var d := c.(incoming := c.incoming + (word + rest));
    assert d.incoming == word + rest;
    WordIsHeader(d, word, rest, toInt);
    KnownExactly(word);
    assert !Prepare(d, toInt).1;
  }

  /** So does a length that fills the buffer without a space behind it, when more arrives. */
  lemma EndlessLengthAborts(c: Conn, chunk: string, toInt: string -> int)
    requires c.phase == ReadyForUse && c.kind != Undefined && c.need <= 0 && !c.aborted
    requires |c.buffer| == MAX_BUFFER_SIZE && c.incoming + chunk != ""
    ensures var d := Receive(c, chunk, toInt); d.aborted && d.dispatched == c.dispatched
  {
    hide Absorb;
    assert !Prepare(c.(incoming := c.incoming + chunk), toInt).1;
  }

  /** A length that is read as 0 or less is dropped, and the next word is taken for the length. */
  lemma NoLengthIsSkipped(c: Conn, word: string, rest: string, toInt: string -> int)
    requires c.phase == ReadyForUse && c.kind != Undefined && c.need <= 0 && !c.aborted
    requires c.buffer == "" && c.incoming == "" && IsWord(word) && |word| <= MAX_BUFFER_SIZE
    requires toInt(word[..|word| - 1]) <= 0
    ensures Receive(c, word + rest, toInt)
      == c.(incoming := rest, need := toInt(word[..|word| - 1]))
  {
    hide Absorb;
    var d := c.(incoming := c.incoming + (word + rest));
    assert d.incoming == word + rest;
    WordIsRead(d, word, rest);
    LengthOfWord(d, word, rest, toInt);
    hide DataLength;
    var n := toInt(word[..|word| - 1]);
    assert HasEnough(d, toInt) == (d.(incoming := rest, buffer := "", need := n), false);
    assert Loop(d, toInt) == HasEnough(d, toInt).0;
  }

  lemma LengthOfWord(c: Conn, word: string, rest: string, toInt: string -> int)
    requires c.incoming != "" && IsWord(word) && ReadIntoBuffer(c) == (c.(incoming := rest, buffer := word), |word|)
    ensures DataLength(c, toInt) == (c.(incoming := rest, buffer := ""), toInt(word[..|word| - 1]))
  {
    hide ReadIntoBuffer;
  }

  // -------------------------------------------------------------------- numbers

  function ValueOf(digits: string): int {
    if digits == "" then 0
    else ValueOf(digits[..|digits| - 1]) * 10 + (digits[|digits| - 1] as int - '0' as int)
  }

  /** A number is written in decimal digits, the highest one first and not zero. */
  lemma {:induction false} DecimalExactly(n: nat)
    ensures ValueOf(Decimal(n)) == n && forall c :: c in Decimal(n) ==> '0' <= c <= '9'
    ensures n > 0 ==> Decimal(n)[0] != '0'
    ensures n == 0 ==> Decimal(n) == "0"
  {
    if n < 10 {
      OneDigit(n);
    } else {
      var high := Decimal(n / 10);
      DecimalExactly(n / 10);
      assert Decimal(n)[..|high|] == high && Decimal(n)[|high|] == DigitChar(n % 10);
    }
  }

  lemma OneDigit(d: nat)
    requires d < 10
    ensures ValueOf([DigitChar(d)]) == d
  {
    assert [DigitChar(d)][..0] == "";
  }
}
