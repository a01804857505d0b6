/** The length-prefixed messages of a connection, read from a socket that delivers them in pieces. */
module Framing {

  datatype Kind =
    | PlainText | Ping | Pong | Greeting | PublicKeyResponse | PublicKeyRequest | PublicKeyAdd | PublicKeyRemove
    | ParticipantsRequest | ReceivedBlock | ReceivedTransaction | BlockRequest | BlockResponse | CheckBlockchain
    | Undefined

  datatype Phase = WaitingForGreeting | ReadingGreeting | ReadyForUse

  datatype Message = Message(kind: Kind, payload: string)

  const MAX_BUFFER_SIZE := 1024000
  const MAX_INT := 0x7fff_ffff

  function Token(k: Kind): string {
    match k
    case Undefined => ""
    case PlainText => "MESSAGE "
    case Ping => "PING "
    case Pong => "PONG "
    case Greeting => "GREETING "
    case PublicKeyResponse => "PUBLICKEY_RESPONSE "
    case PublicKeyRequest => "PUBLICKEY_REQUEST "
    case PublicKeyAdd => "PUBLICKEY_ADD "
    case PublicKeyRemove => "PUBLICKEY_REMOVE "
    case ParticipantsRequest => "TEST_NETWORK_PARTICIPANTS_REQUEST "
    case ReceivedBlock => "BLOCK "
    case ReceivedTransaction => "TRANSACTION "
    case BlockRequest => "BLOCK_REQUEST "
    case BlockResponse => "BLOCK_RESPONSE "
    case CheckBlockchain => "CHECK_BLOCKCHAIN "
  }

  function KindOf(buffer: string): Kind {
    if buffer == "PING " then Ping
    else if buffer == "PONG " then Pong
    else if buffer == "MESSAGE " then PlainText
    else if buffer == "GREETING " then Greeting
    else if buffer == "BLOCK " then ReceivedBlock
    else if buffer == "TRANSACTION " then ReceivedTransaction
    else if buffer == "BLOCK_REQUEST " then BlockRequest
    else if buffer == "CHECK_BLOCKCHAIN " then CheckBlockchain
    else if buffer == "BLOCK_RESPONSE " then BlockResponse
    else if buffer == "PUBLICKEY_REQUEST " then PublicKeyRequest
    else if buffer == "PUBLICKEY_RESPONSE " then PublicKeyResponse
    else if buffer == "PUBLICKEY_ADD " then PublicKeyAdd
    else if buffer == "TEST_NETWORK_PARTICIPANTS_REQUEST " then ParticipantsRequest
    else if buffer == "PUBLICKEY_REMOVE " then PublicKeyRemove
    else Undefined
  }

  predicate NoSpace(s: string) { forall k :: 0 <= k < |s| ==> s[k] != ' ' }

  /** A word that ends at its one space. */
  predicate IsWord(s: string) { s != "" && NoSpace(s[..|s| - 1]) && s[|s| - 1] == ' ' }

  lemma ShortTokens(k: Kind)
    requires k == PlainText || k == Ping || k == Pong || k == Greeting || k == ReceivedBlock || k == ReceivedTransaction
    ensures IsWord(Token(k)) && 0 < |Token(k)| <= 40
  {
  }

  lemma BlockTokens(k: Kind)
    requires k == BlockRequest || k == BlockResponse || k == CheckBlockchain
    ensures IsWord(Token(k)) && 0 < |Token(k)| <= 40
  {
    if k == BlockRequest {
      Joined("BLOCK_", "REQUEST ");
      assert Token(k) == "BLOCK_" + "REQUEST ";
    }
    if k == BlockResponse {
      Joined("BLOCK_", "RESPONSE ");
      assert Token(k) == "BLOCK_" + "RESPONSE ";
    }
    if k == CheckBlockchain {
      Joined("CHECK_", "BLOCKCHAIN ");
      assert Token(k) == "CHECK_" + "BLOCKCHAIN ";
    }
  }

  lemma KeyTokens(k: Kind)
    requires k == PublicKeyAdd || k == PublicKeyRemove || k == PublicKeyRequest || k == PublicKeyResponse
    ensures IsWord(Token(k)) && 0 < |Token(k)| <= 40
  {
    if k == PublicKeyAdd {
      Joined("PUBLICKEY_", "ADD ");
      assert Token(k) == "PUBLICKEY_" + "ADD ";
    }
    if k == PublicKeyRemove {
      Joined("PUBLICKEY_", "REMOVE ");
      assert Token(k) == "PUBLICKEY_" + "REMOVE ";
    }
    if k == PublicKeyRequest {
      Joined("PUBLICKEY_", "REQUEST ");
      assert Token(k) == "PUBLICKEY_" + "REQUEST ";
    }
    if k == PublicKeyResponse {
      Joined("PUBLICKEY_", "RESPONSE ");
      assert Token(k) == "PUBLICKEY_" + "RESPONSE ";
    }
  }

  lemma ParticipantsToken(k: Kind)
    requires k == ParticipantsRequest
    ensures IsWord(Token(k)) && 0 < |Token(k)| <= 40
  {
    Joined("TEST_NETWORK_" + "PARTICIPANTS_", "REQUEST ");
    assert Token(k) == "TEST_NETWORK_" + "PARTICIPANTS_" + "REQUEST ";
  }

  lemma TokensAreWords(k: Kind)
    requires k != Undefined
    ensures IsWord(Token(k)) && 0 < |Token(k)| <= 40
  {
    hide Token;
    match k
    case PlainText | Ping | Pong | Greeting | ReceivedBlock | ReceivedTransaction => ShortTokens(k);
    case BlockRequest | BlockResponse | CheckBlockchain => BlockTokens(k);
    case PublicKeyAdd | PublicKeyRemove | PublicKeyRequest | PublicKeyResponse => KeyTokens(k);
    case ParticipantsRequest => ParticipantsToken(k);
  }

  lemma TokensAreKnown(k: Kind)
    requires k != Undefined
    ensures KindOf(Token(k)) == k
  {
    assert "PING "[1] == 'I' && "PONG "[1] == 'O';
    assert "PUBLICKEY_REMOVE "[1] == 'U' && "CHECK_BLOCKCHAIN "[1] == 'H';
    assert "PUBLICKEY_ADD "[1] == 'U' && "BLOCK_REQUEST "[1] == 'L';
  }

  lemma Joined(s: string, t: string)
    requires NoSpace(s) && IsWord(t)
    ensures IsWord(s + t)
  {
    assert (s + t)[..|s + t| - 1] == s + t[..|t| - 1];
  }

  lemma KnownIsWord(s: string)
    requires KindOf(s) != Undefined
    ensures s != "" && s[|s| - 1] == ' '
  {}

  // ------------------------------------------------------------- the reading state

  /** incoming is what the socket holds; dispatched is every message handed on, in order. */
  datatype Conn = Conn(incoming: string, buffer: string, phase: Phase, kind: Kind, need: int, dispatched: seq<Message>,
                       aborted: bool)

  const Fresh := Conn("", "", WaitingForGreeting, Undefined, 0, [], false)

  /** Byte by byte into the buffer, up to a space. */
  function Absorb(c: Conn): Conn
    decreases |c.incoming|
  {
    if c.incoming == "" || |c.buffer| >= MAX_BUFFER_SIZE then c
    else
      var d := c.(incoming := c.incoming[1..], buffer := c.buffer + [c.incoming[0]]);
      if c.incoming[0] == ' ' then d else Absorb(d)
  }

  function ReadIntoBuffer(c: Conn): (Conn, int) {
    if |c.buffer| == MAX_BUFFER_SIZE then (c.(aborted := true), 0)
    else (Absorb(c), |Absorb(c).buffer| - |c.buffer|)
  }

  predicate EndsWithSpace(s: string) { s != "" && s[|s| - 1] == ' ' }

  /** toInt is the library's conversion: what it makes of a plain decimal is all that matters. */
  function DataLength(c: Conn, toInt: string -> int): (Conn, int) {
    if c.incoming == "" then (c, 0)
    else
      var r := ReadIntoBuffer(c);
      if r.1 <= 0 || !EndsWithSpace(r.0.buffer) then (r.0, 0)
      else (r.0.(buffer := ""), toInt(r.0.buffer[..|r.0.buffer| - 1]))
  }

  function ReadHeader(c: Conn, toInt: string -> int): (Conn, bool) {
    var r := ReadIntoBuffer(c);
    if r.1 <= 0 then (r.0, false)
    else
      var k := KindOf(r.0.buffer);
      if k == Undefined then (r.0.(kind := Undefined, aborted := true), false)
      else
        var l := DataLength(r.0.(kind := k, buffer := ""), toInt);
        (l.0.(need := l.1), true)
  }

  function HasEnough(c: Conn, toInt: string -> int): (Conn, bool) {
    var l := if c.need <= 0 then DataLength(c, toInt) else (c, c.need);
    var d := l.0.(need := l.1);
    (d, 0 < d.need <= |d.incoming|)
  }

  function Done(c: Conn): Conn
    requires 0 < c.need <= |c.incoming|
  {
    c.(incoming := c.incoming[c.need..], kind := Undefined, need := 0, buffer := "")
  }

  /** Handing on the payload that has arrived. */
  function Dispatch(c: Conn): Conn
    requires 0 < c.need <= |c.incoming|
  {
    Done(c).(dispatched := c.dispatched + [Message(c.kind, c.incoming[..c.need])])
  }

  /** The header when it has not been read yet, and the length as far as it has arrived. */
  function Prepare(c: Conn, toInt: string -> int): (Conn, bool) {
    var h := if c.kind == Undefined then ReadHeader(c, toInt) else (c, true);
    if !h.1 then h else HasEnough(h.0, toInt)
  }

  function Loop(c: Conn, toInt: string -> int): Conn
    decreases |c.incoming|
  {
    PrepareConsumes(c, toInt);
    var e := Prepare(c, toInt);
    if !e.1 then e.0
    else
      var d := Dispatch(e.0);
      if d.incoming != "" then Loop(d, toInt) else d
  }

  /** The payload of the greeting is taken without being handed on. */
  function ReadGreeting(c: Conn, toInt: string -> int): Conn {
    var e := HasEnough(c, toInt);
    if !e.1 then e.0 else Loop(Done(e.0).(phase := ReadyForUse), toInt)
  }

  function Process(c: Conn, toInt: string -> int): Conn {
    match c.phase
    case WaitingForGreeting =>
      var h := ReadHeader(c, toInt);
      if !h.1 then h.0
      else if h.0.kind != Greeting then h.0.(aborted := true)
      else ReadGreeting(h.0.(phase := ReadingGreeting), toInt)
    case ReadingGreeting => ReadGreeting(c, toInt)
    case ReadyForUse => Loop(c, toInt)
  }

  function Receive(c: Conn, chunk: string, toInt: string -> int): Conn {
    if c.aborted then c else Process(c.(incoming := c.incoming + chunk), toInt)
  }

  function ReceiveAll(c: Conn, chunks: seq<string>, toInt: string -> int): Conn
    decreases |chunks|
  {
    if chunks == [] then c else ReceiveAll(Receive(c, chunks[0], toInt), chunks[1..], toInt)
  }

  lemma {:induction false} AbsorbConsumes(c: Conn)
    ensures |Absorb(c).incoming| <= |c.incoming|
    ensures Absorb(c) == c.(incoming := Absorb(c).incoming, buffer := Absorb(c).buffer)
    decreases |c.incoming|
  {
    if c.incoming != "" && |c.buffer| < MAX_BUFFER_SIZE && c.incoming[0] != ' ' {
      AbsorbConsumes(c.(incoming := c.incoming[1..], buffer := c.buffer + [c.incoming[0]]));
    }
  }

  lemma PrepareConsumes(c: Conn, toInt: string -> int)
    ensures |Prepare(c, toInt).0.incoming| <= |c.incoming|
  {
    AbsorbConsumes(c);
    hide Absorb, KindOf;
    if c.kind == Undefined {
      var r := ReadIntoBuffer(c);
      LengthConsumes(r.0.(kind := KindOf(r.0.buffer), buffer := ""), toInt);
      if ReadHeader(c, toInt).1 {
        LengthConsumes(ReadHeader(c, toInt).0, toInt);
      }
    } else {
      LengthConsumes(c, toInt);
    }
  }

  lemma LengthConsumes(c: Conn, toInt: string -> int)
    ensures |DataLength(c, toInt).0.incoming| <= |c.incoming|
  {
    AbsorbConsumes(c);
    hide Absorb;
  }

  // ------------------------------------------------------------ the handlers in place

  class Connection {
    const toInt: string -> int
    var incoming: string
    var buffer: string
    var phase: Phase
    var kind: Kind
    var need: int
    var dispatched: seq<Message>
    var aborted: bool

    ghost function State(): Conn
      reads this
    {
      Conn(incoming, buffer, phase, kind, need, dispatched, aborted)
    }

    constructor (toInt: string -> int)
      ensures State() == Fresh && this.toInt == toInt
    {
      this.toInt := toInt;
      incoming, buffer, phase, kind, need, dispatched, aborted := "", "", WaitingForGreeting, Undefined, 0, [], false;
    }

    method ReadDataIntoBuffer() returns (count: int)
      modifies this
      ensures (State(), count) == ReadIntoBuffer(old(State()))
    {
      var before := |buffer|;
      if before == MAX_BUFFER_SIZE {
        aborted := true;
        return 0;
      }
      while |incoming| > 0 && |buffer| < MAX_BUFFER_SIZE
        invariant Absorb(State()) == Absorb(old(State()))
        decreases |incoming|
      {
        var next := incoming[0];
        incoming := incoming[1..];
        buffer := buffer + [next];
        if next == ' ' {
          break;
        }
      }
      count := |buffer| - before;
    }

    method DataLengthForCurrentDataType() returns (number: int)
      modifies this
      ensures (State(), number) == DataLength(old(State()), toInt)
    {
      hide Absorb;
      if |incoming| <= 0 { return 0; }
      var count := ReadDataIntoBuffer();
      if count <= 0 || !EndsWithSpace(buffer) { return 0; }
      buffer := buffer[..|buffer| - 1];
      number := toInt(buffer);
      buffer := "";
    }

    method ReadProtocolHeader() returns (ok: bool)
      modifies this
      ensures (State(), ok) == ReadHeader(old(State()), toInt)
    {
      hide Absorb, KindOf, DataLength;
      var count := ReadDataIntoBuffer();
      if count <= 0 { return false; }
      kind := KindOf(buffer);
      if kind == Undefined {
        aborted := true;
        return false;
      }
      buffer := "";
      need := DataLengthForCurrentDataType();
      ok := true;
    }

    method HasEnoughData() returns (ok: bool)
      modifies this
      ensures (State(), ok) == HasEnough(old(State()), toInt)
    {
      hide DataLength;
      if need <= 0 {
        need := DataLengthForCurrentDataType();
      }
      ok := !(|incoming| < need || need <= 0);
    }

    method ProcessData()
      requires 0 < need <= |incoming|
      modifies this
      ensures State() == Dispatch(old(State()))
    {
      buffer := incoming[..need];
      incoming := incoming[need..];
      dispatched := dispatched + [Message(kind, buffer)];
      kind, need, buffer := Undefined, 0, "";
    }

    method ProcessReadyRead()
      modifies this
      ensures State() == Process(old(State()), toInt)
    {
      hide ReadHeader, DataLength, Loop;
      var ok: bool;
      if phase == WaitingForGreeting {
        ok := ReadProtocolHeader();
        if !ok { return; }
        if kind != Greeting {
          aborted := true;
          return;
        }
        phase := ReadingGreeting;
      }
      if phase == ReadingGreeting {
        ok := HasEnoughData();
        if !ok { return; }
        incoming := incoming[need..];
        kind, need, buffer := Undefined, 0, "";
        phase := ReadyForUse;
      }
      RunLoop();
    }

    /** The do-while of the handler. */
    method RunLoop()
      modifies this
      ensures State() == Loop(old(State()), toInt)
      decreases |incoming|
    {
      hide ReadHeader, DataLength;
      var more := true;
      ghost var goal := Loop(State(), toInt);
      while more
        invariant if more then Loop(State(), toInt) == goal else State() == goal
        decreases more, |incoming|
      {
        var ok := true;
        PrepareConsumes(State(), toInt);
        if kind == Undefined {
          ok := ReadProtocolHeader();
          if !ok { return; }
        }
        ok := HasEnoughData();
        if !ok { return; }
        ProcessData();
        more := |incoming| > 0;
      }
    }

    method Arrive(chunk: string)
      modifies this
      ensures State() == Receive(old(State()), chunk, toInt)
    {
      if aborted { return; }
      incoming := incoming + chunk;
      ProcessReadyRead();
    }
  }

  // --------------------------------------------------------------- what is sent

  function DigitChar(d: nat): char
    requires d < 10
  {
    ('0' as int + d) as char
  }

  function Decimal(n: nat): (s: string)
    ensures s != ""
  {
    if n < 10 then [DigitChar(n)] else Decimal(n / 10) + [DigitChar(n % 10)]
  }

  function Ten(k: nat): nat { if k == 0 then 1 else 10 * Ten(k - 1) }

  lemma {:induction false} DecimalIsShort(n: nat, k: nat)
    requires n < Ten(k) && k > 0
    ensures NoSpace(Decimal(n)) && |Decimal(n)| <= k
  {
    if n >= 10 {
      DecimalIsShort(n / 10, k - 1);
    }
  }

  lemma DecimalIsWord(n: nat)
    requires n <= MAX_INT
    ensures IsWord(Decimal(n) + " ") && |Decimal(n)| <= 10
  {
    assert Ten(10) == 100000 * Ten(5) && Ten(5) == 100000;
    DecimalIsShort(n, 10);
    assert (Decimal(n) + " ")[..|Decimal(n) + " "| - 1] == Decimal(n);
  }

  ghost predicate Converts(toInt: string -> int) {
    forall n: nat {:trigger Decimal(n)} :: n <= MAX_INT ==> toInt(Decimal(n)) == n
  }

  predicate Sendable(m: Message) { m.kind != Undefined && 0 < |m.payload| <= MAX_INT }

  /** What follows the token: the length, a space and the payload. */
  function Body(m: Message): string { Decimal(|m.payload|) + " " + m.payload }

  function Stream(ms: seq<Message>): string {
    if ms == [] then "" else Token(ms[0].kind) + Body(ms[0]) + Stream(ms[1..])
  }

  ghost predicate AllSendable(ms: seq<Message>) { forall m :: m in ms ==> Sendable(m) }

  // -------------------------------------------------------------- reading it back

  lemma {:induction false} AbsorbWord(c: Conn, word: string, rest: string)
    requires IsWord(word) && c.incoming == word + rest && |c.buffer| + |word| <= MAX_BUFFER_SIZE
    ensures Absorb(c) == c.(incoming := rest, buffer := c.buffer + word)
    decreases |word|
  {
    var d := c.(incoming := c.incoming[1..], buffer := c.buffer + [c.incoming[0]]);
    if |word| == 1 {
      assert d.incoming == rest && d.buffer == c.buffer + word;
    } else {
      assert word[0] != ' ' && IsWord(word[1..]);
      assert d.incoming == word[1..] + rest;
      AbsorbWord(d, word[1..], rest);
      assert d.buffer + word[1..] == c.buffer + word;
    }
  }

  lemma {:induction false} AbsorbPart(c: Conn)
    requires NoSpace(c.incoming) && |c.buffer| + |c.incoming| <= MAX_BUFFER_SIZE
    ensures Absorb(c) == c.(incoming := "", buffer := c.buffer + c.incoming)
    decreases |c.incoming|
  {
    if c.incoming == "" {
      assert c.buffer + c.incoming == c.buffer;
    } else {
      var d := c.(incoming := c.incoming[1..], buffer := c.buffer + [c.incoming[0]]);
      AbsorbPart(d);
      assert d.buffer + d.incoming == c.buffer + c.incoming;
    }
  }

  /** No message is being read. */
  predicate AtStart(c: Conn) { c.kind == Undefined && c.buffer == "" && c.need == 0 }

  /** The token of m has been read and the buffer holds a part of its length. */
  predicate InLength(c: Conn, m: Message, rest: string, after: string) {
    && c.kind == m.kind && c.need == 0 && |c.buffer| <= |Decimal(|m.payload|)|
    && c.buffer == Decimal(|m.payload|)[..|c.buffer|]
    && c.buffer + c.incoming + rest == Body(m) + after
  }

  /** The length of m is known too. */
  predicate InPayload(c: Conn, m: Message, rest: string, after: string) {
    && c.kind == m.kind && c.need == |m.payload| && c.buffer == ""
    && c.incoming + rest == m.payload + after
  }

  predicate Same(c: Conn, d: Conn) { c.phase == d.phase && c.dispatched == d.dispatched && c.aborted == d.aborted }

  /** The rest of the word has arrived. */
  lemma WordArrives(c: Conn, word: string, rest: string, tail: string) returns (over: string)
    requires IsWord(word) && |word| < MAX_BUFFER_SIZE && |c.buffer| < |word| && c.buffer == word[..|c.buffer|]
    requires c.buffer + c.incoming + rest == word + tail && |word| <= |c.buffer| + |c.incoming|
    ensures Absorb(c) == c.(incoming := over, buffer := word) && over + rest == tail
  {
    var left := word[|c.buffer|..];
    over := c.incoming[|left|..];
    Overlap(c.buffer, c.incoming, rest, word, tail);
    assert left[..|left| - 1] == word[..|word| - 1][|c.buffer|..];
    AbsorbWord(c, left, over);
    assert c.buffer + left == word;
  }

  /** What has arrived of the word and the tail, behind the part of the word that was there. */
  lemma Overlap(part: string, incoming: string, rest: string, word: string, tail: string)
    requires |part| < |word| <= |part| + |incoming| && part == word[..|part|] && part + incoming + rest == word + tail
    ensures var left := word[|part|..]; incoming == left + incoming[|left|..] && incoming[|left|..] + rest == tail
  {
    var left, all := word[|part|..], word + tail;
    assert all == part + (incoming + rest);
    assert incoming + rest == all[|part|..] == left + tail;
    assert incoming[..|left|] == (incoming + rest)[..|left|] == left;
    assert incoming[|left|..] + rest == (incoming + rest)[|left|..] == tail;
  }

  /** Only a part of it has. */
  lemma WordIsCut(c: Conn, word: string, rest: string, tail: string)
    requires IsWord(word) && |word| < MAX_BUFFER_SIZE && |c.buffer| < |word| && c.buffer == word[..|c.buffer|]
    requires c.buffer + c.incoming + rest == word + tail && |c.buffer| + |c.incoming| < |word|
    ensures Absorb(c) == c.(incoming := "", buffer := c.buffer + c.incoming)
    ensures c.buffer + c.incoming == word[..|c.buffer| + |c.incoming|] && NoSpace(c.buffer + c.incoming)
  {
    var now := c.buffer + c.incoming;
    assert now == (now + rest)[..|now|] == (word + tail)[..|now|] == word[..|now|];
    NoSpaceInPart(word, now);
    assert NoSpace(c.incoming) by {
      forall k | 0 <= k < |c.incoming| ensures c.incoming[k] != ' ' {
        assert now[|c.buffer| + k] == c.incoming[k];
      }
    }
    AbsorbPart(c);
  }

  lemma BodySplit(m: Message, after: string)
    ensures Body(m) + after == (Decimal(|m.payload|) + " ") + (m.payload + after)
  {}

  /** Reading a length: all of it and the state is at the payload, or what there is of it and nothing is left to
      read. */
  lemma LengthAt(c: Conn, m: Message, rest: string, after: string, toInt: string -> int)
    requires Sendable(m) && Converts(toInt) && InLength(c, m, rest, after)
    ensures var r := DataLength(c, toInt);
      Same(c, r.0) && r.0.need == c.need &&
      if r.1 == 0 then r.0.incoming == "" && InLength(r.0, m, rest, after)
      else r.1 > 0 && InPayload(r.0.(need := r.1), m, rest, after)
  {
    DecimalIsWord(|m.payload|);
    BodySplit(m, after);
    hide Absorb, Decimal, IsWord, Body, DataLength;
    var digits, tail := Decimal(|m.payload|), m.payload + after;
    var field := digits + " ";
    if c.incoming == "" {
      NoLength(c, toInt);
    } else {
      assert c.buffer == field[..|c.buffer|];
      if |field| <= |c.buffer| + |c.incoming| {
        var over := WordArrives(c, field, rest, tail);
        WholeLength(c, digits, over, toInt);
      } else {
        WordIsCut(c, field, rest, tail);
        PartOfLength(c, toInt);
        LengthIsCut(c, digits, rest);
      }
    }
  }

  lemma NoLength(c: Conn, toInt: string -> int)
    requires c.incoming == ""
    ensures DataLength(c, toInt) == (c, 0)
  {}

  lemma WholeLength(c: Conn, digits: string, over: string, toInt: string -> int)
    requires c.incoming != "" && |c.buffer| <= |digits| < MAX_BUFFER_SIZE
    requires Absorb(c) == c.(incoming := over, buffer := digits + " ")
    ensures DataLength(c, toInt) == (c.(incoming := over, buffer := ""), toInt(digits))
  {
    hide Absorb;
    var field := digits + " ";
    assert field[..|field| - 1] == digits;
  }

  lemma PartOfLength(c: Conn, toInt: string -> int)
    requires |c.buffer| < MAX_BUFFER_SIZE && c.incoming != ""
    requires Absorb(c) == c.(incoming := "", buffer := c.buffer + c.incoming) && NoSpace(c.buffer + c.incoming)
    ensures DataLength(c, toInt) == (c.(incoming := "", buffer := c.buffer + c.incoming), 0)
  {
    hide Absorb;
  }

  lemma LengthIsCut(c: Conn, digits: string, rest: string)
    requires |c.buffer| + |c.incoming| <= |digits|
      && c.buffer + c.incoming == (digits + " ")[..|c.buffer| + |c.incoming|]
    ensures c.buffer + c.incoming == digits[..|c.buffer| + |c.incoming|]
    ensures c.buffer + c.incoming + "" + rest == c.buffer + c.incoming + rest
  {
    assert c.buffer + c.incoming + "" == c.buffer + c.incoming;
  }

  lemma NoSpaceInPart(word: string, part: string)
    requires IsWord(word) && |part| < |word| && part == word[..|part|]
    ensures NoSpace(part)
  {
    forall k | 0 <= k < |part| ensures part[k] != ' ' {
      assert part[k] == word[..|word| - 1][k];
    }
  }

  /** Reading a header: nothing without bytes, the abort when its token is cut, or the token and what there is of the
      length. */
  lemma HeaderAt(c: Conn, m: Message, rest: string, after: string, toInt: string -> int)
    requires Sendable(m) && Converts(toInt) && AtStart(c) && !c.aborted
      && c.incoming + rest == Token(m.kind) + Body(m) + after
    ensures var r := ReadHeader(c, toInt);
      if c.incoming == "" then r == (c, false)
      else if |c.incoming| < |Token(m.kind)| then !r.1 && r.0.aborted
      else r.1 && Same(c, r.0) && (InLength(r.0, m, rest, after) || InPayload(r.0, m, rest, after))
  {
    hide Decimal, Token, KindOf, Absorb, IsWord, Body, DataLength;
    var token := Token(m.kind);
    assert c.buffer + c.incoming == c.incoming && token + Body(m) + after == token + (Body(m) + after);
    TokensAreWords(m.kind);
    TokensAreKnown(m.kind);
    if c.incoming == "" {
      AbsorbPart(c);
    } else if |c.incoming| < |token| {
      WordIsCut(c, token, rest, Body(m) + after);
      UnknownPart(c.buffer + c.incoming);
    } else {
      var over := WordArrives(c, token, rest, Body(m) + after);
      var d := c.(incoming := over, kind := m.kind, buffer := "");
      assert d.buffer == Decimal(|m.payload|)[..0];
      assert d.buffer + d.incoming == over;
      assert InLength(d, m, rest, after);
      LengthAt(d, m, rest, after, toInt);
    }
  }

  lemma UnknownPart(s: string)
    requires NoSpace(s) && s != ""
    ensures KindOf(s) == Undefined
  {
    if KindOf(s) != Undefined {
      KnownIsWord(s);
    }
  }

  /** Whether the payload is there: then the state is at it, and otherwise nothing more can be done with what has
      arrived. */
  lemma EnoughAt(c: Conn, m: Message, rest: string, after: string, toInt: string -> int)
    requires Sendable(m) && Converts(toInt) && (InLength(c, m, rest, after) || InPayload(c, m, rest, after))
    ensures var r := HasEnough(c, toInt);
      Same(c, r.0) &&
      if r.1 then InPayload(r.0, m, rest, after) && |m.payload| <= |r.0.incoming|
      else (InLength(r.0, m, rest, after) || InPayload(r.0, m, rest, after)) && |rest| > |after|
  {
    hide Decimal, DataLength;
    if c.need == 0 {
      LengthAt(c, m, rest, after, toInt);
      var l := DataLength(c, toInt);
      if l.1 == 0 {
        assert |l.0.buffer + l.0.incoming + rest| == |Body(m) + after|;
      } else {
        assert |l.0.incoming + rest| == |m.payload + after|;
      }
    } else {
      assert |c.incoming + rest| == |m.payload + after|;
    }
  }

  // ------------------------------------------------------------------ a whole run

  /** The messages still to come, the first of them maybe half read, are what has arrived and what has not. */
  predicate Reading(c: Conn, rest: string, todo: seq<Message>) {
    if AtStart(c) then c.incoming + rest == Stream(todo)
    else todo != [] && (InLength(c, todo[0], rest, Stream(todo[1..])) || InPayload(c, todo[0], rest, Stream(todo[1..])))
  }

  /** With so many bytes to come the stream is cut inside a token. */
  predicate CutInToken(rest: nat, ms: seq<Message>) {
    ms != [] && (|Stream(ms)| - |Token(ms[0].kind)| < rest < |Stream(ms)| || CutInToken(rest, ms[1..]))
  }

  lemma {:induction false} NoCutBeyond(rest: nat, ms: seq<Message>)
    requires rest >= |Stream(ms)|
    ensures !CutInToken(rest, ms)
  {
    hide Token, Body;
    if ms != [] {
      NoCutBeyond(rest, ms[1..]);
    }
  }

  lemma StreamSplit(ms: seq<Message>)
    requires ms != []
    ensures Stream(ms) == Token(ms[0].kind) + Body(ms[0]) + Stream(ms[1..])
  {
    hide Token, Body;
  }

  /** Nothing can be done before more bytes arrive. */
  predicate Quiet(c: Conn, rest: string, todo: seq<Message>) {
    if AtStart(c) then c.incoming == "" else todo != [] && |rest| > |Stream(todo[1..])|
  }

  lemma QuietIsNoCut(c: Conn, rest: string, todo: seq<Message>)
    requires Reading(c, rest, todo) && Quiet(c, rest, todo)
    ensures !CutInToken(|rest|, todo)
  {
    hide Token, Decimal;
    if AtStart(c) {
      NoCutBeyond(|rest|, todo);
    } else {
      PastTheToken(c, rest, todo);
      NoCutBeyond(|rest|, todo[1..]);
    }
  }

  lemma PastTheToken(c: Conn, rest: string, todo: seq<Message>)
    requires Reading(c, rest, todo) && !AtStart(c)
    ensures todo != [] && |rest| <= |Stream(todo)| - |Token(todo[0].kind)|
    ensures CutInToken(|rest|, todo) <==> CutInToken(|rest|, todo[1..])
  {
    hide Token, Decimal;
    var m, after := todo[0], Stream(todo[1..]);
    StreamSplit(todo);
    if InLength(c, m, rest, after) {
      assert |c.buffer + c.incoming + rest| == |Body(m) + after|;
    } else {
      assert |c.incoming + rest| == |m.payload + after|;
    }
  }

  /** At the start of a message that is not cut in its token. */
  lemma TokenArrived(c: Conn, rest: string, todo: seq<Message>)
    requires Reading(c, rest, todo) && AtStart(c) && todo != []
    ensures |c.incoming| == |Stream(todo)| - |rest|
    ensures 0 < |c.incoming| < |Token(todo[0].kind)| ==> CutInToken(|rest|, todo)
  {
    hide Token, Body;
    assert |c.incoming + rest| == |Stream(todo)|;
  }

  datatype Turn = Aborts | Stops | Goes

  /** One turn of the loop from any point of the stream: an abort exactly at a cut token, a stop, or a message that has
      arrived. */
  lemma PrepareAt(c: Conn, rest: string, todo: seq<Message>, toInt: string -> int) returns (turn: Turn)
    requires Converts(toInt) && AllSendable(todo) && Reading(c, rest, todo) && !c.aborted
    ensures var r := Prepare(c, toInt); match turn
      case Aborts => !r.1 && r.0.aborted && CutInToken(|rest|, todo)
      case Stops => !r.1 && Same(c, r.0) && Reading(r.0, rest, todo) && Quiet(r.0, rest, todo)
      case Goes =>
        r.1 && Same(c, r.0) && todo != [] && InPayload(r.0, todo[0], rest, Stream(todo[1..]))
        && |todo[0].payload| <= |r.0.incoming|
  {
    hide Token, Body, ReadHeader, HasEnough, Stream, CutInToken;
    if AtStart(c) && todo == [] {
      NothingToRead(c, rest, toInt);
      return Stops;
    }
    var m, after, d := todo[0], Stream(todo[1..]), c;
    assert Sendable(m);
    if AtStart(c) {
      StreamSplit(todo);
      HeaderAt(c, m, rest, after, toInt);
      TokenArrived(c, rest, todo);
      if c.incoming == "" { return Stops; }
      if |c.incoming| < |Token(m.kind)| { return Aborts; }
      d := ReadHeader(c, toInt).0;
    }
    EnoughAt(d, m, rest, after, toInt);
    turn := if HasEnough(d, toInt).1 then Goes else Stops;
  }

  lemma NothingToRead(c: Conn, rest: string, toInt: string -> int)
    requires AtStart(c) && c.incoming + rest == Stream([])
    ensures ReadHeader(c, toInt) == (c, false) && c.incoming == ""
  {
    assert |c.incoming + rest| == 0;
    AbsorbPart(c);
  }

  /** The loop hands on every message that has arrived, and aborts exactly when what has arrived ends inside a token. */
  lemma {:induction false} LoopAt(c: Conn, rest: string, todo: seq<Message>, toInt: string -> int) returns (k: nat)
    requires Converts(toInt) && AllSendable(todo) && Reading(c, rest, todo) && !c.aborted
    ensures Loop(c, toInt).aborted <==> CutInToken(|rest|, todo)
    ensures var d := Loop(c, toInt); !d.aborted ==>
      k <= |todo| && d.phase == c.phase && d.dispatched == c.dispatched + todo[..k] && Reading(d, rest, todo[k..])
        && Quiet(d, rest, todo[k..])
    decreases |todo|
  {
    hide Prepare, Token, Body, Stream, CutInToken, Reading, Quiet;
    k := 0;
    var turn := PrepareAt(c, rest, todo, toInt);
    var e := Prepare(c, toInt).0;
    assert todo[0..] == todo && c.dispatched + todo[..0] == c.dispatched;
    if turn == Stops {
      QuietIsNoCut(e, rest, todo);
    } else if turn == Goes {
      assert Sendable(todo[0]);
      var d := Dispatch(e);
      DispatchMoves(c, e, rest, todo);
      PrepareConsumes(c, toInt);
      if d.incoming != "" {
        var j := LoopAt(d, rest, todo[1..], toInt);
        k := j + 1;
        if !Loop(d, toInt).aborted {
          assert todo[1..][j..] == todo[k..] && [todo[0]] + todo[1..][..j] == todo[..k];
          assert d.dispatched + todo[1..][..j] == c.dispatched + ([todo[0]] + todo[1..][..j]);
        }
      } else {
        k := 1;
        StartIsQuiet(d, rest, todo[1..]);
        QuietIsNoCut(d, rest, todo[1..]);
      }
    }
  }

  lemma StartIsQuiet(c: Conn, rest: string, todo: seq<Message>)
    requires AtStart(c) && c.incoming == ""
    ensures Quiet(c, rest, todo)
  {}

  lemma DispatchMoves(c: Conn, e: Conn, rest: string, todo: seq<Message>)
    requires todo != [] && AllSendable(todo) && Same(c, e)
    requires InPayload(e, todo[0], rest, Stream(todo[1..])) && |todo[0].payload| <= |e.incoming|
    ensures Sendable(todo[0])
    ensures var d := Dispatch(e);
      Reading(d, rest, todo[1..]) && AtStart(d) && d.dispatched == c.dispatched + [todo[0]] && d.phase == c.phase
      && d.aborted == c.aborted
    ensures CutInToken(|rest|, todo) <==> CutInToken(|rest|, todo[1..])
  {
    hide Token, Body, Decimal, CutInToken, Stream, InLength;
    assert Sendable(todo[0]);
    PayloadIsPast(e, rest, todo);
    PayloadDispatched(e, todo[0], rest, Stream(todo[1..]));
  }

  lemma PayloadIsPast(e: Conn, rest: string, todo: seq<Message>)
    requires todo != [] && Sendable(todo[0]) && InPayload(e, todo[0], rest, Stream(todo[1..]))
    ensures CutInToken(|rest|, todo) <==> CutInToken(|rest|, todo[1..])
  {
    hide CutInToken, Stream, InLength;
    PastTheToken(e, rest, todo);
  }

  lemma PayloadDispatched(e: Conn, m: Message, rest: string, after: string)
    requires Sendable(m) && InPayload(e, m, rest, after) && |m.payload| <= |e.incoming|
    ensures var d := Dispatch(e); AtStart(d) && d.incoming + rest == after && d.dispatched == e.dispatched + [m]
  {
    assert m.payload == (e.incoming + rest)[..|m.payload|] == e.incoming[..|m.payload|];
    assert Dispatch(e).incoming + rest == (e.incoming + rest)[|m.payload|..] == after;
  }

  /** What the connection has done after taking j of the messages, the first of which is the greeting. */
  ghost predicate Progress(c: Conn, rest: string, ms: seq<Message>, j: nat) {
    && j <= |ms| && (c.phase == ReadyForUse <==> j > 0)
    && c.dispatched == (if j == 0 then [] else ms[1..j])
    && (c.phase == WaitingForGreeting ==> AtStart(c)) && (c.phase == ReadingGreeting ==> !AtStart(c))
    && Reading(c, rest, ms[j..])
  }

  lemma {:induction false} TakenHasNoCut(rest: nat, ms: seq<Message>, j: nat)
    requires j <= |ms| && rest <= |Stream(ms[j..])|
    ensures CutInToken(rest, ms) <==> CutInToken(rest, ms[j..])
    decreases j
  {
    hide Token, Body;
    if j > 0 {
      assert ms[1..][j - 1..] == ms[j..];
      StreamShrinks(ms[1..], j - 1);
      TakenHasNoCut(rest, ms[1..], j - 1);
    }
  }

  lemma {:induction false} StreamShrinks(ms: seq<Message>, j: nat)
    requires j <= |ms|
    ensures |Stream(ms[j..])| <= |Stream(ms)|
    decreases j
  {
    hide Token, Body;
    if j > 0 {
      assert ms[1..][j - 1..] == ms[j..];
      StreamShrinks(ms[1..], j - 1);
    } else {
      assert ms[0..] == ms;
    }
  }

  /** The greeting is read like any other message, and then the loop runs on. */
  lemma GreetingAt(c: Conn, rest: string, ms: seq<Message>, toInt: string -> int) returns (j: nat)
    requires Converts(toInt) && AllSendable(ms) && ms != [] && ms[0].kind == Greeting && !c.aborted
      && Progress(c, rest, ms, 0)
    ensures Process(c, toInt).aborted <==> CutInToken(|rest|, ms)
    ensures !Process(c, toInt).aborted
      ==> Progress(Process(c, toInt), rest, ms, j) && Quiet(Process(c, toInt), rest, ms[j..])
  {
    hide Token, Body, ReadHeader, HasEnough, Stream, CutInToken, Loop;
    j := 0;
    var m, after, d := ms[0], Stream(ms[1..]), c;
    assert ms[0..] == ms && Sendable(m);
    if AtStart(c) {
      StreamSplit(ms);
      HeaderAt(c, m, rest, after, toInt);
      TokenArrived(c, rest, ms);
      if c.incoming == "" {
        QuietIsNoCut(c, rest, ms);
        return;
      }
      if |c.incoming| < |Token(m.kind)| { return; }
      d := ReadHeader(c, toInt).0;
    }
    d := d.(phase := ReadingGreeting);
    EnoughAt(d, m, rest, after, toInt);
    var e := HasEnough(d, toInt);
    if !e.1 {
      QuietIsNoCut(e.0, rest, ms);
      return;
    }
    PastTheToken(e.0, rest, ms);
    var f := Done(e.0).(phase := ReadyForUse);
    PayloadTaken(e.0, f, rest, ms);
    var k := LoopAt(f, rest, ms[1..], toInt);
    j := k + 1;
    if !Process(c, toInt).aborted {
      assert ms[1..][k..] == ms[j..] && [] + ms[1..][..k] == ms[1..j];
    }
  }

  lemma PayloadTaken(e: Conn, f: Conn, rest: string, ms: seq<Message>)
    requires ms != [] && InPayload(e, ms[0], rest, Stream(ms[1..])) && 0 < |ms[0].payload| <= |e.incoming|
    requires f == Done(e).(phase := ReadyForUse)
    ensures AtStart(f) && Reading(f, rest, ms[1..]) && f.dispatched == e.dispatched && f.aborted == e.aborted
  {
    assert f.incoming + rest == (e.incoming + rest)[|ms[0].payload|..] == Stream(ms[1..]);
  }

  lemma ReceiveAt(c: Conn, chunk: string, rest: string, ms: seq<Message>, i: nat, toInt: string -> int) returns (j: nat)
    requires Converts(toInt) && AllSendable(ms) && ms != [] && ms[0].kind == Greeting && !c.aborted
      && Progress(c, chunk + rest, ms, i)
    ensures Receive(c, chunk, toInt).aborted <==> CutInToken(|rest|, ms)
    ensures !Receive(c, chunk, toInt).aborted
      ==> Progress(Receive(c, chunk, toInt), rest, ms, j) && Quiet(Receive(c, chunk, toInt), rest, ms[j..])
  {
    hide Token, Body, Loop, CutInToken, Stream;
    var d := c.(incoming := c.incoming + chunk);
    ChunkArrives(c, d, chunk, rest, ms[i..]);
    if i == 0 {
      j := GreetingAt(d, rest, ms, toInt);
    } else {
      var k := LoopAt(d, rest, ms[i..], toInt);
      RestIsShort(d, rest, ms[i..]);
      TakenHasNoCut(|rest|, ms, i);
      j := i + k;
      if !Receive(c, chunk, toInt).aborted {
        assert ms[i..][k..] == ms[j..] && ms[1..i] + ms[i..][..k] == ms[1..j];
      }
    }
  }

  lemma ChunkArrives(c: Conn, d: Conn, chunk: string, rest: string, todo: seq<Message>)
    requires Reading(c, chunk + rest, todo) && d == c.(incoming := c.incoming + chunk)
    ensures Reading(d, rest, todo)
  {
    hide Token, Body, Stream;
    assert d.incoming + rest == c.incoming + (chunk + rest);
    assert d.buffer + d.incoming + rest == c.buffer + c.incoming + (chunk + rest);
  }

  lemma RestIsShort(c: Conn, rest: string, todo: seq<Message>)
    requires Reading(c, rest, todo)
    ensures |rest| <= |Stream(todo)|
  {
    hide Token, Body;
    if AtStart(c) {
      assert |c.incoming + rest| == |Stream(todo)|;
    } else {
      PastTheToken(c, rest, todo);
    }
  }

  function Concat(chunks: seq<string>): string {
    if chunks == [] then "" else chunks[0] + Concat(chunks[1..])
  }

  /** Some piece ends inside a token. */
  predicate SplitsToken(chunks: seq<string>, ms: seq<Message>)
    decreases |chunks|
  {
    chunks != [] && (CutInToken(|Concat(chunks[1..])|, ms) || SplitsToken(chunks[1..], ms))
  }

  lemma {:induction false} AbortedStays(c: Conn, chunks: seq<string>, toInt: string -> int)
    requires c.aborted
    ensures ReceiveAll(c, chunks, toInt).aborted
    decreases |chunks|
  {
    hide Process;
    if chunks != [] {
      AbortedStays(Receive(c, chunks[0], toInt), chunks[1..], toInt);
    }
  }

  lemma {:induction false} RunAt(c: Conn, chunks: seq<string>, ms: seq<Message>, i: nat, toInt: string -> int)
    returns (j: nat)
    requires Converts(toInt) && AllSendable(ms) && ms != [] && ms[0].kind == Greeting && !c.aborted
    requires Progress(c, Concat(chunks), ms, i) && (chunks == [] ==> Quiet(c, "", ms[i..]))
    ensures ReceiveAll(c, chunks, toInt).aborted <==> SplitsToken(chunks, ms)
    ensures var d := ReceiveAll(c, chunks, toInt); !d.aborted ==> Progress(d, "", ms, j) && Quiet(d, "", ms[j..])
    decreases |chunks|
  {
    hide Receive, Progress, Quiet, CutInToken;
    j := i;
    if chunks != [] {
      var rest := Concat(chunks[1..]);
      var k := ReceiveAt(c, chunks[0], rest, ms, i, toInt);
      var d := Receive(c, chunks[0], toInt);
      if d.aborted {
        AbortedStays(d, chunks[1..], toInt);
      } else {
        j := RunAt(d, chunks[1..], ms, k, toInt);
      }
    }
  }

  lemma StreamNotEmpty(ms: seq<Message>)
    ensures ms != [] ==> |Stream(ms)| > 0
  {
    hide Token, Decimal;
    if ms != [] {
      StreamSplit(ms);
    }
  }

  lemma NothingLeft(c: Conn, todo: seq<Message>)
    requires Reading(c, "", todo) && Quiet(c, "", todo)
    ensures todo == []
  {
    hide Stream;
    StreamNotEmpty(todo);
    assert |c.incoming + ""| == |c.incoming|;
  }

  /**
   * A greeting and any messages after it, cut into any pieces: the connection aborts exactly when a piece ends
   * inside a token, and otherwise every message after the greeting is handed on once, in order and whole.
   */
  lemma FramingIsExact(ms: seq<Message>, chunks: seq<string>, toInt: string -> int)
    requires Converts(toInt) && AllSendable(ms) && ms != [] && ms[0].kind == Greeting
    requires Concat(chunks) == Stream(ms)
    ensures var d := ReceiveAll(Fresh, chunks, toInt);
      if SplitsToken(chunks, ms) then d.aborted
      else !d.aborted && d.phase == ReadyForUse && d.dispatched == ms[1..] && AtStart(d) && d.incoming == ""
  {
    hide ReceiveAll, SplitsToken, CutInToken, Token, Body;
    StreamSplit(ms);
    assert |Stream(ms)| > 0 by { TokensAreWords(ms[0].kind); }
    assert ms[0..] == ms && "" + Concat(chunks) == Stream(ms);
    var j := RunAt(Fresh, chunks, ms, 0, toInt);
    var d := ReceiveAll(Fresh, chunks, toInt);
    if !d.aborted {
      NothingLeft(d, ms[j..]);
      assert j == |ms| && ms[1..j] == ms[1..];
      assert AtStart(d);
      assert |d.incoming + ""| == 0 by { assert d.incoming + "" == Stream([]); }
    }
  }
}
