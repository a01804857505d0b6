/** The counters behind boxer and unboxer: constant bytes, then sequential bytes that count in steps of two. */
module Nonces {

  type byte = x: int | 0 <= x < 256

  const NONCE_BYTES := 24

  datatype Option<T> = None | Some(value: T)

  /** A big-endian number. */
  function Number(b: seq<byte>): nat {
    if b == [] then 0 else Number(b[..|b| - 1]) * 256 + (b[|b| - 1] as int)
  }

  function Power(n: nat): (p: nat)
    ensures p >= 1
  {
    if n == 0 then 1 else 256 * Power(n - 1)
  }

  lemma {:induction false} NumberBound(b: seq<byte>)
    ensures Number(b) < Power(|b|)
  {
    if b != [] {
      NumberBound(b[..|b| - 1]);
    }
  }

  /** A value of the counter: its bytes and whether the sequential part has run over. */
  datatype State = State(bytes: seq<byte>, overflow: bool)

  predicate Valid(s: State) { |s.bytes| == NONCE_BYTES }

  /** The sequential part, when n of the bytes belong to it. */
  function Sequential(s: State, n: nat): nat
    requires Valid(s) && 0 < n <= NONCE_BYTES
  {
    Number(s.bytes[NONCE_BYTES - n..])
  }

  function Constant(s: State, n: nat): seq<byte>
    requires Valid(s) && 0 < n <= NONCE_BYTES
  {
    s.bytes[..NONCE_BYTES - n]
  }

  /** Adding to the last byte and carrying into the byte before it, up to the first sequential one. */
  function Carried(b: seq<byte>, carry: int): (r: (seq<byte>, int))
    requires 0 <= carry <= 2
    ensures |r.0| == |b| && 0 <= r.1 <= 2
    decreases |b|
  {
    if b == [] || carry == 0 then (b, carry)
    else
      var n := |b| - 1;
      var current := (b[n] as int) + carry;
      var rest := Carried(b[..n], current / 256);
      (rest.0 + [(current % 256) as byte], rest.1)
  }

  /** What comes out of the carries is the sum modulo the size of the sequential part, and the carry its overflow. */
  lemma {:induction false} CarriedIsSum(b: seq<byte>, carry: int)
    requires 0 <= carry <= 2
    ensures Number(Carried(b, carry).0) + Carried(b, carry).1 * Power(|b|) == Number(b) + carry
    decreases |b|
  {
    if b != [] && carry > 0 {
      var n := |b| - 1;
      var current := (b[n] as int) + carry;
      var rest := Carried(b[..n], current / 256);
      CarriedIsSum(b[..n], current / 256);
      var last := (current % 256) as byte;
      assert (rest.0 + [last])[..n] == rest.0;
      CarryOn(Number(rest.0), rest.1, Power(n), Number(b[..n]), current);
    }
  }

  /** One more digit behind a sum with its carry. */
  lemma CarryOn(x: int, carry: int, p: int, y: int, current: int)
    requires x + carry * p == y + current / 256
    ensures (x * 256 + current % 256) + carry * (256 * p) == y * 256 + current
  {
    assert carry * (256 * p) == 256 * (carry * p);
  }

  function Next(s: State, n: nat): (t: State)
    requires Valid(s) && 0 < n <= NONCE_BYTES
    ensures Valid(t)
  {
    var c := Carried(s.bytes[NONCE_BYTES - n..], 2);
    State(Constant(s, n) + c.0, s.overflow || c.1 > 0)
  }

  lemma NextParts(s: State, n: nat)
    requires Valid(s) && 0 < n <= NONCE_BYTES
    ensures var c := Carried(s.bytes[NONCE_BYTES - n..], 2);
      Constant(Next(s, n), n) == Constant(s, n) && Next(s, n).bytes[NONCE_BYTES - n..] == c.0
      && (Next(s, n).overflow <==> s.overflow || c.1 > 0)
  {
    hide Carried;
  }

  /** One increment adds two, keeps the constant part, and overflows exactly on wrap. */
  lemma NextAddsTwo(s: State, n: nat)
    requires Valid(s) && 0 < n <= NONCE_BYTES
    ensures Constant(Next(s, n), n) == Constant(s, n)
    ensures Sequential(Next(s, n), n) == (Sequential(s, n) + 2) % Power(n)
    ensures Next(s, n).overflow <==> s.overflow || Sequential(s, n) + 2 >= Power(n)
  {
    hide Number, Carried, Next, Power;
    var b := s.bytes[NONCE_BYTES - n..];
    var c := Carried(b, 2);
    NextParts(s, n);
    CarriedIsSum(b, 2);
    NumberBound(b);
    NumberBound(c.0);
    PowerIsWide(n);
    Wrap(Number(b), Power(n), Number(c.0), c.1);
  }

  lemma PowerIsWide(n: nat)
    requires n > 0
    ensures Power(n) >= 256
  {}

  lemma Wrap(v: int, p: int, r: int, k: int)
    requires 0 <= v < p && 0 <= r < p && 2 < p && 0 <= k <= 2 && r + k * p == v + 2
    ensures r == (v + 2) % p && (k > 0 <==> v + 2 >= p)
  {
    if k == 1 {
      assert (v + 2) / p == 1;
    }
  }

  // ------------------------------------------------------------------ in place

  class Nonce {
    const sequentialBytes: nat
    const bytes: array<byte>
    var overflow: bool

    ghost predicate Ok() { 0 < sequentialBytes <= NONCE_BYTES == bytes.Length }

    ghost function Value(): State
      reads this, bytes
    {
      State(bytes[..], overflow)
    }

    /** None stands for the invalid_argument exception on a constant part of the wrong size. */
    static method Make(sequentialBytes: nat, constant: seq<byte>, random: seq<byte>, uneven: bool, generate: bool)
      returns (r: Option<Nonce>)
      requires 0 < sequentialBytes <= NONCE_BYTES && |random| == NONCE_BYTES - sequentialBytes
      ensures r.None? <==> constant != [] && |constant| != NONCE_BYTES - sequentialBytes
      ensures r.Some? ==>
        fresh(r.value) && fresh(r.value.bytes) && r.value.Ok()
        && r.value.sequentialBytes == sequentialBytes
      ensures Initial(sequentialBytes, constant, random, uneven, generate) == if r.None? then None
        else Some(r.value.Value())
    {
      if constant != [] && |constant| != NONCE_BYTES - sequentialBytes {
        return None;
      }
      var made := new Nonce(sequentialBytes, constant, random, uneven, generate);
      r := Some(made);
    }

    constructor (sequentialBytes: nat, constant: seq<byte>, random: seq<byte>, uneven: bool, generate: bool)
      requires 0 < sequentialBytes <= NONCE_BYTES && |random| == NONCE_BYTES - sequentialBytes
      requires constant == [] || |constant| == NONCE_BYTES - sequentialBytes
      ensures Ok() && fresh(bytes) && this.sequentialBytes == sequentialBytes
      ensures Some(Value()) == Initial(sequentialBytes, constant, random, uneven, generate)
    {
      this.sequentialBytes := sequentialBytes;
      bytes := new byte[NONCE_BYTES](_ => 0);
      overflow := false;
      new;
      var part := if constant == [] && generate then random else constant;
      for i := 0 to |part|
        invariant !overflow && bytes[..i] == part[..i] && forall k :: i <= k < NONCE_BYTES ==> bytes[k] == 0
      {
        bytes[i] := part[i];
      }
      if uneven {
        bytes[NONCE_BYTES - 1] := 1;
      }
      ghost var made := InitialBytes(sequentialBytes, part, uneven);
      assert bytes[..] == made;
      assert Initial(sequentialBytes, constant, random, uneven, generate) == Some(State(made, false));
    }

    method Increment()
      requires Ok()
      modifies this, bytes
      ensures Value() == Next(old(Value()), sequentialBytes)
    {
      hide Carried, Pending, Next;
      var carry := 2;
      var i := NONCE_BYTES;
      ghost var first := NONCE_BYTES - sequentialBytes;
      ghost var before: seq<byte>, tail: seq<byte> := bytes[..], [];
      ghost var sum := Carried(before[first..], 2);
      PendingAll(before, first, 2);
      while i > NONCE_BYTES - sequentialBytes && carry > 0
        invariant first <= i <= NONCE_BYTES && 0 <= carry <= 2
        invariant bytes[..i] == before[..i] && bytes[i..] == tail && overflow == old(overflow)
        invariant Pending(sum, before[first..i], carry, tail)
      {
        PendingStep(sum, before, first, i, carry, tail);
        i := i - 1;
        var current := (bytes[i] as int) + carry;
        ghost var now := bytes[..];
        ByteSet(now, before, i, (current % 256) as byte);
        tail := [(current % 256) as byte] + tail;
        bytes[i] := (current % 256) as byte;
        assert bytes[..] == now[i := (current % 256) as byte];
        carry := current / 256;
      }
      PendingDone(sum, before[first..i], carry, tail);
      NextIs(State(before, overflow), sequentialBytes);
      Rejoined(before, bytes[..], first, i);
      if carry > 0 {
        overflow := true;
      }
    }

    /** None stands for the overflow_error. */
    method Get() returns (r: Option<seq<byte>>)
      requires Ok()
      ensures r == if overflow then None else Some(bytes[..])
    {
      r := if overflow then None else Some(bytes[..]);
    }
  }

  /** In the middle of the carry loop: the result, when the bytes in front are still to be added to. */
  ghost predicate Pending(sum: (seq<byte>, int), front: seq<byte>, carry: int, tail: seq<byte>)
    requires 0 <= carry <= 2
  {
    sum == (Carried(front, carry).0 + tail, Carried(front, carry).1)
  }

  lemma PendingAll(b: seq<byte>, first: nat, carry: int)
    requires first <= |b| && 0 <= carry <= 2
    ensures Pending(Carried(b[first..], carry), b[first..|b|], carry, [])
  {
    hide Carried;
    assert b[first..|b|] == b[first..];
    var c := Carried(b[first..], carry);
    assert c.0 + [] == c.0;
  }

  lemma PendingStep(sum: (seq<byte>, int), b: seq<byte>, first: nat, i: nat, carry: int, tail: seq<byte>)
    requires first < i <= |b| && 0 < carry <= 2 && Pending(sum, b[first..i], carry, tail)
    ensures var current := (b[i - 1] as int) + carry;
      0 <= current / 256 <= 2 &&
      Pending(sum, b[first..i - 1], current / 256, [(current % 256) as byte] + tail)
  {
    CarriedStep(b[first..i], carry);
    hide Carried;
    assert b[first..i][..i - first - 1] == b[first..i - 1];
    var current := (b[i - 1] as int) + carry;
    var c, last := Carried(b[first..i - 1], current / 256), [(current % 256) as byte];
    assert c.0 + (last + tail) == (c.0 + last) + tail;
  }

  lemma PendingDone(sum: (seq<byte>, int), front: seq<byte>, carry: int, tail: seq<byte>)
    requires 0 <= carry <= 2 && Pending(sum, front, carry, tail) && (front == [] || carry == 0)
    ensures sum == (front + tail, carry)
  {}

  lemma CarriedStep(b: seq<byte>, carry: int)
    requires b != [] && 0 < carry <= 2
    ensures var n := |b| - 1; var current := (b[n] as int) + carry; var rest := Carried(b[..n], current / 256);
      Carried(b, carry) == (rest.0 + [(current % 256) as byte], rest.1)
  {}

  lemma NextIs(s: State, n: nat)
    requires Valid(s) && 0 < n <= NONCE_BYTES
    ensures var first := NONCE_BYTES - n; var sum := Carried(s.bytes[first..], 2);
      Next(s, n) == State(s.bytes[..first] + sum.0, s.overflow || sum.1 > 0)
  {
    hide Carried;
  }

  /** Writing the byte in front of the ones done. */
  lemma ByteSet(now: seq<byte>, before: seq<byte>, i: nat, value: byte)
    requires i < |now| == |before| && now[..i + 1] == before[..i + 1]
    ensures now[i] == before[i]
    ensures now[i := value][..i] == before[..i] && now[i := value][i..] == [value] + now[i + 1..]
  {
    assert now[i] == now[..i + 1][i] && before[i] == before[..i + 1][i];
    assert now[..i] == now[..i + 1][..i] && before[..i] == before[..i + 1][..i];
  }

  lemma Rejoined(before: seq<byte>, now: seq<byte>, first: nat, i: nat)
    requires first <= i <= |before| == |now| && now[..i] == before[..i]
    ensures now == before[..first] + (before[first..i] + now[i..])
  {}

  // ------------------------------------------------------------------ both ends

  function InitialBytes(n: nat, constant: seq<byte>, uneven: bool): (b: seq<byte>)
    requires 0 < n <= NONCE_BYTES && (constant == [] || |constant| == NONCE_BYTES - n)
    ensures |b| == NONCE_BYTES
  {
    seq(NONCE_BYTES, i requires 0 <= i => if i < |constant| then constant[i]
      else if uneven && i == NONCE_BYTES - 1 then 1 else 0)
  }

  function Initial(n: nat, constant: seq<byte>, random: seq<byte>, uneven: bool, generate: bool): (r: Option<State>)
    requires 0 < n <= NONCE_BYTES && |random| == NONCE_BYTES - n
    ensures r.None? <==> constant != [] && |constant| != NONCE_BYTES - n
    ensures r.Some? ==> Valid(r.value) && !r.value.overflow
  {
    if constant == [] then Some(State(InitialBytes(n, if generate then random else [], uneven), false))
    else if |constant| != NONCE_BYTES - n then None
    else Some(State(InitialBytes(n, constant, uneven), false))
  }

  function Nth(s: State, n: nat, k: nat): (t: State)
    requires Valid(s) && 0 < n <= NONCE_BYTES
    ensures Valid(t)
  {
    if k == 0 then s else Next(Nth(s, n, k - 1), n)
  }

  /** Counting from a fresh nonce: the k-th value, and exactly when it no longer can be read. */
  lemma {:induction false} NthCounts(s: State, n: nat, k: nat)
    requires Valid(s) && 0 < n <= NONCE_BYTES && !s.overflow
    ensures Constant(Nth(s, n, k), n) == Constant(s, n)
    ensures Nth(s, n, k).overflow <==> Sequential(s, n) + 2 * k >= Power(n)
    ensures !Nth(s, n, k).overflow ==> Sequential(Nth(s, n, k), n) == Sequential(s, n) + 2 * k
  {
    hide Next, Sequential, Constant, Power;
    if k == 0 {
      SequentialBound(s, n);
    } else {
      NthCounts(s, n, k - 1);
      NextAddsTwo(Nth(s, n, k - 1), n);
      if !Nth(s, n, k - 1).overflow && Sequential(s, n) + 2 * k < Power(n) {
        SmallModulus(Sequential(s, n) + 2 * k, Power(n));
      }
    }
  }

  lemma SequentialBound(s: State, n: nat)
    requires Valid(s) && 0 < n <= NONCE_BYTES
    ensures Sequential(s, n) < Power(n)
  {
    NumberBound(s.bytes[NONCE_BYTES - n..]);
  }

  lemma SmallModulus(x: nat, p: nat)
    requires x < p
    ensures x % p == x
  {}

  /** No value that can be read comes twice. */
  lemma NoNonceRepeats(s: State, n: nat, i: nat, j: nat)
    requires Valid(s) && 0 < n <= NONCE_BYTES && !s.overflow && i < j && !Nth(s, n, j).overflow
    ensures !Nth(s, n, i).overflow && Nth(s, n, i).bytes != Nth(s, n, j).bytes
  {
    NthCounts(s, n, i);
    NthCounts(s, n, j);
    hide Nth, Power;
  }

  lemma LastByteStep(s: State, n: nat)
    requires Valid(s) && 0 < n <= NONCE_BYTES
    ensures Next(s, n).bytes[NONCE_BYTES - 1] as int == (s.bytes[NONCE_BYTES - 1] as int + 2) % 256
  {
    var b := s.bytes[NONCE_BYTES - n..];
    assert b[n - 1] == s.bytes[NONCE_BYTES - 1];
    CarriedStep(b, 2);
    hide Carried;
    assert Carried(b, 2).0[n - 1] as int == (b[n - 1] as int + 2) % 256;
  }

  lemma TwoKeepsParity(x: nat)
    ensures (x + 2) % 256 % 2 == x % 2
  {}

  /** The parity of the last byte never changes, not even when the counter wraps. */
  lemma {:induction false} ParityStays(s: State, n: nat, k: nat)
    requires Valid(s) && 0 < n <= NONCE_BYTES
    ensures Nth(s, n, k).bytes[NONCE_BYTES - 1] % 2 == s.bytes[NONCE_BYTES - 1] % 2
  {
    hide Next;
    if k > 0 {
      ParityStays(s, n, k - 1);
      LastByteStep(Nth(s, n, k - 1), n);
      TwoKeepsParity(Nth(s, n, k - 1).bytes[NONCE_BYTES - 1]);
    }
  }

  // ---------------------------------------------------------------- both directions

  /** The order of std::string on unsigned bytes. */
  predicate Greater(a: seq<byte>, b: seq<byte>) {
    if a == [] then false
    else if b == [] then true
    else if a[0] != b[0] then a[0] > b[0]
    else Greater(a[1..], b[1..])
  }

  lemma {:induction false} GreaterIsTotal(a: seq<byte>, b: seq<byte>)
    ensures a == b <==> !Greater(a, b) && !Greater(b, a)
    ensures !(Greater(a, b) && Greater(b, a))
  {
    if a != [] && b != [] {
      assert a == [a[0]] + a[1..] && b == [b[0]] + b[1..];
      if a[0] == b[0] {
        GreaterIsTotal(a[1..], b[1..]);
      }
    }
  }

  /** The sender compares its own key with the receiver's. */
  function BoxerStart(n: nat, own: seq<byte>, peer: seq<byte>, constant: seq<byte>, random: seq<byte>): Option<State>
    requires 0 < n <= NONCE_BYTES && |random| == NONCE_BYTES - n
  {
    Initial(n, constant, random, Greater(own, peer), true)
  }

  /** The receiver compares the sender's key with its own. */
  function UnboxerStart(n: nat, own: seq<byte>, peer: seq<byte>, constant: seq<byte>, random: seq<byte>): Option<State>
    requires 0 < n <= NONCE_BYTES && |random| == NONCE_BYTES - n
  {
    Initial(n, constant, random, Greater(peer, own), true)
  }

  lemma StartParity(n: nat, constant: seq<byte>, random: seq<byte>, uneven: bool)
    requires 0 < n <= NONCE_BYTES && |random| == NONCE_BYTES - n && Initial(n, constant, random, uneven, true).Some?
    ensures Initial(n, constant, random, uneven, true).value.bytes[NONCE_BYTES - 1] == if uneven then 1 else 0
    ensures !Initial(n, constant, random, uneven, true).value.overflow
  {}

  /** How a counter starts: the constant part as given or drawn, and the sequential part at 1 for the end with the
      greater key, else at 0. */
  lemma StartExactly(n: nat, constant: seq<byte>, random: seq<byte>, uneven: bool)
    requires 0 < n <= NONCE_BYTES && |random| == NONCE_BYTES - n && Initial(n, constant, random, uneven, true).Some?
    ensures var s := Initial(n, constant, random, uneven, true).value;
      Constant(s, n) == (if constant == [] then random else constant) && Sequential(s, n) == if uneven then 1 else 0
  {
    var s := Initial(n, constant, random, uneven, true).value;
    var part := if constant == [] then random else constant;
    assert s.bytes == InitialBytes(n, part, uneven);
    hide Initial;
    assert s.bytes[..NONCE_BYTES - n] == part;
    var tail := s.bytes[NONCE_BYTES - n..];
    forall k | 0 <= k < n - 1 ensures tail[k] == 0 {}
    ZerosAndOne(tail, if uneven then 1 else 0);
  }

  lemma ZerosAndOne(b: seq<byte>, last: byte)
    requires b != [] && b[|b| - 1] == last && forall k :: 0 <= k < |b| - 1 ==> b[k] == 0
    ensures Number(b) == last as int
  {
    NumberOfZeros(b[..|b| - 1]);
  }

  lemma NumberOfZeros(b: seq<byte>)
    requires forall k :: 0 <= k < |b| ==> b[k] == 0
    ensures Number(b) == 0
  {
    if b != [] { NumberOfZeros(b[..|b| - 1]); }
  }

  /** A key is greater when it is larger at the first place they differ, or goes on where the other ends. */
  ghost predicate LargerAt(a: seq<byte>, b: seq<byte>, k: nat) {
    k < |a| && k <= |b| && (forall i :: 0 <= i < k ==> a[i] == b[i]) && (k < |b| ==> a[k] > b[k])
  }

  lemma {:induction false} GreaterExactly(a: seq<byte>, b: seq<byte>)
    ensures Greater(a, b) <==> exists k: nat :: LargerAt(a, b, k)
  {
    if a != [] && b != [] && a[0] == b[0] {
      GreaterExactly(a[1..], b[1..]);
      if k: nat :| LargerAt(a[1..], b[1..], k) {
        assert forall i :: 0 < i <= k ==> a[i] == a[1..][i - 1] && b[i] == b[1..][i - 1];
        assert LargerAt(a, b, k + 1);
      }
      if k: nat :| LargerAt(a, b, k) {
        assert k > 0;
        assert LargerAt(a[1..], b[1..], k - 1);
      }
    } else if Greater(a, b) {
      assert LargerAt(a, b, 0);
    }
  }

  /** Two directions between distinct keys never share a nonce, whatever their constant parts and however far they have
      counted. */
  lemma DirectionsShareNoNonce(n: nat, a: seq<byte>, b: seq<byte>, c: seq<byte>, d: seq<byte>, random: seq<byte>,
                               random': seq<byte>, i: nat, j: nat)
    requires 0 < n <= NONCE_BYTES && |random| == |random'| == NONCE_BYTES - n && a != b
    requires BoxerStart(n, a, b, c, random).Some? && BoxerStart(n, b, a, d, random').Some?
    ensures Nth(BoxerStart(n, a, b, c, random).value, n, i).bytes
         != Nth(BoxerStart(n, b, a, d, random').value, n, j).bytes
  {
    hide Greater, Initial, Nth;
    GreaterIsTotal(a, b);
    StartParity(n, c, random, Greater(a, b));
    StartParity(n, d, random', Greater(b, a));
    ParityStays(BoxerStart(n, a, b, c, random).value, n, i);
    ParityStays(BoxerStart(n, b, a, d, random').value, n, j);
  }

  /** With one constant part for both directions they share a nonce exactly when the two keys are one. */
  lemma SharedExactlyForOneKey(n: nat, a: seq<byte>, b: seq<byte>, c: seq<byte>, random: seq<byte>, i: nat)
    requires 0 < n <= NONCE_BYTES && |random| == NONCE_BYTES - n
    requires BoxerStart(n, a, b, c, random).Some? && BoxerStart(n, b, a, c, random).Some?
    ensures
      Nth(BoxerStart(n, a, b, c, random).value, n, i).bytes == Nth(BoxerStart(n, b, a, c, random).value, n, i).bytes
      <==> a == b
  {
    if a != b {
      DirectionsShareNoNonce(n, a, b, c, c, random, random, i, i);
    }
  }

  // ------------------------------------------------------------------- a whole run

  /** The authenticated cipher under the shared key: what it seals opens again under the same nonce. */
  ghost predicate Opens(seal: (seq<byte>, seq<byte>) -> seq<byte>, open: (seq<byte>, seq<byte>) -> Option<seq<byte>>) {
    forall m, n :: open(seal(m, n), n) == Some(m)
  }

  class Boxer {
    const nonce: Nonce
    const seal: (seq<byte>, seq<byte>) -> seq<byte>

    constructor (nonce: Nonce, seal: (seq<byte>, seq<byte>) -> seq<byte>)
      ensures this.nonce == nonce && this.seal == seal
    {
      this.nonce, this.seal := nonce, seal;
    }

    /** The sender's half of a step; None when reading the nonce throws. */
    method SealNext(message: seq<byte>) returns (box: Option<seq<byte>>)
      requires nonce.Ok()
      modifies nonce, nonce.bytes
      ensures var s := old(nonce.Value());
        if s.overflow then box == None && nonce.Value() == s
        else box == Some(seal(message, s.bytes)) && nonce.Value() == Next(s, nonce.sequentialBytes)
    {
      hide Next;
      var used := nonce.Get();
      if used.None? { return None; }
      box := Some(seal(message, used.value));
      nonce.Increment();
    }
  }

  class Unboxer {
    const nonce: Nonce
    const open: (seq<byte>, seq<byte>) -> Option<seq<byte>>

    constructor (nonce: Nonce, open: (seq<byte>, seq<byte>) -> Option<seq<byte>>)
      ensures this.nonce == nonce && this.open == open
    {
      this.nonce, this.open := nonce, open;
    }

    /** The receiver's half of a step; None when the counter has overflowed or the box does not open. */
    method OpenNext(box: seq<byte>) returns (message: Option<seq<byte>>)
      requires nonce.Ok()
      modifies nonce, nonce.bytes
      ensures var s := old(nonce.Value());
        message == (if s.overflow then None else open(box, s.bytes)) &&
        nonce.Value() == (if message.Some? then Next(s, nonce.sequentialBytes) else s)
    {
      hide Next;
      var used := nonce.Get();
      if used.None? { return None; }
      message := open(box, used.value);
      if message.Some? {
        nonce.Increment();
      }
    }
  }

  /** Both ends of one direction, the boxes on the way, and what was sent and read so far. */
  datatype Link = Link(sender: State, receiver: State, wire: seq<seq<byte>>, sent: seq<seq<byte>>,
                       received: seq<seq<byte>>)

  /** A forged box is one that the receiver's next nonce does not open. */
  datatype Event = Box(message: seq<byte>) | Deliver | Forge(box: seq<byte>)

  /** box throws before it changes anything once the counter has overflowed; unbox keeps its nonce when a box does not
      open. */
  function Take(l: Link, n: nat, e: Event, seal: (seq<byte>, seq<byte>) -> seq<byte>,
                open: (seq<byte>, seq<byte>) -> Option<seq<byte>>): Link
    requires 0 < n <= NONCE_BYTES && Valid(l.sender) && Valid(l.receiver)
  {
    match e
    case Box(m) =>
      if l.sender.overflow then l
      else l.(sender := Next(l.sender, n), wire := l.wire + [seal(m, l.sender.bytes)], sent := l.sent + [m])
    case Deliver =>
      if l.wire == [] then l else Unboxed(l.(wire := l.wire[1..]), n, l.wire[0], open)
    case Forge(c) =>
      if open(c, l.receiver.bytes).None? then Unboxed(l, n, c, open) else l
  }

  function Unboxed(l: Link, n: nat, c: seq<byte>, open: (seq<byte>, seq<byte>) -> Option<seq<byte>>): Link
    requires 0 < n <= NONCE_BYTES && Valid(l.sender) && Valid(l.receiver)
  {
    if l.receiver.overflow then l
    else match open(c, l.receiver.bytes)
      case None => l
      case Some(m) => l.(receiver := Next(l.receiver, n), received := l.received + [m])
  }

  function Run(l: Link, n: nat, events: seq<Event>, seal: (seq<byte>, seq<byte>) -> seq<byte>,
               open: (seq<byte>, seq<byte>) -> Option<seq<byte>>): (r: Link)
    requires 0 < n <= NONCE_BYTES && Valid(l.sender) && Valid(l.receiver)
    ensures Valid(r.sender) && Valid(r.receiver)
  {
    if events == [] then l else Take(Run(l, n, events[..|events| - 1], seal, open), n, events[|events| - 1], seal, open)
  }

  /** Each end stands at the nonce of as many messages as it has handled, and the boxes between them use the ones
      between. */
  ghost predicate Lockstep(l: Link, start: State, n: nat, seal: (seq<byte>, seq<byte>) -> seq<byte>)
    requires Valid(start) && 0 < n <= NONCE_BYTES
  {
    && |l.received| + |l.wire| == |l.sent|
    && l.sender == Nth(start, n, |l.sent|)
    && l.receiver == Nth(start, n, |l.received|)
    && l.received == l.sent[..|l.received|]
    && (forall i :: 0 <= i < |l.sent| ==> !Nth(start, n, i).overflow)
    && (forall i :: |l.received| <= i < |l.sent| ==>
      l.wire[i - |l.received|] == seal(l.sent[i], Nth(start, n, i).bytes))
  }

  lemma TakeKeepsLockstep(l: Link, start: State, n: nat, e: Event, seal: (seq<byte>, seq<byte>) -> seq<byte>,
                          open: (seq<byte>, seq<byte>) -> Option<seq<byte>>)
    requires Valid(start) && 0 < n <= NONCE_BYTES && Opens(seal, open) && Lockstep(l, start, n, seal)
    ensures Lockstep(Take(l, n, e, seal, open), start, n, seal)
  {
    hide Next;
    var t := Take(l, n, e, seal, open);
    if e.Deliver? && l.wire != [] {
      var r := |l.received|;
      assert l.wire[r - r] == seal(l.sent[r], Nth(start, n, r).bytes);
      assert t.received == l.sent[..r + 1];
      forall i | |t.received| <= i < |t.sent|
        ensures t.wire[i - |t.received|] == seal(t.sent[i], Nth(start, n, i).bytes)
      {
        assert l.wire[i - r] == t.wire[i - r - 1];
      }
    }
  }

  /** Over every run between two ends with one constant part: what was read is what was sent, in order, no nonce sealed
      twice. */
  lemma {:induction false} RunKeepsLockstep(start: State, n: nat, events: seq<Event>,
                                            seal: (seq<byte>, seq<byte>) -> seq<byte>,
                                            open: (seq<byte>, seq<byte>) -> Option<seq<byte>>)
    requires Valid(start) && 0 < n <= NONCE_BYTES && Opens(seal, open)
    ensures Lockstep(Run(Link(start, start, [], [], []), n, events, seal, open), start, n, seal)
  {
    hide Lockstep, Take;
    if events == [] {
      StartsInLockstep(start, n, seal);
    } else {
      RunKeepsLockstep(start, n, events[..|events| - 1], seal, open);
      TakeKeepsLockstep(Run(Link(start, start, [], [], []), n, events[..|events| - 1], seal, open), start, n,
                        events[|events| - 1], seal, open);
    }
  }

  lemma StartsInLockstep(start: State, n: nat, seal: (seq<byte>, seq<byte>) -> seq<byte>)
    requires Valid(start) && 0 < n <= NONCE_BYTES
    ensures Lockstep(Link(start, start, [], [], []), start, n, seal)
  {}

  /** boxer and unboxer each draw their own random constant part when they are given none, so with the same given
      one they start at the same nonce exactly when it is not empty or they happened to draw the same. */
  lemma StartsAgreeExactly(n: nat, own: seq<byte>, peer: seq<byte>, c: seq<byte>, random: seq<byte>, random': seq<byte>)
    requires 0 < n <= NONCE_BYTES && |random| == |random'| == NONCE_BYTES - n
    ensures
      UnboxerStart(n, peer, own, c, random') == BoxerStart(n, own, peer, c, random) <==> c != [] || random == random'
  {
    if c == [] {
      ConstantOfStart(n, random, Greater(own, peer));
      ConstantOfStart(n, random', Greater(own, peer));
    }
  }

  lemma ConstantOfStart(n: nat, constant: seq<byte>, uneven: bool)
    requires 0 < n <= NONCE_BYTES && |constant| == NONCE_BYTES - n
    ensures InitialBytes(n, constant, uneven)[..NONCE_BYTES - n] == constant
  {}

  /** An unboxer that is given the boxer's constant part starts at the boxer's nonce. */
  lemma StartFromConstant(n: nat, own: seq<byte>, peer: seq<byte>, c: seq<byte>, random: seq<byte>, random': seq<byte>)
    requires 0 < n <= NONCE_BYTES && |random| == |random'| == NONCE_BYTES - n
    requires BoxerStart(n, own, peer, c, random).Some?
    ensures var start := BoxerStart(n, own, peer, c, random).value;
      UnboxerStart(n, peer, own, Constant(start, n), random') == Some(start)
  {
    var part, uneven := if c == [] then random else c, Greater(own, peer);
    ConstantOfStart(n, part, uneven);
  }

  /** The usual set-up, in which the receiver gets the sender's constant part: over every run the messages read are a
      prefix of those sent, and no nonce is used twice. */
  lemma MessagesArrive(n: nat, own: seq<byte>, peer: seq<byte>, c: seq<byte>, random: seq<byte>, random': seq<byte>,
                       events: seq<Event>, seal: (seq<byte>, seq<byte>) -> seq<byte>,
                       open: (seq<byte>, seq<byte>) -> Option<seq<byte>>)
    requires 0 < n <= NONCE_BYTES && |random| == |random'| == NONCE_BYTES - n && Opens(seal, open)
    requires BoxerStart(n, own, peer, c, random).Some?
    ensures var start := BoxerStart(n, own, peer, c, random).value;
      var receiver := UnboxerStart(n, peer, own, Constant(start, n), random');
      receiver == Some(start) &&
      var end := Run(Link(start, receiver.value, [], [], []), n, events, seal, open);
      |end.received| <= |end.sent| && end.received == end.sent[..|end.received|] &&
      (forall i, j :: 0 <= i < j < |end.sent| ==> Nth(start, n, i).bytes != Nth(start, n, j).bytes)
  {
    var start := BoxerStart(n, own, peer, c, random).value;
    StartFromConstant(n, own, peer, c, random, random');
    RunKeepsLockstep(start, n, events, seal, open);
    var end := Run(Link(start, start, [], [], []), n, events, seal, open);
    hide Run, Nth, BoxerStart, UnboxerStart;
    forall i, j | 0 <= i < j < |end.sent| ensures Nth(start, n, i).bytes != Nth(start, n, j).bytes {
      NoNonceRepeats(start, n, i, j);
    }
  }

  // ------------------------------------------------------- different constant parts

  /** A cipher that opens a box under the nonce it was sealed with and under no other. */
  ghost predicate Authentic(seal: (seq<byte>, seq<byte>) -> seq<byte>,
                            open: (seq<byte>, seq<byte>) -> Option<seq<byte>>) {
    forall m, n, n' :: |n| == |n'| == NONCE_BYTES ==> open(seal(m, n), n') == if n == n' then Some(m) else None
  }

  /** There is such a cipher: it puts the nonce in front of the message. */
  lemma AuthenticExists()
    ensures Authentic((m, n) => n + m, (c, n) => if n <= c then Some(c[|n|..]) else None)
  {
    forall m: seq<byte>, n: seq<byte>, n': seq<byte> | |n| == |n'| == NONCE_BYTES
      ensures (if n' <= n + m then Some((n + m)[|n'|..]) else None) == if n == n' then Some(m) else None
    {
      if n' <= n + m { assert n' == (n + m)[..NONCE_BYTES] == n; }
      assert (n + m)[|n|..] == m;
    }
  }

  /** Two ends whose constant parts differ: every box on the way was sealed with the sender's, and nothing was read. */
  ghost predicate Apart(l: Link, n: nat, constant: seq<byte>, receiver: State,
                        seal: (seq<byte>, seq<byte>) -> seq<byte>)
    requires 0 < n <= NONCE_BYTES
  {
    && Valid(l.sender) && Constant(l.sender, n) == constant
    && l.receiver == receiver && l.received == []
    && forall c :: c in l.wire ==> SealedWith(c, n, constant, seal)
  }

  ghost predicate SealedWith(c: seq<byte>, n: nat, constant: seq<byte>, seal: (seq<byte>, seq<byte>) -> seq<byte>)
    requires 0 < n <= NONCE_BYTES
  {
    exists m, used: State :: Valid(used) && Constant(used, n) == constant && c == seal(m, used.bytes)
  }

  lemma TakeKeepsApart(l: Link, n: nat, constant: seq<byte>, receiver: State, e: Event,
                       seal: (seq<byte>, seq<byte>) -> seq<byte>, open: (seq<byte>, seq<byte>) -> Option<seq<byte>>)
    requires 0 < n <= NONCE_BYTES && Authentic(seal, open) && Valid(receiver) && Constant(receiver, n) != constant
    requires Apart(l, n, constant, receiver, seal)
    ensures Apart(Take(l, n, e, seal, open), n, constant, receiver, seal)
  {
    hide Next, Constant;
    match e
    case Box(m) =>
      if !l.sender.overflow {
        NextAddsTwo(l.sender, n);
        assert SealedWith(seal(m, l.sender.bytes), n, constant, seal);
      }
    case Deliver =>
      if l.wire != [] {
        assert l.wire[0] in l.wire;
        var m, used: State :| Valid(used) && Constant(used, n) == constant && l.wire[0] == seal(m, used.bytes);
        assert used.bytes != receiver.bytes by { SameConstant(used, receiver, n); }
      }
    case Forge(c) =>
  }

  lemma SameConstant(s: State, t: State, n: nat)
    requires Valid(s) && Valid(t) && 0 < n <= NONCE_BYTES
    ensures s.bytes == t.bytes ==> Constant(s, n) == Constant(t, n)
  {}

  lemma {:induction false} RunKeepsApart(n: nat, own: seq<byte>, peer: seq<byte>, random: seq<byte>, random': seq<byte>,
                                         events: seq<Event>, seal: (seq<byte>, seq<byte>) -> seq<byte>,
                                         open: (seq<byte>, seq<byte>) -> Option<seq<byte>>)
    requires 0 < n <= NONCE_BYTES && |random| == |random'| == NONCE_BYTES - n && random != random'
    requires Authentic(seal, open)
    ensures var sender, receiver := BoxerStart(n, own, peer, [], random), UnboxerStart(n, peer, own, [], random');
      sender.Some? && receiver.Some? &&
      Apart(Run(Link(sender.value, receiver.value, [], [], []), n, events, seal, open), n, random, receiver.value, seal)
    decreases |events|
  {
    hide Take, Greater, Constant, Apart;
    var sender, receiver := BoxerStart(n, own, peer, [], random).value, UnboxerStart(n, peer, own, [], random').value;
    var start := Link(sender, receiver, [], [], []);
    assert Constant(sender, n) == random && Constant(receiver, n) == random' by {
      StartConstant(n, random, Greater(own, peer));
      StartConstant(n, random', Greater(own, peer));
    }
    if events == [] {
      StartsApart(start, n, random, seal);
    } else {
      var k := |events| - 1;
      RunKeepsApart(n, own, peer, random, random', events[..k], seal, open);
      TakeKeepsApart(Run(start, n, events[..k], seal, open), n, random, receiver, events[k], seal, open);
    }
  }

  /** Two ends that draw different constant parts never exchange a message, however many are sent. */
  lemma NothingArrives(n: nat, own: seq<byte>, peer: seq<byte>, random: seq<byte>, random': seq<byte>,
                       events: seq<Event>, seal: (seq<byte>, seq<byte>) -> seq<byte>,
                       open: (seq<byte>, seq<byte>) -> Option<seq<byte>>)
    requires 0 < n <= NONCE_BYTES && |random| == |random'| == NONCE_BYTES - n && random != random'
    requires Authentic(seal, open)
    ensures var sender, receiver := BoxerStart(n, own, peer, [], random), UnboxerStart(n, peer, own, [], random');
      sender.Some? && receiver.Some? &&
      Run(Link(sender.value, receiver.value, [], [], []), n, events, seal, open).received == []
  {
    hide Run;
    RunKeepsApart(n, own, peer, random, random', events, seal, open);
  }

  lemma StartConstant(n: nat, random: seq<byte>, uneven: bool)
    requires 0 < n <= NONCE_BYTES && |random| == NONCE_BYTES - n
    ensures var s := Initial(n, [], random, uneven, true); s.Some? && Constant(s.value, n) == random
  {
    ConstantOfStart(n, random, uneven);
  }

  lemma StartsApart(l: Link, n: nat, constant: seq<byte>, seal: (seq<byte>, seq<byte>) -> seq<byte>)
    requires 0 < n <= NONCE_BYTES && Valid(l.sender) && Constant(l.sender, n) == constant
    requires l.wire == [] && l.received == []
    ensures Apart(l, n, constant, l.receiver, seal)
  {}
}
