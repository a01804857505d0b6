/** SHA-1 with streaming input, against sections 4 to 6 of FIPS 180-4. */
module Sha1 {

  // ------------------------------------------------------ the standard's words

  datatype State = State(a: bv32, b: bv32, c: bv32, d: bv32, e: bv32)

  function Rol(x: bv32, n: nat): bv32
    requires n < 32
  {
    (x << n) | (x >> (32 - n))
  }

  function Expand(a: bv32, b: bv32, c: bv32, d: bv32): bv32 { Rol(a ^ b ^ c ^ d, 1) }

  function StateOf(digest: seq<bv32>): State
    requires |digest| == 5
  {
    State(digest[0], digest[1], digest[2], digest[3], digest[4])
  }

  /** The message schedule W_t of section 6.1.2, all 80 words of it. */
  function Schedule(m: seq<bv32>, t: nat): bv32
    requires |m| == 16
  {
    if t < 16 then m[t]
    else Expand(Schedule(m, t - 3), Schedule(m, t - 8), Schedule(m, t - 14), Schedule(m, t - 16))
  }

  /** The rotations of the program are rotations. */
  lemma RolRotates(x: bv32)
    ensures Rol(x, 1) == x.RotateLeft(1) && Rol(x, 5) == x.RotateLeft(5) && Rol(x, 30) == x.RotateLeft(30)
  {}

  /** w is x rotated by one: its last bit is the first of x, and its other bits are those of x, one place up. */
  predicate IsRotated(w: bv32, x: bv32) {
    w & 1 == x >> 31 && w >> 1 == x & 0x7fff_ffff
  }

  /** Every word from the seventeenth on is the exclusive or of four earlier ones, rotated by one. */
  lemma ScheduleRotates(m: seq<bv32>, t: nat)
    requires |m| == 16 && t >= 16
    ensures
      IsRotated(Schedule(m, t), Schedule(m, t - 3) ^ Schedule(m, t - 8) ^ Schedule(m, t - 14) ^ Schedule(m, t - 16))
  {
    hide Schedule, Expand, IsRotated;
    ScheduleStep(m, t);
    ExpandRotates(Schedule(m, t - 3), Schedule(m, t - 8), Schedule(m, t - 14), Schedule(m, t - 16));
  }

  lemma ExpandRotates(a: bv32, b: bv32, c: bv32, d: bv32)
    ensures IsRotated(Expand(a, b, c, d), a ^ b ^ c ^ d)
  {
    hide Rol, IsRotated;
    RotatedOnce(a ^ b ^ c ^ d);
  }

  lemma RotatedOnce(x: bv32)
    ensures IsRotated(Rol(x, 1), x)
  {
    var w := Rol(x, 1);
    RolOne(x);
    hide Rol;
    LastBit(x, w);
    OtherBits(x, w);
  }

  lemma RolOne(x: bv32)
    ensures Rol(x, 1) == (x << 1) | (x >> 31)
  {
    assert x >> (32 - 1) == x >> 31;
  }

  lemma LastBit(x: bv32, w: bv32)
    requires w == (x << 1) | (x >> 31)
    ensures w & 1 == x >> 31
  {}

  lemma OtherBits(x: bv32, w: bv32)
    requires w == (x << 1) | (x >> 31)
    ensures w >> 1 == x & 0x7fff_ffff
  {}

  function Ch(x: bv32, y: bv32, z: bv32): bv32 { (x & y) ^ (!x & z) }
  function Parity(x: bv32, y: bv32, z: bv32): bv32 { x ^ y ^ z }
  function Maj(x: bv32, y: bv32, z: bv32): bv32 { (x & y) ^ (x & z) ^ (y & z) }

  /** f_t of section 4.1.1 and K_t of section 4.2.1. */
  function F(t: nat, x: bv32, y: bv32, z: bv32): bv32 {
    if t < 20 then Ch(x, y, z) else if t < 40 then Parity(x, y, z) else if t < 60 then Maj(x, y, z) else Parity(x, y, z)
  }

  function K(t: nat): bv32 {
    if t < 20 then 0x5a827999 else if t < 40 then 0x6ed9eba1 else if t < 60 then 0x8f1bbcdc else 0xca62c1d6
  }

  function Sum(a: bv32, b: bv32, c: bv32, d: bv32, e: bv32): bv32 { a + b + c + d + e }

  function Round(s: State, t: nat, w: bv32): State {
    State(Sum(Rol(s.a, 5), F(t, s.b, s.c, s.d), s.e, K(t), w), s.a, Rol(s.b, 30), s.c, s.d)
  }

  /** The working variables before step t. */
  function Rounds(s: State, m: seq<bv32>, t: nat): State
    requires |m| == 16
  {
    if t == 0 then s else Round(Rounds(s, m, t - 1), t - 1, Schedule(m, t - 1))
  }

  /** Addition modulo 2^32. */
  function Add(x: bv32, y: bv32): bv32 { x + y }

  function Plus(s: State, r: State): State {
    State(Add(s.a, r.a), Add(s.b, r.b), Add(s.c, r.c), Add(s.d, r.d), Add(s.e, r.e))
  }

  function Compress(s: State, m: seq<bv32>): State
    requires |m| == 16
  {
    Plus(s, Rounds(s, m, 80))
  }

  // -------------------------------------------------- the program's round macros

  /** Sixteen words that stand for the last sixteen words of the schedule, each at its index modulo 16. */
  ghost predicate Window(block: seq<bv32>, m: seq<bv32>, t: nat) {
    |block| == 16 && |m| == 16 &&
    forall i {:trigger Schedule(m, i)} :: (if t < 16 then 0 else t - 16) <= i < (if t < 16 then 16 else t)
      ==> block[i % 16] == Schedule(m, i)
  }

  function Blk(block: seq<bv32>, i: nat): bv32
    requires |block| == 16 && i < 16
  {
    Expand(block[(i + 13) % 16], block[(i + 8) % 16], block[(i + 2) % 16], block[i])
  }

  lemma WindowAt(block: seq<bv32>, m: seq<bv32>, t: nat, i: nat)
    requires |block| == 16 && |m| == 16 && Window(block, m, t)
      && (if t < 16 then 0 else t - 16) <= i < (if t < 16 then 16 else t)
    ensures block[i % 16] == Schedule(m, i)
  {
    hide Schedule;
  }

  lemma WindowStarts(m: seq<bv32>)
    requires |m| == 16
    ensures Window(m, m, 0)
  {}

  lemma Mod16(x: int, q: int, r: int)
    requires x == 16 * q + r && 0 <= r < 16
    ensures x % 16 == r
  {}

  lemma SlotBack(t: nat, k: nat)
    requires k <= 16 <= t
    ensures (t % 16 + (16 - k)) % 16 == (t - k) % 16
  {
    var q, r := t / 16, t % 16;
    if k <= r {
      Mod16(t - k, q, r - k);
      Mod16(r + (16 - k), 1, r - k);
    } else {
      Mod16(t - k, q - 1, r + 16 - k);
      Mod16(r + (16 - k), 0, r + 16 - k);
    }
  }

  lemma ScheduleStep(m: seq<bv32>, t: nat)
    requires |m| == 16 && 16 <= t
    ensures Schedule(m, t) == Expand(Schedule(m, t - 3), Schedule(m, t - 8), Schedule(m, t - 14), Schedule(m, t - 16))
  {
    hide Expand;
  }

  lemma WordBack(block: seq<bv32>, m: seq<bv32>, t: nat, k: nat, at: nat)
    requires |block| == 16 && |m| == 16 && Window(block, m, t) && 1 <= k <= 16 <= t && at == (t % 16 + (16 - k)) % 16
    ensures block[at] == Schedule(m, t - k)
  {
    hide Schedule, Window;
    SlotBack(t, k);
    WindowAt(block, m, t, t - k);
  }

  lemma BlkIsNextWord(block: seq<bv32>, m: seq<bv32>, t: nat)
    requires |block| == 16 && |m| == 16 && Window(block, m, t) && 16 <= t
    ensures Blk(block, t % 16) == Schedule(m, t)
  {
    hide Schedule, Expand, Window;
    var i := t % 16;
    WordBack(block, m, t, 3, (i + 13) % 16);
    WordBack(block, m, t, 8, (i + 8) % 16);
    WordBack(block, m, t, 14, (i + 2) % 16);
    WordBack(block, m, t, 16, i);
    ScheduleStep(m, t);
  }

  /** Overwriting the oldest word of the window with the next one of the schedule. */
  lemma WindowMoves(block: seq<bv32>, m: seq<bv32>, t: nat)
    requires |block| == 16 && |m| == 16 && Window(block, m, t) && 16 <= t
    ensures Window(block[t % 16 := Schedule(m, t)], m, t + 1)
  {
    hide Schedule;
    var next := block[t % 16 := Schedule(m, t)];
    forall i {:trigger Schedule(m, i)} | t + 1 - 16 <= i < t + 1
      ensures next[i % 16] == Schedule(m, i)
    {
      if i < t {
        assert i % 16 != t % 16;
        assert block[i % 16] == Schedule(m, i);
      }
    }
  }

  function Added(z: bv32, f: bv32, w: bv32, k: bv32, r: bv32): bv32 { z + (f + w + k + r) }

  lemma AddedIsSum(z: bv32, f: bv32, w: bv32, k: bv32, r: bv32)
    ensures Added(z, f, w, k, r) == Sum(r, f, z, k, w)
  {}

  lemma ChAsWritten(x: bv32, y: bv32, z: bv32)
    ensures (x & (y ^ z)) ^ z == Ch(x, y, z)
  {}

  lemma ParityAsWritten(x: bv32, y: bv32, z: bv32)
    ensures x ^ y ^ z == Parity(x, y, z)
  {}

  lemma MajAsWritten(x: bv32, y: bv32, z: bv32)
    ensures ((x | y) & z) | (x & y) == Maj(x, y, z)
  {}

  lemma NextRound(h: State, m: seq<bv32>, t: nat, v: bv32, w: bv32, x: bv32, y: bv32, z: bv32)
    requires |m| == 16 && State(v, w, x, y, z) == Rounds(h, m, t)
    ensures Rounds(h, m, t + 1) == State(Added(z, F(t, w, x, y), Schedule(m, t), K(t), Rol(v, 5)), v, Rol(w, 30), x, y)
  {
    hide Schedule, F, K, Rol, Added, Sum;
    AddedIsSum(z, F(t, w, x, y), Schedule(m, t), K(t), Rol(v, 5));
  }

  lemma RoundsStart(h: State, m: seq<bv32>)
    requires |m| == 16
    ensures Rounds(h, m, 0) == h
  {}

  method R0(block: array<bv32>, v: bv32, w: bv32, x: bv32, y: bv32, z: bv32, i: nat, ghost h: State,
            ghost m: seq<bv32>, ghost t: nat)
    returns (w': bv32, z': bv32)
    requires block.Length == 16 && |m| == 16 && Window(block[..], m, t) && 0 <= t < 16 && i == t % 16
    requires State(v, w, x, y, z) == Rounds(h, m, t)
    ensures Window(block[..], m, t + 1) && State(z', v, w', x, y) == Rounds(h, m, t + 1)
  {
    hide Schedule, Rounds, Rol, Added, Ch, Parity, Maj;
    WindowAt(block[..], m, t, t);
    NextRound(h, m, t, v, w, x, y, z);
    ChAsWritten(w, x, y);
    z' := Added(z, ((w & (x ^ y)) ^ y), block[i], 0x5a827999, Rol(v, 5));
    w' := Rol(w, 30);
  }

  method R1(block: array<bv32>, v: bv32, w: bv32, x: bv32, y: bv32, z: bv32, i: nat, ghost h: State,
            ghost m: seq<bv32>, ghost t: nat)
    returns (w': bv32, z': bv32)
    requires block.Length == 16 && |m| == 16 && Window(block[..], m, t) && 16 <= t < 20 && i == t % 16
    requires State(v, w, x, y, z) == Rounds(h, m, t)
    modifies block
    ensures Window(block[..], m, t + 1) && State(z', v, w', x, y) == Rounds(h, m, t + 1)
  {
    hide Schedule, Rounds, Rol, Added, Ch, Parity, Maj, Blk, Window;
    BlkIsNextWord(block[..], m, t);
    WindowMoves(block[..], m, t);
    block[i] := Blk(block[..], i);
    assert block[..] == old(block[..])[i := Schedule(m, t)];
    NextRound(h, m, t, v, w, x, y, z);
    ChAsWritten(w, x, y);
    z' := Added(z, ((w & (x ^ y)) ^ y), block[i], 0x5a827999, Rol(v, 5));
    w' := Rol(w, 30);
  }

  method R2(block: array<bv32>, v: bv32, w: bv32, x: bv32, y: bv32, z: bv32, i: nat, ghost h: State,
            ghost m: seq<bv32>, ghost t: nat)
    returns (w': bv32, z': bv32)
    requires block.Length == 16 && |m| == 16 && Window(block[..], m, t) && 20 <= t < 40 && i == t % 16
    requires State(v, w, x, y, z) == Rounds(h, m, t)
    modifies block
    ensures Window(block[..], m, t + 1) && State(z', v, w', x, y) == Rounds(h, m, t + 1)
  {
    hide Schedule, Rounds, Rol, Added, Ch, Parity, Maj, Blk, Window;
    BlkIsNextWord(block[..], m, t);
    WindowMoves(block[..], m, t);
    block[i] := Blk(block[..], i);
    assert block[..] == old(block[..])[i := Schedule(m, t)];
    NextRound(h, m, t, v, w, x, y, z);
    ParityAsWritten(w, x, y);
    z' := Added(z, (w ^ x ^ y), block[i], 0x6ed9eba1, Rol(v, 5));
    w' := Rol(w, 30);
  }

  method R3(block: array<bv32>, v: bv32, w: bv32, x: bv32, y: bv32, z: bv32, i: nat, ghost h: State,
            ghost m: seq<bv32>, ghost t: nat)
    returns (w': bv32, z': bv32)
    requires block.Length == 16 && |m| == 16 && Window(block[..], m, t) && 40 <= t < 60 && i == t % 16
    requires State(v, w, x, y, z) == Rounds(h, m, t)
    modifies block
    ensures Window(block[..], m, t + 1) && State(z', v, w', x, y) == Rounds(h, m, t + 1)
  {
    hide Schedule, Rounds, Rol, Added, Ch, Parity, Maj, Blk, Window;
    BlkIsNextWord(block[..], m, t);
    WindowMoves(block[..], m, t);
    block[i] := Blk(block[..], i);
    assert block[..] == old(block[..])[i := Schedule(m, t)];
    NextRound(h, m, t, v, w, x, y, z);
    MajAsWritten(w, x, y);
    z' := Added(z, (((w | x) & y) | (w & x)), block[i], 0x8f1bbcdc, Rol(v, 5));
    w' := Rol(w, 30);
  }

  method R4(block: array<bv32>, v: bv32, w: bv32, x: bv32, y: bv32, z: bv32, i: nat, ghost h: State,
            ghost m: seq<bv32>, ghost t: nat)
    returns (w': bv32, z': bv32)
    requires block.Length == 16 && |m| == 16 && Window(block[..], m, t) && 60 <= t < 80 && i == t % 16
    requires State(v, w, x, y, z) == Rounds(h, m, t)
    modifies block
    ensures Window(block[..], m, t + 1) && State(z', v, w', x, y) == Rounds(h, m, t + 1)
  {
    hide Schedule, Rounds, Rol, Added, Ch, Parity, Maj, Blk, Window;
    BlkIsNextWord(block[..], m, t);
    WindowMoves(block[..], m, t);
    block[i] := Blk(block[..], i);
    assert block[..] == old(block[..])[i := Schedule(m, t)];
    NextRound(h, m, t, v, w, x, y, z);
    ParityAsWritten(w, x, y);
    z' := Added(z, (w ^ x ^ y), block[i], 0xca62c1d6, Rol(v, 5));
    w' := Rol(w, 30);
  }

  method Rounds0To19(block: array<bv32>, a0: bv32, b0: bv32, c0: bv32, d0: bv32, e0: bv32, ghost h: State,
                     ghost m: seq<bv32>)
    returns (a: bv32, b: bv32, c: bv32, d: bv32, e: bv32)
    requires block.Length == 16 && |m| == 16 && Window(block[..], m, 0)
    requires State(a0, b0, c0, d0, e0) == Rounds(h, m, 0)
    modifies block
    ensures Window(block[..], m, 20) && State(a, b, c, d, e) == Rounds(h, m, 20)
  {
    hide Rounds, Window;
    a, b, c, d, e := a0, b0, c0, d0, e0;
    b, e := R0(block, a, b, c, d, e, 0, h, m, 0);
    a, d := R0(block, e, a, b, c, d, 1, h, m, 1);
    e, c := R0(block, d, e, a, b, c, 2, h, m, 2);
    d, b := R0(block, c, d, e, a, b, 3, h, m, 3);
    c, a := R0(block, b, c, d, e, a, 4, h, m, 4);
    b, e := R0(block, a, b, c, d, e, 5, h, m, 5);
    a, d := R0(block, e, a, b, c, d, 6, h, m, 6);
    e, c := R0(block, d, e, a, b, c, 7, h, m, 7);
    d, b := R0(block, c, d, e, a, b, 8, h, m, 8);
    c, a := R0(block, b, c, d, e, a, 9, h, m, 9);
    b, e := R0(block, a, b, c, d, e, 10, h, m, 10);
    a, d := R0(block, e, a, b, c, d, 11, h, m, 11);
    e, c := R0(block, d, e, a, b, c, 12, h, m, 12);
    d, b := R0(block, c, d, e, a, b, 13, h, m, 13);
    c, a := R0(block, b, c, d, e, a, 14, h, m, 14);
    b, e := R0(block, a, b, c, d, e, 15, h, m, 15);
    a, d := R1(block, e, a, b, c, d, 0, h, m, 16);
    e, c := R1(block, d, e, a, b, c, 1, h, m, 17);
    d, b := R1(block, c, d, e, a, b, 2, h, m, 18);
    c, a := R1(block, b, c, d, e, a, 3, h, m, 19);
  }

  method Rounds20To39(block: array<bv32>, a0: bv32, b0: bv32, c0: bv32, d0: bv32, e0: bv32, ghost h: State,
                      ghost m: seq<bv32>)
    returns (a: bv32, b: bv32, c: bv32, d: bv32, e: bv32)
    requires block.Length == 16 && |m| == 16 && Window(block[..], m, 20)
    requires State(a0, b0, c0, d0, e0) == Rounds(h, m, 20)
    modifies block
    ensures Window(block[..], m, 40) && State(a, b, c, d, e) == Rounds(h, m, 40)
  {
    hide Rounds, Window;
    a, b, c, d, e := a0, b0, c0, d0, e0;
    b, e := R2(block, a, b, c, d, e, 4, h, m, 20);
    a, d := R2(block, e, a, b, c, d, 5, h, m, 21);
    e, c := R2(block, d, e, a, b, c, 6, h, m, 22);
    d, b := R2(block, c, d, e, a, b, 7, h, m, 23);
    c, a := R2(block, b, c, d, e, a, 8, h, m, 24);
    b, e := R2(block, a, b, c, d, e, 9, h, m, 25);
    a, d := R2(block, e, a, b, c, d, 10, h, m, 26);
    e, c := R2(block, d, e, a, b, c, 11, h, m, 27);
    d, b := R2(block, c, d, e, a, b, 12, h, m, 28);
    c, a := R2(block, b, c, d, e, a, 13, h, m, 29);
    b, e := R2(block, a, b, c, d, e, 14, h, m, 30);
    a, d := R2(block, e, a, b, c, d, 15, h, m, 31);
    e, c := R2(block, d, e, a, b, c, 0, h, m, 32);
    d, b := R2(block, c, d, e, a, b, 1, h, m, 33);
    c, a := R2(block, b, c, d, e, a, 2, h, m, 34);
    b, e := R2(block, a, b, c, d, e, 3, h, m, 35);
    a, d := R2(block, e, a, b, c, d, 4, h, m, 36);
    e, c := R2(block, d, e, a, b, c, 5, h, m, 37);
    d, b := R2(block, c, d, e, a, b, 6, h, m, 38);
    c, a := R2(block, b, c, d, e, a, 7, h, m, 39);
  }

  method Rounds40To59(block: array<bv32>, a0: bv32, b0: bv32, c0: bv32, d0: bv32, e0: bv32, ghost h: State,
                      ghost m: seq<bv32>)
    returns (a: bv32, b: bv32, c: bv32, d: bv32, e: bv32)
    requires block.Length == 16 && |m| == 16 && Window(block[..], m, 40)
    requires State(a0, b0, c0, d0, e0) == Rounds(h, m, 40)
    modifies block
    ensures Window(block[..], m, 60) && State(a, b, c, d, e) == Rounds(h, m, 60)
  {
    hide Rounds, Window;
    a, b, c, d, e := a0, b0, c0, d0, e0;
    b, e := R3(block, a, b, c, d, e, 8, h, m, 40);
    a, d := R3(block, e, a, b, c, d, 9, h, m, 41);
    e, c := R3(block, d, e, a, b, c, 10, h, m, 42);
    d, b := R3(block, c, d, e, a, b, 11, h, m, 43);
    c, a := R3(block, b, c, d, e, a, 12, h, m, 44);
    b, e := R3(block, a, b, c, d, e, 13, h, m, 45);
    a, d := R3(block, e, a, b, c, d, 14, h, m, 46);
    e, c := R3(block, d, e, a, b, c, 15, h, m, 47);
    d, b := R3(block, c, d, e, a, b, 0, h, m, 48);
    c, a := R3(block, b, c, d, e, a, 1, h, m, 49);
    b, e := R3(block, a, b, c, d, e, 2, h, m, 50);
    a, d := R3(block, e, a, b, c, d, 3, h, m, 51);
    e, c := R3(block, d, e, a, b, c, 4, h, m, 52);
    d, b := R3(block, c, d, e, a, b, 5, h, m, 53);
    c, a := R3(block, b, c, d, e, a, 6, h, m, 54);
    b, e := R3(block, a, b, c, d, e, 7, h, m, 55);
    a, d := R3(block, e, a, b, c, d, 8, h, m, 56);
    e, c := R3(block, d, e, a, b, c, 9, h, m, 57);
    d, b := R3(block, c, d, e, a, b, 10, h, m, 58);
    c, a := R3(block, b, c, d, e, a, 11, h, m, 59);
  }

  method Rounds60To79(block: array<bv32>, a0: bv32, b0: bv32, c0: bv32, d0: bv32, e0: bv32, ghost h: State,
                      ghost m: seq<bv32>)
    returns (a: bv32, b: bv32, c: bv32, d: bv32, e: bv32)
    requires block.Length == 16 && |m| == 16 && Window(block[..], m, 60)
    requires State(a0, b0, c0, d0, e0) == Rounds(h, m, 60)
    modifies block
    ensures Window(block[..], m, 80) && State(a, b, c, d, e) == Rounds(h, m, 80)
  {
    hide Rounds, Window;
    a, b, c, d, e := a0, b0, c0, d0, e0;
    b, e := R4(block, a, b, c, d, e, 12, h, m, 60);
    a, d := R4(block, e, a, b, c, d, 13, h, m, 61);
    e, c := R4(block, d, e, a, b, c, 14, h, m, 62);
    d, b := R4(block, c, d, e, a, b, 15, h, m, 63);
    c, a := R4(block, b, c, d, e, a, 0, h, m, 64);
    b, e := R4(block, a, b, c, d, e, 1, h, m, 65);
    a, d := R4(block, e, a, b, c, d, 2, h, m, 66);
    e, c := R4(block, d, e, a, b, c, 3, h, m, 67);
    d, b := R4(block, c, d, e, a, b, 4, h, m, 68);
    c, a := R4(block, b, c, d, e, a, 5, h, m, 69);
    b, e := R4(block, a, b, c, d, e, 6, h, m, 70);
    a, d := R4(block, e, a, b, c, d, 7, h, m, 71);
    e, c := R4(block, d, e, a, b, c, 8, h, m, 72);
    d, b := R4(block, c, d, e, a, b, 9, h, m, 73);
    c, a := R4(block, b, c, d, e, a, 10, h, m, 74);
    b, e := R4(block, a, b, c, d, e, 11, h, m, 75);
    a, d := R4(block, e, a, b, c, d, 12, h, m, 76);
    e, c := R4(block, d, e, a, b, c, 13, h, m, 77);
    d, b := R4(block, c, d, e, a, b, 14, h, m, 78);
    c, a := R4(block, b, c, d, e, a, 15, h, m, 79);
  }

  method AddBack(digest: array<bv32>, a: bv32, b: bv32, c: bv32, d: bv32, e: bv32)
    requires digest.Length == 5
    modifies digest
    ensures StateOf(digest[..]) == Plus(StateOf(old(digest[..])), State(a, b, c, d, e))
  {
    hide Add;
    digest[0] := Add(digest[0], a);
    digest[1] := Add(digest[1], b);
    digest[2] := Add(digest[2], c);
    digest[3] := Add(digest[3], d);
    digest[4] := Add(digest[4], e);
  }

  /** The eighty unrolled calls over a digest in place: one compression of section 6.1.2. */
  method Transform(digest: array<bv32>, block: array<bv32>)
    requires digest.Length == 5 && block.Length == 16 && digest != block
    modifies digest, block
    ensures StateOf(digest[..]) == Compress(StateOf(old(digest[..])), old(block[..]))
  {
    hide Window, Rounds, Plus;
    ghost var h, m := StateOf(digest[..]), block[..];
    WindowStarts(m);
    RoundsStart(h, m);
    var a, b, c, d, e := digest[0], digest[1], digest[2], digest[3], digest[4];
    a, b, c, d, e := Rounds0To19(block, a, b, c, d, e, h, m);
    a, b, c, d, e := Rounds20To39(block, a, b, c, d, e, h, m);
    a, b, c, d, e := Rounds40To59(block, a, b, c, d, e, h, m);
    a, b, c, d, e := Rounds60To79(block, a, b, c, d, e, h, m);
    AddBack(digest, a, b, c, d, e);
  }

  // ---------------------------------------------------------- bytes and padding

  const BLOCK_BYTES := 64
  const TWO_TO_THE_64 := 0x1_0000_0000_0000_0000

  function Word(b0: bv8, b1: bv8, b2: bv8, b3: bv8): bv32 {
    (b3 as bv32) | ((b2 as bv32) << 8) | ((b1 as bv32) << 16) | ((b0 as bv32) << 24)
  }

  function Words(bytes: seq<bv8>): (m: seq<bv32>)
    requires |bytes| == BLOCK_BYTES
    ensures |m| == 16
  {
    seq(16, i requires 0 <= i < 16 => Word(bytes[4 * i], bytes[4 * i + 1], bytes[4 * i + 2], bytes[4 * i + 3]))
  }

  const Initial := State(0x67452301, 0xefcdab89, 0x98badcfe, 0x10325476, 0xc3d2e1f0)

  /** Section 6.1.2 over the blocks of a padded message. */
  function HashBlocks(bytes: seq<bv8>): State
    requires |bytes| % BLOCK_BYTES == 0
  {
    if bytes == [] then Initial
    else
      var n := |bytes| - BLOCK_BYTES;
      Compress(HashBlocks(bytes[..n]), Words(bytes[n..]))
  }

  function Zeros(n: nat): (z: seq<bv8>)
    ensures |z| == n && forall k :: 0 <= k < n ==> z[k] == 0
  {
    seq(n, _ => 0)
  }

  /** The length in bits, modulo 2^64; the standard only defines messages for which the reduction does nothing. */
  function BitLength(n: nat): bv64 { (8 * n % TWO_TO_THE_64) as bv64 }

  function LengthBytes(bits: bv64): (b: seq<bv8>)
    ensures |b| == 8
  {
    [(bits >> 56) as bv8, ((bits >> 48) & 0xff) as bv8, ((bits >> 40) & 0xff) as bv8, ((bits >> 32) & 0xff) as bv8,
     ((bits >> 24) & 0xff) as bv8, ((bits >> 16) & 0xff) as bv8, ((bits >> 8) & 0xff) as bv8, (bits & 0xff) as bv8]
  }

  lemma PadLength(n: nat)
    ensures (n + 9 + (55 - n) % BLOCK_BYTES) % BLOCK_BYTES == 0
  {
    var q, k := (55 - n) / BLOCK_BYTES, (55 - n) % BLOCK_BYTES;
    assert n + 9 + k == BLOCK_BYTES * (1 - q);
  }

  /** Section 5.1.1: a one bit, the fewest zero bits that leave eight bytes of the last block, and the length. */
  function Padded(message: seq<bv8>): (p: seq<bv8>)
    ensures |p| % BLOCK_BYTES == 0
    ensures |message| + 9 <= |p| < |message| + 9 + BLOCK_BYTES
    ensures message <= p
  {
    PadLength(|message|);
    message + [0x80] + Zeros((55 - |message|) % BLOCK_BYTES) + LengthBytes(BitLength(|message|))
  }

  function HexDigit(n: bv4): char {
    if n == 0 then '0' else if n == 1 then '1' else if n == 2 then '2' else if n == 3 then '3'
    else if n == 4 then '4' else if n == 5 then '5' else if n == 6 then '6' else if n == 7 then '7'
    else if n == 8 then '8' else if n == 9 then '9' else if n == 10 then 'a' else if n == 11 then 'b'
    else if n == 12 then 'c' else if n == 13 then 'd' else if n == 14 then 'e' else 'f'
  }

  function HexWord(w: bv32): (s: string)
    ensures |s| == 8
  {
    [HexDigit((w >> 28) as bv4), HexDigit(((w >> 24) & 15) as bv4), HexDigit(((w >> 20) & 15) as bv4),
     HexDigit(((w >> 16) & 15) as bv4),
     HexDigit(((w >> 12) & 15) as bv4), HexDigit(((w >> 8) & 15) as bv4), HexDigit(((w >> 4) & 15) as bv4),
       HexDigit((w & 15) as bv4)]
  }

  function Hex(s: State): string { HexWord(s.a) + HexWord(s.b) + HexWord(s.c) + HexWord(s.d) + HexWord(s.e) }

  function Hash(message: seq<bv8>): string { Hex(HashBlocks(Padded(message))) }

  lemma HashBlocksStep(bytes: seq<bv8>, last: seq<bv8>)
    requires |bytes| % BLOCK_BYTES == 0 && |last| == BLOCK_BYTES
    ensures HashBlocks(bytes + last) == Compress(HashBlocks(bytes), Words(last))
  {
    hide Compress, Words;
    assert (bytes + last)[..|bytes|] == bytes && (bytes + last)[|bytes|..] == last;
  }

  /** The two words the tail stores are the last eight bytes of the padded message. */
  lemma LengthWords(bits: bv64)
    ensures var b := LengthBytes(bits);
      Word(b[0], b[1], b[2], b[3]) == (bits >> 32) as bv32
        && Word(b[4], b[5], b[6], b[7]) == (bits & 0xffff_ffff) as bv32
  {}

  /** The last block buffer after the marker byte and the zero bytes up to its end. */
  function Filled(tail: seq<bv8>): (f: seq<bv8>)
    requires |tail| < BLOCK_BYTES
    ensures |f| == BLOCK_BYTES
  {
    tail + [0x80] + Zeros(63 - |tail|)
  }

  lemma OneMoreBlock(n: nat)
    requires n % BLOCK_BYTES == 0
    ensures (n / BLOCK_BYTES % TWO_TO_THE_64 + 1) % TWO_TO_THE_64 == (n + BLOCK_BYTES) / BLOCK_BYTES % TWO_TO_THE_64
    ensures (n + BLOCK_BYTES) % BLOCK_BYTES == 0
  {
    var q := n / BLOCK_BYTES;
    assert (n + BLOCK_BYTES) / BLOCK_BYTES == q + 1;
  }

  lemma BitsCounted(n: nat, blocks: nat, rest: nat)
    requires n == blocks * BLOCK_BYTES + rest
    ensures (blocks % TWO_TO_THE_64 * BLOCK_BYTES + rest) * 8 % TWO_TO_THE_64 == 8 * n % TWO_TO_THE_64
  {
    var q := blocks / TWO_TO_THE_64;
    assert 8 * n == (blocks % TWO_TO_THE_64 * BLOCK_BYTES + rest) * 8 + TWO_TO_THE_64 * (512 * q);
    Wraps((blocks % TWO_TO_THE_64 * BLOCK_BYTES + rest) * 8, 512 * q);
  }

  lemma {:induction false} Wraps(x: nat, k: nat)
    ensures (x + TWO_TO_THE_64 * k) % TWO_TO_THE_64 == x % TWO_TO_THE_64
  {
    if k > 0 {
      Wraps(x, k - 1);
      assert x + TWO_TO_THE_64 * k == (x + TWO_TO_THE_64 * (k - 1)) + TWO_TO_THE_64;
    }
  }

  lemma PaddedOneBlock(done: seq<bv8>, tail: seq<bv8>)
    requires |done| % BLOCK_BYTES == 0 && |tail| <= 55
    ensures Padded(done + tail) == done + (Filled(tail)[..56] + LengthBytes(BitLength(|done| + |tail|)))
  {
    hide BitLength, LengthBytes;
    assert (55 - |done + tail|) % BLOCK_BYTES == 55 - |tail|;
    assert Filled(tail)[..56] == tail + [0x80] + Zeros(55 - |tail|);
  }

  lemma PaddedTwoBlocks(done: seq<bv8>, tail: seq<bv8>)
    requires |done| % BLOCK_BYTES == 0 && 55 < |tail| < BLOCK_BYTES
    ensures Padded(done + tail) == (done + Filled(tail)) + (Zeros(56) + LengthBytes(BitLength(|done| + |tail|)))
  {
    hide BitLength, LengthBytes;
    assert (55 - |done + tail|) % BLOCK_BYTES == 119 - |tail|;
    assert Zeros(119 - |tail|) == Zeros(63 - |tail|) + Zeros(56);
  }

  /** The padding that fits beside the tail: one more compression. */
  lemma HashOfShortTail(done: seq<bv8>, tail: seq<bv8>, length: seq<bv8>)
    requires |done| % BLOCK_BYTES == 0 && |tail| <= 55 && length == LengthBytes(BitLength(|done| + |tail|))
    ensures HashBlocks(Padded(done + tail)) == Compress(HashBlocks(done), Words(Filled(tail)[..56] + length))
  {
    hide Compress, Words, Padded, LengthBytes, Filled, HashBlocks, BitLength;
    PaddedOneBlock(done, tail);
    HashBlocksStep(done, Filled(tail)[..56] + length);
  }

  /** The padding that does not: two compressions, the second over zeros and the length. */
  lemma HashOfLongTail(done: seq<bv8>, tail: seq<bv8>, length: seq<bv8>)
    requires |done| % BLOCK_BYTES == 0 && 55 < |tail| < BLOCK_BYTES && length == LengthBytes(BitLength(|done| + |tail|))
    ensures HashBlocks(Padded(done + tail))
      == Compress(Compress(HashBlocks(done), Words(Filled(tail))), Words(Zeros(56) + length))
  {
    hide Compress, Words, Padded, LengthBytes, Filled, HashBlocks, BitLength;
    PaddedTwoBlocks(done, tail);
    HashBlocksStep(done, Filled(tail));
    HashBlocksStep(done + Filled(tail), Zeros(56) + length);
  }

  /** Storing the two length words over a block is hashing the length bytes in its last eight places. */
  lemma LengthStored(bytes: seq<bv8>, m: seq<bv32>, bits: bv64)
    requires |bytes| == 56 && |m| == 16
    requires forall k :: 0 <= k < 14 ==>
      m[k] == Word(bytes[4 * k], bytes[4 * k + 1], bytes[4 * k + 2], bytes[4 * k + 3])
    requires m[14] == (bits >> 32) as bv32 && m[15] == (bits & 0xffff_ffff) as bv32
    ensures m == Words(bytes + LengthBytes(bits))
  {
    LengthWords(bits);
    hide Word, LengthBytes;
    var all := bytes + LengthBytes(bits);
    forall k | 0 <= k < 16
      ensures m[k] == Words(all)[k]
    {
    }
  }

  lemma ZeroWord()
    ensures Word(0, 0, 0, 0) == 0
  {}

  method BufferToBlock(buffer: seq<bv8>, block: array<bv32>)
    requires |buffer| == BLOCK_BYTES && block.Length == 16
    modifies block
    ensures block[..] == Words(buffer)
  {
    hide Word;
    for i := 0 to 16
      invariant forall k :: 0 <= k < i ==> block[k] == Words(buffer)[k]
    {
      block[i] := Word(buffer[4 * i], buffer[4 * i + 1], buffer[4 * i + 2], buffer[4 * i + 3]);
    }
  }

  // ------------------------------------------------------------------ the object

  class SHA1 {
    const digest: array<bv32>
    var buffer: seq<bv8>
    var transforms: nat
    /** The bytes fed since the last reset. */
    ghost var message: seq<bv8>

    ghost function Done(): seq<bv8>
      requires |buffer| <= |message|
      reads this
    {
      message[..|message| - |buffer|]
    }

    ghost predicate Valid()
      reads this, digest
    {
      |buffer| < BLOCK_BYTES && Consistent()
    }

    ghost predicate Consistent()
      reads this, digest
    {
      && digest.Length == 5
      && |buffer| <= BLOCK_BYTES
      && |buffer| <= |message|
      && |Done()| % BLOCK_BYTES == 0
      && message == Done() + buffer
      && StateOf(digest[..]) == HashBlocks(Done())
      && transforms == |Done()| / BLOCK_BYTES % TWO_TO_THE_64
    }

    constructor ()
      ensures Valid() && fresh(digest) && message == []
    {
      digest := new bv32[][0x67452301, 0xefcdab89, 0x98badcfe, 0x10325476, 0xc3d2e1f0];
      buffer := [];
      transforms := 0;
      message := [];
    }

    method Reset()
      requires digest.Length == 5
      modifies this, digest
      ensures Valid() && message == [] && buffer == [] && transforms == 0 && StateOf(digest[..]) == Initial
    {
      digest[0], digest[1], digest[2], digest[3], digest[4] := 0x67452301, 0xefcdab89, 0x98badcfe, 0x10325476,
        0xc3d2e1f0;
      buffer := [];
      transforms := 0;
      message := [];
    }

    /** A full buffer goes into the digest. */
    method Absorb()
      requires Consistent() && |buffer| == BLOCK_BYTES
      modifies this, digest
      ensures Valid() && message == old(message) && buffer == []
    {
      hide HashBlocks, Compress, Words, StateOf;
      ghost var done := Done();
      OneMoreBlock(|done|);
      var block := new bv32[16];
      BufferToBlock(buffer, block);
      HashBlocksStep(done, buffer);
      Transform(digest, block);
      transforms := (transforms + 1) % TWO_TO_THE_64;
      buffer := [];
      assert Done() == message == done + old(buffer);
    }

    /** Bytes that fit go into the buffer. */
    method Append(piece: seq<bv8>)
      requires Valid() && |buffer| + |piece| <= BLOCK_BYTES
      modifies this
      ensures Consistent() && message == old(message) + piece && buffer == old(buffer) + piece
    {
      hide HashBlocks, StateOf;
      ghost var done := Done();
      buffer := buffer + piece;
      message := message + piece;
      assert message == done + buffer;
      assert Done() == done;
    }

    /** The read loop over a stream that holds s. */
    method Update(s: seq<bv8>)
      requires Valid()
      modifies this, digest
      ensures Valid() && message == old(message) + s
    {
      hide Consistent;
      var pos := 0;
      while true
        invariant Valid() && pos <= |s|
        invariant message == old(message) + s[..pos]
        decreases |s| - pos, |buffer|
      {
        var count := if BLOCK_BYTES - |buffer| <= |s| - pos then BLOCK_BYTES - |buffer| else |s| - pos;
        Append(s[pos..pos + count]);
        assert s[..pos] + s[pos..pos + count] == s[..pos + count];
        pos := pos + count;
        if |buffer| != BLOCK_BYTES {
          assert s[..pos] == s;
          return;
        }
        Absorb();
      }
    }

    method CountBits() returns (bits: bv64)
      requires Valid()
      ensures bits == BitLength(|message|)
    {
      hide HashBlocks, StateOf;
      BitsCounted(|message|, |Done()| / BLOCK_BYTES, |buffer|);
      bits := ((transforms * BLOCK_BYTES + |buffer|) * 8 % TWO_TO_THE_64) as bv64;
    }

    /** The digest as lower-case hexadecimal, eight digits a word. */
    method HexDigest() returns (text: string)
      requires digest.Length == 5
      ensures text == Hex(StateOf(digest[..]))
    {
      hide HexWord;
      text := "";
      for i := 0 to 5
        invariant i == 0 ==> text == ""
        invariant i == 1 ==> text == HexWord(digest[0])
        invariant i == 2 ==> text == HexWord(digest[0]) + HexWord(digest[1])
        invariant i == 3 ==> text == HexWord(digest[0]) + HexWord(digest[1]) + HexWord(digest[2])
        invariant i == 4 ==> text == HexWord(digest[0]) + HexWord(digest[1]) + HexWord(digest[2]) + HexWord(digest[3])
        invariant i == 5 ==> text == Hex(StateOf(digest[..]))
      {
        text := text + HexWord(digest[i]);
      }
    }

    /** The part of final from the first transform to the last. */
    method Finish(block: array<bv32>, bits: bv64, size: nat, ghost done: seq<bv8>, ghost tail: seq<bv8>)
      requires digest.Length == 5 && block.Length == 16 && block != digest
      requires |done| % BLOCK_BYTES == 0 && |tail| < BLOCK_BYTES && size == |tail| + 1
      requires StateOf(digest[..]) == HashBlocks(done) && block[..] == Words(Filled(tail))
      requires bits == BitLength(|done| + |tail|)
      modifies digest, block, `transforms
      ensures StateOf(digest[..]) == HashBlocks(Padded(done + tail))
    {
      hide HashBlocks, Compress, Word, StateOf, BitLength, LengthBytes, Filled, Padded;
      ghost var bytes := Filled(tail)[..56];
      ghost var words;
      if size > BLOCK_BYTES - 8 {
        HashOfLongTail(done, tail, LengthBytes(bits));
        Transform(digest, block);
        transforms := (transforms + 1) % TWO_TO_THE_64;
        words := digest[..];
        for i := 0 to 14
          modifies block
          invariant forall k :: 0 <= k < i ==> block[k] == 0
        {
          block[i] := 0;
        }
        bytes := Zeros(56);
        ZeroWord();
      } else {
        HashOfShortTail(done, tail, LengthBytes(bits));
        words := digest[..];
      }
      block[15] := (bits & 0xffff_ffff) as bv32;
      block[14] := (bits >> 32) as bv32;
      assert digest[..] == words;
      LengthStored(bytes, block[..], bits);
      Transform(digest, block);
      transforms := (transforms + 1) % TWO_TO_THE_64;
    }

    /** The length, the marker, the zero bytes and the last one or two compressions; then the object starts over. */
    method Final() returns (text: string)
      requires Valid()
      modifies this, digest
      ensures text == Hash(old(message))
      ensures Valid() && message == [] && buffer == [] && transforms == 0 && StateOf(digest[..]) == Initial
    {
      hide HashBlocks, Compress, Words, Word, StateOf, BitLength, LengthBytes;
      ghost var done, tail := Done(), buffer;
      var bits := CountBits();
      buffer := buffer + [0x80];
      var size := |buffer|;
      while |buffer| < BLOCK_BYTES
        invariant size <= |buffer| <= BLOCK_BYTES
        invariant buffer == tail + [0x80] + Zeros(|buffer| - size)
        modifies `buffer
      {
        buffer := buffer + [0];
      }
      assert buffer == Filled(tail) && digest[..] == old(digest[..]);
      var block := new bv32[16];
      BufferToBlock(buffer, block);
      assert digest[..] == old(digest[..]);
      Finish(block, bits, size, done, tail);
      text := HexDigest();
      Reset();
    }
  }

  function Joined(pieces: seq<seq<bv8>>): seq<bv8> {
    if pieces == [] then [] else Joined(pieces[..|pieces| - 1]) + pieces[|pieces| - 1]
  }

  /** Any split of a message into update calls gives the hash of the whole message. */
  method HashInPieces(pieces: seq<seq<bv8>>) returns (text: string)
    ensures text == Hash(Joined(pieces))
  {
    hide Hash;
    var checksum := new SHA1();
    for i := 0 to |pieces|
      invariant checksum.Valid() && fresh(checksum) && fresh(checksum.digest)
      invariant checksum.message == Joined(pieces[..i])
    {
      checksum.Update(pieces[i]);
      assert pieces[..i + 1][..i] == pieces[..i];
    }
    assert pieces[..|pieces|] == pieces;
    text := checksum.Final();
  }

  lemma SameEnds(x: string, y: string, x': string, y': string)
    requires |y| == |y'| && x + y == x' + y'
    ensures x == x' && y == y'
  {
    assert |x| == |x'|;
    assert x == (x + y)[..|x|] && y == (x + y)[|x|..];
    assert x' == (x' + y')[..|x|] && y' == (x' + y')[|x|..];
  }

  /** The text determines the digest. */
  lemma HexIsFaithful(s: State, t: State)
    requires Hex(s) == Hex(t)
    ensures s == t
  {
    hide HexWord;
    var x, y := HexWord(s.a) + HexWord(s.b), HexWord(t.a) + HexWord(t.b);
    SameEnds(x + HexWord(s.c) + HexWord(s.d), HexWord(s.e), y + HexWord(t.c) + HexWord(t.d), HexWord(t.e));
    SameEnds(x + HexWord(s.c), HexWord(s.d), y + HexWord(t.c), HexWord(t.d));
    SameEnds(x, HexWord(s.c), y, HexWord(t.c));
    SameEnds(HexWord(s.a), HexWord(s.b), HexWord(t.a), HexWord(t.b));
    HexWordIsFaithful(s.a, t.a);
    HexWordIsFaithful(s.b, t.b);
    HexWordIsFaithful(s.c, t.c);
    HexWordIsFaithful(s.d, t.d);
    HexWordIsFaithful(s.e, t.e);
  }

  lemma HexDigitIsFaithful(m: bv4, n: bv4)
    requires HexDigit(m) == HexDigit(n)
    ensures m == n
  {}

  lemma HexWordIsFaithful(v: bv32, w: bv32)
    requires HexWord(v) == HexWord(w)
    ensures v == w
  {
    hide HexDigit;
    var x, y := HexWord(v), HexWord(w);
    assert x[0] == y[0] && x[1] == y[1] && x[2] == y[2] && x[3] == y[3] && x[4] == y[4] && x[5] == y[5]
      && x[6] == y[6] && x[7] == y[7];
    HexDigitIsFaithful((v >> 28) as bv4, (w >> 28) as bv4);
    HexDigitIsFaithful(((v >> 24) & 15) as bv4, ((w >> 24) & 15) as bv4);
    HexDigitIsFaithful(((v >> 20) & 15) as bv4, ((w >> 20) & 15) as bv4);
    HexDigitIsFaithful(((v >> 16) & 15) as bv4, ((w >> 16) & 15) as bv4);
    HexDigitIsFaithful(((v >> 12) & 15) as bv4, ((w >> 12) & 15) as bv4);
    HexDigitIsFaithful(((v >> 8) & 15) as bv4, ((w >> 8) & 15) as bv4);
    HexDigitIsFaithful(((v >> 4) & 15) as bv4, ((w >> 4) & 15) as bv4);
    HexDigitIsFaithful((v & 15) as bv4, (w & 15) as bv4);
    NibblesDecide(v, w);
  }

  lemma NibblesDecide(v: bv32, w: bv32)
    requires (v >> 28) as bv4 == (w >> 28) as bv4 && ((v >> 24) & 15) as bv4 == ((w >> 24) & 15) as bv4
    requires ((v >> 20) & 15) as bv4 == ((w >> 20) & 15) as bv4 && ((v >> 16) & 15) as bv4 == ((w >> 16) & 15) as bv4
    requires ((v >> 12) & 15) as bv4 == ((w >> 12) & 15) as bv4 && ((v >> 8) & 15) as bv4 == ((w >> 8) & 15) as bv4
    requires ((v >> 4) & 15) as bv4 == ((w >> 4) & 15) as bv4 && (v & 15) as bv4 == (w & 15) as bv4
    ensures v == w
  {}

  /** No shorter run of zero bytes leaves room for the length at the end of a block. */
  lemma PaddingIsShortest(message: seq<bv8>, zeros: nat)
    requires (|message| + 1 + zeros + 8) % BLOCK_BYTES == 0
    ensures |Padded(message)| <= |message| + 1 + zeros + 8
  {
    var n := |message|;
    var a, b, k := (n + 1 + zeros + 8) / BLOCK_BYTES, (55 - n) / BLOCK_BYTES, (55 - n) % BLOCK_BYTES;
    assert zeros == BLOCK_BYTES * (a + b - 1) + k;
  }
}
