/** The digest of "abc", the first example that FIPS 180 publishes, from the definitions of Sha1. */
module Sha1Example {
  import opened Sha1

  const ABC: seq<bv8> := [0x61, 0x62, 0x63]

  /** The one block that it is padded to. */
  predicate IsBlock(m: seq<bv32>) {
    |m| == 16 && m[0] == 0x61626380 && m[15] == 0x18 && forall i :: 1 <= i < 15 ==> m[i] == 0
  }

  // -------------------------------------------------------------- the padded block

  lemma WordsOfMessage()
    ensures Padded(ABC) != [] && |Padded(ABC)| == BLOCK_BYTES && IsBlock(Words(Padded(ABC)))
  {
    hide Word, LengthBytes, BitLength;
    var p := Padded(ABC);
    assert (55 - |ABC|) % BLOCK_BYTES == 52;
    LengthOfMessage(3, 24);
    assert p == ABC + [0x80] + Zeros(52) + [0, 0, 0, 0, 0, 0, 0, 24];
    FirstWord();
    ZeroWord();
  }

  lemma LengthOfMessage(n: nat, bits: bv64)
    requires n == 3 && bits == 24
    ensures LengthBytes(BitLength(n)) == [0, 0, 0, 0, 0, 0, 0, 24]
  {
    assert 8 * n % TWO_TO_THE_64 == 24;
    assert BitLength(n) == bits;
  }

  lemma FirstWord()
    ensures Word(0x61, 0x62, 0x63, 0x80) == 0x61626380 && Word(0, 0, 0, 24) == 0x18
  {}

  // --------------------------------------------------------- the schedule and the rounds

  lemma FirstWords(m: seq<bv32>)
    requires IsBlock(m)
    ensures Schedule(m, 0) == 0x61626380 && Schedule(m, 15) == 0x18
    ensures forall t {:trigger Schedule(m, t)} :: 1 <= t < 15 ==> Schedule(m, t) == 0
  {}

  /** One step, which makes the first working variable a. */
  lemma Step(m: seq<bv32>, t: nat, s: State, a: bv32) returns (next: State)
    requires IsBlock(m) && s == Rounds(Initial, m, t)
    requires Sum(Rol(s.a, 5), F(t, s.b, s.c, s.d), s.e, K(t), Schedule(m, t)) == a
    ensures next == Rounds(Initial, m, t + 1) == State(a, s.a, Rol(s.b, 30), s.c, s.d)
  {
    hide Rol, F, K, Sum, Schedule;
    next := State(a, s.a, Rol(s.b, 30), s.c, s.d);
  }

  lemma Words16To23(m: seq<bv32>)
    requires IsBlock(m)
    ensures Schedule(m, 16) == 0xc2c4c700 && Schedule(m, 17) == 0x00000000
    ensures Schedule(m, 18) == 0x00000030 && Schedule(m, 19) == 0x85898e01
    ensures Schedule(m, 20) == 0x00000000 && Schedule(m, 21) == 0x00000060
    ensures Schedule(m, 22) == 0x0b131c03 && Schedule(m, 23) == 0x00000030
  {
    hide Schedule;
    FirstWords(m);
    ScheduleStep(m, 16); ScheduleStep(m, 17); ScheduleStep(m, 18); ScheduleStep(m, 19);
    ScheduleStep(m, 20); ScheduleStep(m, 21); ScheduleStep(m, 22); ScheduleStep(m, 23);
  }

  lemma Words24To31(m: seq<bv32>)
    requires IsBlock(m)
    ensures Schedule(m, 24) == 0x85898ec1 && Schedule(m, 25) == 0x16263806
    ensures Schedule(m, 26) == 0x00000000 && Schedule(m, 27) == 0x00000180
    ensures Schedule(m, 28) == 0x2c4c700c && Schedule(m, 29) == 0x000000f0
    ensures Schedule(m, 30) == 0x93afb507 && Schedule(m, 31) == 0x5898e048
  {
    hide Schedule;
    FirstWords(m);
    Words16To23(m);
    ScheduleStep(m, 24); ScheduleStep(m, 25); ScheduleStep(m, 26); ScheduleStep(m, 27);
    ScheduleStep(m, 28); ScheduleStep(m, 29); ScheduleStep(m, 30); ScheduleStep(m, 31);
  }

  lemma Words32To39(m: seq<bv32>)
    requires IsBlock(m)
    ensures Schedule(m, 32) == 0x8e9a9202 && Schedule(m, 33) == 0x00000600
    ensures Schedule(m, 34) == 0xb131c0f0 && Schedule(m, 35) == 0x16263bc6
    ensures Schedule(m, 36) == 0x4ebed41e && Schedule(m, 37) == 0x626380a1
    ensures Schedule(m, 38) == 0x16263806 && Schedule(m, 39) == 0x000018c0
  {
    hide Schedule;
    Words16To23(m);
    Words24To31(m);
    ScheduleStep(m, 32); ScheduleStep(m, 33); ScheduleStep(m, 34); ScheduleStep(m, 35);
    ScheduleStep(m, 36); ScheduleStep(m, 37); ScheduleStep(m, 38); ScheduleStep(m, 39);
  }

  lemma Words40To47(m: seq<bv32>)
    requires IsBlock(m)
    ensures Schedule(m, 40) == 0xd2e138c4 && Schedule(m, 41) == 0x00000f00
    ensures Schedule(m, 42) == 0x3afb5079 && Schedule(m, 43) == 0x898e04e5
    ensures Schedule(m, 44) == 0xe2ba3c2b && Schedule(m, 45) == 0x000060c0
    ensures Schedule(m, 46) == 0x053a37cd && Schedule(m, 47) == 0x74458547
  {
    hide Schedule;
    Words24To31(m);
    Words32To39(m);
    ScheduleStep(m, 40); ScheduleStep(m, 41); ScheduleStep(m, 42); ScheduleStep(m, 43);
    ScheduleStep(m, 44); ScheduleStep(m, 45); ScheduleStep(m, 46); ScheduleStep(m, 47);
  }

  lemma Words48To55(m: seq<bv32>)
    requires IsBlock(m)
    ensures Schedule(m, 48) == 0xda9415ed && Schedule(m, 49) == 0x26380a16
    ensures Schedule(m, 50) == 0x626383a1 && Schedule(m, 51) == 0x4ebf54de
    ensures Schedule(m, 52) == 0x3835b44b && Schedule(m, 53) == 0x0000f600
    ensures Schedule(m, 54) == 0x1e84c7a3 && Schedule(m, 55) == 0x98e04d98
  {
    hide Schedule;
    Words32To39(m);
    Words40To47(m);
    ScheduleStep(m, 48); ScheduleStep(m, 49); ScheduleStep(m, 50); ScheduleStep(m, 51);
    ScheduleStep(m, 52); ScheduleStep(m, 53); ScheduleStep(m, 54); ScheduleStep(m, 55);
  }

  lemma Words56To63(m: seq<bv32>)
    requires IsBlock(m)
    ensures Schedule(m, 56) == 0x651d16a0 && Schedule(m, 57) == 0x62658ca1
    ensures Schedule(m, 58) == 0x458544d6 && Schedule(m, 59) == 0x44584cb7
    ensures Schedule(m, 60) == 0x7ba06619 && Schedule(m, 61) == 0x6380aea2
    ensures Schedule(m, 62) == 0x0ae55269 && Schedule(m, 63) == 0x627b49a1
  {
    hide Schedule;
    Words40To47(m);
    Words48To55(m);
    ScheduleStep(m, 56); ScheduleStep(m, 57); ScheduleStep(m, 58); ScheduleStep(m, 59);
    ScheduleStep(m, 60); ScheduleStep(m, 61); ScheduleStep(m, 62); ScheduleStep(m, 63);
  }

  lemma Words64To71(m: seq<bv32>)
    requires IsBlock(m)
    ensures Schedule(m, 64) == 0x7cd45c9d && Schedule(m, 65) == 0x000f0000
    ensures Schedule(m, 66) == 0xfb50753a && Schedule(m, 67) == 0xec6765e8
    ensures Schedule(m, 68) == 0xba3c2be2 && Schedule(m, 69) == 0x0060c000
    ensures Schedule(m, 70) == 0x3a37cd05 && Schedule(m, 71) == 0x458546f4
  {
    hide Schedule;
    Words48To55(m);
    Words56To63(m);
    ScheduleStep(m, 64); ScheduleStep(m, 65); ScheduleStep(m, 66); ScheduleStep(m, 67);
    ScheduleStep(m, 68); ScheduleStep(m, 69); ScheduleStep(m, 70); ScheduleStep(m, 71);
  }

  lemma Words72To79(m: seq<bv32>)
    requires IsBlock(m)
    ensures Schedule(m, 72) == 0xb8599dd6 && Schedule(m, 73) == 0x380a1a26
    ensures Schedule(m, 74) == 0x01e02203 && Schedule(m, 75) == 0xe7cc3456
    ensures Schedule(m, 76) == 0xe6e60b69 && Schedule(m, 77) == 0x00f60a00
    ensures Schedule(m, 78) == 0x5795ef4f && Schedule(m, 79) == 0x822e0879
  {
    hide Schedule;
    Words56To63(m);
    Words64To71(m);
    ScheduleStep(m, 72); ScheduleStep(m, 73); ScheduleStep(m, 74); ScheduleStep(m, 75);
    ScheduleStep(m, 76); ScheduleStep(m, 77); ScheduleStep(m, 78); ScheduleStep(m, 79);
  }

  lemma Rounds0To7(m: seq<bv32>)
    requires IsBlock(m)
    ensures Rounds(Initial, m, 8) == State(0x9e8c07d4, 0x993e30c1, 0x0ff1f290, 0xb3f52677, 0xf3763846)
  {
    hide Rounds, Schedule;
    RoundsStart(Initial, m);
    FirstWords(m);
    var s := Rounds(Initial, m, 0);
    s := Step(m, 0, s, 0x0116fc33); s := Step(m, 1, s, 0x8990536d);
    s := Step(m, 2, s, 0xa1390f08); s := Step(m, 3, s, 0xcdd8e11b);
    s := Step(m, 4, s, 0xcfd499de); s := Step(m, 5, s, 0x3fc7ca40);
    s := Step(m, 6, s, 0x993e30c1); s := Step(m, 7, s, 0x9e8c07d4);
  }

  lemma Rounds8To15(m: seq<bv32>)
    requires IsBlock(m)
    ensures Rounds(Initial, m, 16) == State(0x20bdd62f, 0x196bee77, 0x644a3da5, 0x1181ed99, 0x18c623f9)
  {
    hide Rounds, Schedule;
    Rounds0To7(m);
    FirstWords(m);
    var s := Rounds(Initial, m, 8);
    s := Step(m, 8, s, 0x4b6ae328); s := Step(m, 9, s, 0x8351f929);
    s := Step(m, 10, s, 0xfbda9e89); s := Step(m, 11, s, 0x63188fe4);
    s := Step(m, 12, s, 0x4607b664); s := Step(m, 13, s, 0x9128f695);
    s := Step(m, 14, s, 0x196bee77); s := Step(m, 15, s, 0x20bdd62f);
  }

  lemma Rounds16To23(m: seq<bv32>)
    requires IsBlock(m)
    ensures Rounds(Initial, m, 24) == State(0xd541f12d, 0x21283486, 0x0ce88eff, 0x868dec32, 0x7f67875f)
  {
    hide Rounds, Schedule;
    Rounds8To15(m);
    Words16To23(m);
    var s := Rounds(Initial, m, 16);
    s := Step(m, 16, s, 0x4e925823); s := Step(m, 17, s, 0x82aa6728);
    s := Step(m, 18, s, 0xdc64901d); s := Step(m, 19, s, 0xfd9e1d7d);
    s := Step(m, 20, s, 0x1a37b0ca); s := Step(m, 21, s, 0x33a23bfc);
    s := Step(m, 22, s, 0x21283486); s := Step(m, 23, s, 0xd541f12d);
  }

  lemma Rounds24To31(m: seq<bv32>)
    requires IsBlock(m)
    ensures Rounds(Initial, m, 32) == State(0x3b845d33, 0x1267b407, 0x717eebd7, 0xa0dc2d4b, 0xd2aa1365)
  {
    hide Rounds, Schedule;
    Rounds16To23(m);
    Words24To31(m);
    var s := Rounds(Initial, m, 24);
    s := Step(m, 24, s, 0xc7567dc6); s := Step(m, 25, s, 0x48413ba4);
    s := Step(m, 26, s, 0xbe35fbd5); s := Step(m, 27, s, 0x4aa84d97);
    s := Step(m, 28, s, 0x8370b52e); s := Step(m, 29, s, 0xc5fbaf5d);
    s := Step(m, 30, s, 0x1267b407); s := Step(m, 31, s, 0x3b845d33);
  }

  lemma Rounds32To39(m: seq<bv32>)
    requires IsBlock(m)
    ensures Rounds(Initial, m, 40) == State(0x32de1cba, 0x4c986405, 0xf718e5cf, 0x03d447f6, 0xf72eec32)
  {
    hide Rounds, Schedule;
    Rounds24To31(m);
    Words32To39(m);
    var s := Rounds(Initial, m, 32);
    s := Step(m, 32, s, 0x046faa0a); s := Step(m, 33, s, 0x2c0ebc11);
    s := Step(m, 34, s, 0x21796ad4); s := Step(m, 35, s, 0xdcbbb0cb);
    s := Step(m, 36, s, 0x0f511fd8); s := Step(m, 37, s, 0xdc63973f);
    s := Step(m, 38, s, 0x4c986405); s := Step(m, 39, s, 0x32de1cba);
  }

  lemma Rounds40To47(m: seq<bv32>)
    requires IsBlock(m)
    ensures Rounds(Initial, m, 48) == State(0xbead02ca, 0xa01b846c, 0x8714787c, 0x503ca382, 0xfb86c6ab)
  {
    hide Rounds, Schedule;
    Rounds32To39(m);
    Words40To47(m);
    var s := Rounds(Initial, m, 40);
    s := Step(m, 40, s, 0xfc87dedf); s := Step(m, 41, s, 0x970a0d5c);
    s := Step(m, 42, s, 0x7f193dc5); s := Step(m, 43, s, 0xee1b1aaf);
    s := Step(m, 44, s, 0x40f28e09); s := Step(m, 45, s, 0x1c51e1f2);
    s := Step(m, 46, s, 0xa01b846c); s := Step(m, 47, s, 0xbead02ca);
  }

  lemma Rounds48To55(m: seq<bv32>)
    requires IsBlock(m)
    ensures Rounds(Initial, m, 56) == State(0x5e6456af, 0x7b71f76d, 0x09fa7c76, 0x792410db, 0x8e11eb59)
  {
    hide Rounds, Schedule;
    Rounds40To47(m);
    Words48To55(m);
    var s := Rounds(Initial, m, 48);
    s := Step(m, 48, s, 0xbaf39337); s := Step(m, 49, s, 0x120731c5);
    s := Step(m, 50, s, 0x641db2ce); s := Step(m, 51, s, 0x3847ad66);
    s := Step(m, 52, s, 0xe490436d); s := Step(m, 53, s, 0x27e9f1d8);
    s := Step(m, 54, s, 0x7b71f76d); s := Step(m, 55, s, 0x5e6456af);
  }

  lemma Rounds56To63(m: seq<bv32>)
    requires IsBlock(m)
    ensures Rounds(Initial, m, 64) == State(0x6b61c9e1, 0xb66c020b, 0x9523272c, 0xf5d5b051, 0x8fd4b796)
  {
    hide Rounds, Schedule;
    Rounds48To55(m);
    Words56To63(m);
    var s := Rounds(Initial, m, 56);
    s := Step(m, 56, s, 0xc846093f); s := Step(m, 57, s, 0xd262ff50);
    s := Step(m, 58, s, 0x09d785fd); s := Step(m, 59, s, 0x3f52de5a);
    s := Step(m, 60, s, 0xd756c147); s := Step(m, 61, s, 0x548c9cb2);
    s := Step(m, 62, s, 0xb66c020b); s := Step(m, 63, s, 0x6b61c9e1);
  }

  lemma Rounds64To71(m: seq<bv32>)
    requires IsBlock(m)
    ensures Rounds(Initial, m, 72) == State(0x39859de7, 0xc199f8c7, 0x8fc96230, 0x125c24f0, 0xde37534a)
  {
    hide Rounds, Schedule;
    Rounds56To63(m);
    Words64To71(m);
    var s := Rounds(Initial, m, 64);
    s := Step(m, 64, s, 0x19dfa7ac); s := Step(m, 65, s, 0x101655f9);
    s := Step(m, 66, s, 0x0c3df2b4); s := Step(m, 67, s, 0x78dd4d2b);
    s := Step(m, 68, s, 0x497093c0); s := Step(m, 69, s, 0x3f2588c2);
    s := Step(m, 70, s, 0xc199f8c7); s := Step(m, 71, s, 0x39859de7);
  }

  lemma Rounds72To79(m: seq<bv32>)
    requires IsBlock(m)
    ensures Rounds(Initial, m, 80) == State(0x42541b35, 0x5738d5e1, 0x21834873, 0x681e6df6, 0xd8fdf6ad)
  {
    hide Rounds, Schedule;
    Rounds64To71(m);
    Words72To79(m);
    var s := Rounds(Initial, m, 72);
    s := Step(m, 72, s, 0xedb42de4); s := Step(m, 73, s, 0x11793f6f);
    s := Step(m, 74, s, 0x5ee76897); s := Step(m, 75, s, 0x63f7dab7);
    s := Step(m, 76, s, 0xa079b7d9); s := Step(m, 77, s, 0x860d21cc);
    s := Step(m, 78, s, 0x5738d5e1); s := Step(m, 79, s, 0x42541b35);
  }

  lemma DigestIs(m: seq<bv32>)
    requires IsBlock(m)
    ensures Compress(Initial, m) == State(0xa9993e36, 0x4706816a, 0xba3e2571, 0x7850c26c, 0x9cd0d89d)
  {
    hide Rounds;
    Rounds72To79(m);
  }

  lemma HexIs()
    ensures HexWord(0xa9993e36) == "a9993e36"
    ensures HexWord(0x4706816a) == "4706816a"
    ensures HexWord(0xba3e2571) == "ba3e2571"
    ensures HexWord(0x7850c26c) == "7850c26c"
    ensures HexWord(0x9cd0d89d) == "9cd0d89d"
  {}

  /** The published digest. */
  lemma HashOfAbc()
    ensures Hash(ABC) == "a9993e364706816aba3e25717850c26c9cd0d89d"
  {
    hide Compress, Words, HexWord, Padded, HashBlocks;
    WordsOfMessage();
    DigestIs(Words(Padded(ABC)));
    HexIs();
    HashBlocksStep([], Padded(ABC));
    HashOfNothing();
    assert [] + Padded(ABC) == Padded(ABC);
  }

  lemma HashOfNothing()
    ensures HashBlocks([]) == Initial
  {}
}
