/** Which fork replaces main: more luck wins, equal luck is decided by the hash of the first fork block. */
module ForkChoice {
  import opened Ledger
  import opened ForkView
  import opened Queries
  import opened Verification

  /** The byte order SQLite uses to compare two TEXT values. */
  predicate Before(a: string, b: string) {
    b != [] && (a == [] || a[0] < b[0] || (a[0] == b[0] && Before(a[1..], b[1..])))
  }

  lemma BeforeTransitive(a: string, b: string, c: string)
    requires Before(a, b) && Before(b, c)
    ensures Before(a, c)
  {}

  lemma BeforeIrreflexive(a: string)
    ensures !Before(a, a)
  {}

  function LuckBetween(blocks: map<int, Header>, lo: int, hi: int): real
    decreases hi - lo
  {
    if lo > hi then 0.0
    else (if lo in blocks then blocks[lo].ln else 0.0) + LuckBetween(blocks, lo + 1, hi)
  }

  function LastIndex(t: Tables): int {
    if t.blocks.Keys == {} then 0 else MaxOf(t.blocks.Keys)
  }

  /** The total luck of a fork as the verification loop adds it up. */
  function ForkLuck(fork: Tables): real
    requires fork.blocks.Keys != {}
  {
    LuckBetween(fork.blocks, First(fork), MaxOf(fork.blocks.Keys))
  }

  /** The start index the loop remembers: it overwrites the variable as long as it is 0. */
  function StartIndex(fork: Tables): int
    requires fork.blocks.Keys != {}
  {
    if First(fork) == 0 && fork.blocks.Keys != {0} then MinOf(fork.blocks.Keys - {0}) else First(fork)
  }

  predicate IsLuckierChain(main: Tables, view: View, start: int, end: int, ln: real) {
    var sum := LuckBetween(main.blocks, start, end);
    if sum == ln && view.MainView? then false
    else if sum == ln && start in main.blocks && start in view.fork.blocks then
      Before(main.blocks[start].hash, view.fork.blocks[start].hash)
    else sum < ln
  }

  predicate AllBlocksVerify(env: Env, main: Tables, fork: Tables)
    requires fork.blocks.Keys != {}
  {
    forall i :: i in fork.blocks.Keys ==> VerifyBlock(env, main, ForkView(fork), LoadBlock(fork, i))
  }

  /** checkTempChain: -2 for an invalid fork, -1 for a valid one that is not luckier, 0 to adopt it. */
  function CheckTempChain(env: Env, main: Tables, fork: Tables): int
    requires fork.blocks.Keys != {}
  {
    if !AllBlocksVerify(env, main, fork) then -2
    else if IsLuckierChain(main, ForkView(fork), StartIndex(fork), LastIndex(main), ForkLuck(fork)) then 0
    else -1
  }

  // ------------------------------------------------------------- total luck

  /** The luck of all rows of a table, in whatever order they are added. */
  ghost function Luck(blocks: map<int, Header>): real
    decreases |blocks|
  {
    if blocks.Keys == {} then 0.0
    else var k := MinOf(blocks.Keys); blocks[k].ln + Luck(blocks - {k})
  }

  lemma LuckAny(blocks: map<int, Header>, k: int)
    requires k in blocks
    ensures Luck(blocks) == blocks[k].ln + Luck(blocks - {k})
    decreases |blocks|
  {
    var m := MinOf(blocks.Keys);
    if k != m {
      LuckAny(blocks - {m}, k);
      LuckAny(blocks - {k}, m);
      assert blocks - {m} - {k} == blocks - {k} - {m};
    }
  }

  function Missing(a: map<int, Header>, b: map<int, Header>): map<int, Header> {
    map i | i in b && i !in a :: b[i]
  }

  lemma MapSplit(a: map<int, Header>, b: map<int, Header>)
    requires forall i :: i in a ==> i in b && a[i] == b[i]
    ensures b == a + Missing(a, b)
  {
    var c := a + Missing(a, b);
    assert forall i :: i in c <==> i in b;
    assert forall i :: i in b ==> c[i] == b[i];
  }

  lemma MapRemoveLeft<K, V>(a: map<K, V>, b: map<K, V>, k: K)
    requires a.Keys !! b.Keys && k in a
    ensures (a + b) - {k} == (a - {k}) + b
  {
    assert k !in b;
    var c, d := (a + b) - {k}, (a - {k}) + b;
    assert c.Keys == d.Keys;
  }

  lemma LuckEmpty(blocks: map<int, Header>)
    requires blocks.Keys == {}
    ensures Luck(blocks) == 0.0
  {}

  lemma {:induction false} LuckUnion(a: map<int, Header>, b: map<int, Header>)
    requires a.Keys !! b.Keys
    ensures Luck(a + b) == Luck(a) + Luck(b)
    decreases |a|
  {
    hide Luck;
    if a.Keys == {} {
      LuckEmpty(a);
      assert a + b == b;
    } else {
      var k := Pick(a.Keys);
      var rest := a - {k};
      LuckAny(a, k);
      LuckAny(a + b, k);
      assert k !in b.Keys;
      assert (a + b)[k] == a[k];
      MapRemoveLeft(a, b, k);
      LuckUnion(rest, b);
    }
  }

  ghost predicate Nonnegative(blocks: map<int, Header>) {
    forall i :: i in blocks ==> blocks[i].ln >= 0.0
  }

  lemma LuckNonnegative(blocks: map<int, Header>)
    requires Nonnegative(blocks)
    ensures Luck(blocks) >= 0.0
    decreases |blocks|
  {
    if blocks.Keys != {} {
      LuckNonnegative(blocks - {MinOf(blocks.Keys)});
    }
  }

  ghost function Within(blocks: map<int, Header>, lo: int, hi: int): map<int, Header> {
    map i | i in blocks && lo <= i <= hi :: blocks[i]
  }

  lemma {:induction false} BetweenIsLuck(blocks: map<int, Header>, lo: int, hi: int)
    ensures LuckBetween(blocks, lo, hi) == Luck(Within(blocks, lo, hi))
    decreases hi - lo
  {
    var w := Within(blocks, lo, hi);
    if lo <= hi {
      BetweenIsLuck(blocks, lo + 1, hi);
      if lo in blocks {
        LuckAny(w, lo);
        assert w - {lo} == Within(blocks, lo + 1, hi);
      } else {
        assert w == Within(blocks, lo + 1, hi);
      }
    } else {
      assert w.Keys == {};
    }
  }

  lemma LuckSubset(a: map<int, Header>, b: map<int, Header>)
    requires Nonnegative(b) && forall i :: i in a ==> i in b && a[i] == b[i]
    ensures Luck(a) <= Luck(b)
  {
    hide Luck;
    var rest := Missing(a, b);
    MapSplit(a, b);
    LuckUnion(a, rest);
    LuckNonnegative(rest);
  }

  // ------------------------------------------------ the order adoption climbs

  /** The hash sequences agree below some index, and at that index the second has the larger hash. */
  ghost predicate HashesBefore(a: map<int, Header>, b: map<int, Header>) {
    exists k :: DiffersAt(a, b, k) && Before(a[k].hash, b[k].hash)
  }

  ghost predicate DiffersAt(a: map<int, Header>, b: map<int, Header>, k: int) {
    && k in a && k in b
    && forall i :: i < k ==> (i in a <==> i in b) && (i in a ==> a[i] == b[i])
  }

  /** Better luck, or equal luck and a later hash sequence. */
  ghost predicate Improves(a: map<int, Header>, b: map<int, Header>) {
    Luck(a) < Luck(b) || (Luck(a) == Luck(b) && HashesBefore(a, b))
  }

  lemma ImprovesIrreflexive(a: map<int, Header>)
    ensures !Improves(a, a)
  {
    if HashesBefore(a, a) {
      var k :| DiffersAt(a, a, k) && Before(a[k].hash, a[k].hash);
      BeforeIrreflexive(a[k].hash);
    }
  }

  lemma ImprovesTransitive(a: map<int, Header>, b: map<int, Header>, c: map<int, Header>)
    requires Improves(a, b) && Improves(b, c)
    ensures Improves(a, c)
  {
    if HashesBefore(a, b) && HashesBefore(b, c) {
      var j :| DiffersAt(a, b, j) && Before(a[j].hash, b[j].hash);
      var k :| DiffersAt(b, c, k) && Before(b[k].hash, c[k].hash);
      if j == k { BeforeTransitive(a[j].hash, b[j].hash, c[j].hash); }
      var m := if j < k then j else k;
      assert DiffersAt(a, c, m) && Before(a[m].hash, c[m].hash);
    }
  }

  /** An adopted fork improves main, also when it is shorter than main and main's old upper blocks stay. */
  lemma AdoptionImproves(env: Env, main: Tables, fork: Tables)
    requires Consistent(main)
    requires fork.blocks.Keys != {} && First(fork) != 0
    requires Nonnegative(main.blocks) && Nonnegative(fork.blocks)
    requires CheckTempChain(env, main, fork) == 0
    ensures Improves(main.blocks, ApplyFork(main, fork).blocks)
    ensures Luck(main.blocks) <= Luck(ApplyFork(main, fork).blocks)
  {
    hide Consistent, ApplyFork, AllBlocksVerify, Luck, LuckBetween, Before;
    AdoptionLoads(main, fork);
    var old_, s, e := main.blocks, First(fork), LastIndex(main);
    ReplacedLuck(old_, fork.blocks, s, e);
    ForkLuckIsAll(fork);
    if LuckBetween(old_, s, e) == ForkLuck(fork) && s in old_ {
      assert DiffersAt(old_, old_ + fork.blocks, s);
    }
  }

  lemma ForkLuckIsAll(fork: Tables)
    requires fork.blocks.Keys != {}
    ensures ForkLuck(fork) == Luck(fork.blocks)
  {
    hide Luck, LuckBetween;
    BetweenIsLuck(fork.blocks, First(fork), MaxOf(fork.blocks.Keys));
    assert Within(fork.blocks, First(fork), MaxOf(fork.blocks.Keys)) == fork.blocks;
  }

  /** Writing `over` above main costs at most the luck main has from the first replaced index on. */
  lemma ReplacedLuck(blocks: map<int, Header>, over: map<int, Header>, lo: int, hi: int)
    requires Nonnegative(blocks)
    requires forall i :: i in over ==> lo <= i
    requires forall i :: i in blocks ==> i <= hi
    ensures Luck(blocks + over) >= Luck(blocks) - LuckBetween(blocks, lo, hi) + Luck(over)
  {
    hide Luck, LuckBetween;
    var replaced := map i | i in blocks && i in over :: blocks[i];
    var kept := blocks - over.Keys;
    forall i ensures i in blocks <==> i in kept + replaced {}
    assert blocks == kept + replaced;
    LuckUnion(kept, replaced);
    assert blocks + over == kept + over;
    LuckUnion(kept, over);
    BetweenIsLuck(blocks, lo, hi);
    LuckSubset(replaced, Within(blocks, lo, hi));
  }
}
