/** Block verification on main and on a fork, and what adopting a fork keeps of it. */
module Verification {
  import opened Ledger
  import opened ForkView
  import opened Queries

  const MINER_REWARD := 50

  /** The answers the node gets from code outside this model: hashing, signatures, certificates and the clock.
      `absentTime` is the timestamp of a block object that was never filled in. */
  datatype Env = Env(
    merkleRoot: seq<Transaction> -> string,
    blockHash: (string, real, string, int) -> string,
    signed: (string, string, string, int, int) -> bool,
    proves: (string, string, real, string) -> bool,
    now: int,
    absentTime: int)

  /** Transaction::verifyTransaction: no input twice, and a valid signature unless sender and recipient agree. */
  predicate ValidTransaction(env: Env, tx: Transaction) {
    && (forall i, j :: 0 <= i < j < |tx.inputs| ==> tx.inputs[i] != tx.inputs[j])
    && (env.signed(tx.hash, tx.sender, tx.recipient, tx.value, tx.timestamp) || tx.sender == tx.recipient)
  }

  predicate Certified(env: Env, b: Block) {
    b.header.prev != "" && b.index != 1 ==>
      env.proves(b.header.merkle, b.header.prev, b.header.ln, b.header.certificate)
  }

  datatype Totals = Totals(coinbase: int, reward: int, out: int)

  /** The loop over the transactions of a block: None when one of them is refused. */
  function CheckTransactions(env: Env, main: Tables, view: View, index: int, txs: seq<Transaction>,
                             t: Totals): Option<Totals>
    requires view.ForkView? ==> view.fork.blocks.Keys != {}
  {
    if txs == [] then Some(t)
    else
      var tx := txs[0];
      if ExistsTransaction(main, view, tx.hash, index) then None
      else if !ValidTransaction(env, tx) then
        if tx.inputs != [] || tx.value > MINER_REWARD || t.coinbase + 1 > 1 then None
        else CheckTransactions(env, main, view, index, txs[1..], Totals(t.coinbase + 1, tx.value, t.out + tx.value))
      else if Balance(main, view, tx.sender, index - 1) < tx.value || tx.value <= 0 then None
      else CheckTransactions(env, main, view, index, txs[1..], t.(out := t.out + tx.value))
  }

  /** The header a block is linked to. The first block of a fork is compared with main. */
  function Predecessor(main: Tables, view: View, index: int): Option<Header>
    requires view.ForkView? ==> view.fork.blocks.Keys != {}
  {
    GetHeader(main, if view.ForkView? && First(view.fork) != index then view else MainView, index - 1)
  }

  predicate Linked(env: Env, main: Tables, view: View, b: Block)
    requires view.ForkView? ==> view.fork.blocks.Keys != {}
  {
    var p := Predecessor(main, view, b.index);
    && (b.index > 1 ==> b.header.prev == if p.Some? then p.value.hash else "")
    && (if p.Some? then p.value.timestamp else env.absentTime) < b.header.timestamp <= env.now
  }

  predicate VerifyBlock(env: Env, main: Tables, view: View, b: Block)
    requires view.ForkView? ==> view.fork.blocks.Keys != {}
  {
    && env.merkleRoot(b.txs) == b.header.merkle
    && Linked(env, main, view, b)
    && env.blockHash(b.header.prev, b.header.ln, b.header.merkle, b.header.timestamp) == b.header.hash
    && var checked := CheckTransactions(env, main, view, b.index, b.txs, Totals(0, 0, 0));
    && checked.Some?
    && InputSum(main, view, b.index) + checked.value.reward == checked.value.out
    && Certified(env, b)
  }

  // ------------------------------------------------- what a verified block means

  function TotalValue(txs: seq<Transaction>): int {
    if txs == [] then 0 else txs[0].value + TotalValue(txs[1..])
  }

  lemma {:induction false} CheckedTotals(env: Env, main: Tables, view: View, index: int, txs: seq<Transaction>,
                                         t: Totals)
    requires view.ForkView? ==> view.fork.blocks.Keys != {}
    requires CheckTransactions(env, main, view, index, txs, t).Some?
    requires 0 <= t.coinbase <= 1 && t.reward <= MINER_REWARD
    ensures var t' := CheckTransactions(env, main, view, index, txs, t).value;
      t'.out == t.out + TotalValue(txs) && t'.reward <= MINER_REWARD && 0 <= t'.coinbase <= 1
    ensures forall tx :: tx in txs ==> !ExistsTransaction(main, view, tx.hash, index)
    ensures forall tx :: tx in txs && ValidTransaction(env, tx) ==>
      0 < tx.value <= Balance(main, view, tx.sender, index - 1)
  {
    hide ExistsTransaction, Balance, ValidTransaction;
    if txs != [] {
      var tx := txs[0];
      assert txs == [tx] + txs[1..];
      if !ValidTransaction(env, tx) {
        CheckedTotals(env, main, view, index, txs[1..], Totals(t.coinbase + 1, tx.value, t.out + tx.value));
      } else {
        CheckedTotals(env, main, view, index, txs[1..], t.(out := t.out + tx.value));
      }
    }
  }

  /** A verified block creates at most the miner's reward: everything else it pays out comes from
      distinct transactions of the view. No transaction of it occurs in an earlier block of the view,
      and no signed transaction spends more than its sender owned before the block. */
  lemma VerifiedBlockMeaning(env: Env, main: Tables, view: View, b: Block)
    requires view.ForkView? ==> view.fork.blocks.Keys != {}
    requires VerifyBlock(env, main, view, b)
    ensures TotalValue(b.txs) <= InputSum(main, view, b.index) + MINER_REWARD
    ensures forall tx :: tx in b.txs ==> !ExistsTransaction(main, view, tx.hash, b.index)
    ensures forall tx :: tx in b.txs && ValidTransaction(env, tx) ==>
      0 < tx.value <= Balance(main, view, tx.sender, b.index - 1)
    ensures b.header.merkle == env.merkleRoot(b.txs) && b.header.timestamp <= env.now
    ensures b.header.hash == env.blockHash(b.header.prev, b.header.ln, b.header.merkle, b.header.timestamp)
    ensures b.header.prev != "" && b.index != 1 ==>
      env.proves(b.header.merkle, b.header.prev, b.header.ln, b.header.certificate)
  {
    CheckedTotals(env, main, view, b.index, b.txs, Totals(0, 0, 0));
  }

  // --------------------------------------------------------- fork adoption

  /** The fork's last block is at or above main's last block. */
  ghost predicate ReachesTip(main: Tables, fork: Tables) {
    fork.blocks.Keys != {} && forall i :: i in main.blocks ==> i <= MaxOf(fork.blocks.Keys)
  }

  function KeptRows(main: Tables, fork: Tables): seq<TxData>
    requires fork.blocks.Keys != {}
  {
    Below(Rows(main), First(fork)) + Rows(fork)
  }

  lemma AdoptedMultiset(main: Tables, fork: Tables)
    requires Consistent(main) && Consistent(fork)
    requires Contiguous(fork.blocks.Keys) && ReachesTip(main, fork)
    ensures multiset(Rows(ApplyFork(main, fork))) == multiset(KeptRows(main, fork))
  {
    forall d ensures multiset(Rows(ApplyFork(main, fork)))[d] == multiset(KeptRows(main, fork))[d] {
      AdoptedRows(main, fork, d);
      BelowContents(Rows(main), First(fork), d);
      RowBlocks(main, d);
      RowBlocks(fork, d);
    }
  }

  lemma RowBlocks(t: Tables, d: TxData)
    requires Consistent(t)
    ensures d in Rows(t) ==> d.block in t.blocks
    ensures d in Rows(t) <==> multiset(Rows(t))[d] > 0
  {
    if d in Rows(t) {
      var i :| 0 <= i < |t.txs| && Rows(t)[i] == d;
      assert t.txs[i] in t.txs;
    }
  }

  lemma SameMembers(main: Tables, fork: Tables, d: TxData)
    requires Consistent(main) && Consistent(fork)
    requires Contiguous(fork.blocks.Keys) && ReachesTip(main, fork)
    ensures d in Rows(ApplyFork(main, fork)) <==> (d in Rows(main) && d.block < First(fork)) || d in Rows(fork)
  {
    AdoptedMultiset(main, fork);
    assert d in Rows(ApplyFork(main, fork)) <==> d in multiset(Rows(ApplyFork(main, fork)));
    assert d in KeptRows(main, fork) <==> d in multiset(KeptRows(main, fork));
    BelowContents(Rows(main), First(fork), d);
  }

  lemma ExistsAgrees(main: Tables, fork: Tables, h: string, index: int)
    requires Consistent(main) && Consistent(fork)
    requires Contiguous(fork.blocks.Keys) && ReachesTip(main, fork) && index in fork.blocks
    ensures ExistsTransaction(ApplyFork(main, fork), MainView, h, index)
       <==> ExistsTransaction(main, ForkView(fork), h, index)
  {
    hide ApplyFork, Consistent, Contiguous, ReachesTip, Rows;
    var main' := ApplyFork(main, fork);
    if ExistsTransaction(main', MainView, h, index) {
      var d :| d in Rows(main') && d.hash == h && d.block < index;
      SameMembers(main, fork, d);
    }
    if ExistsTransaction(main, ForkView(fork), h, index) {
      if d :| d in Rows(main) && d.hash == h && d.block < First(fork) {
        SameMembers(main, fork, d);
        assert d in Rows(main') && d.block < index;
      } else {
        var d :| d in Rows(fork) && d.hash == h && d.block < index;
        SameMembers(main, fork, d);
        assert d in Rows(main');
      }
    }
  }

  lemma InputSumAgrees(main: Tables, fork: Tables, index: int)
    requires Consistent(main) && Consistent(fork)
    requires Contiguous(fork.blocks.Keys) && ReachesTip(main, fork) && index in fork.blocks
    ensures InputSum(ApplyFork(main, fork), MainView, index) == InputSum(main, ForkView(fork), index)
  {
    hide ApplyFork, Consistent, Contiguous, ReachesTip, Rows, SpentIn, Below;
    var main' := ApplyFork(main, fork);
    var spent', spent := SpentIn(main'.inputs, index), SpentIn(fork.inputs, index);
    var kept := Below(Rows(main), First(fork)) + Rows(fork);
    var a, b := JoinedPairs(Rows(main'), spent'), JoinedPairs(kept, spent);
    forall p ensures p in a <==> p in b {
      JoinedContents(Rows(main'), spent', p);
      JoinedContents(kept, spent, p);
      AdoptedSpent(main, fork, index, p.0);
      forall d ensures d in Rows(main') <==> d in kept {
        SameMembers(main, fork, d);
        BelowContents(Rows(main), First(fork), d);
      }
    }
    SumSameSet(a, b);
  }

  ghost predicate NoTwice(ms: seq<Move>) {
    forall m :: multiset(ms)[m] <= 1
  }

  /** When the balance query of a fork sees every row that moves something: no two payments of one block to
      somebody else agree in sender, recipient and value, and main has none between the fork's first block
      and its first block with transactions. */
  ghost predicate SeesEveryMove(main: Tables, fork: Tables)
    requires fork.blocks.Keys != {}
  {
    if Rows(fork) == [] then Moving(Moves(Below(Rows(main), First(fork)))) == []
    else
      && NoTwice(Moving(Moves(KeptRows(main, fork))))
      && forall d :: d in Rows(main) && d.sender != d.recipient ==> !(First(fork) <= d.block < FirstPaying(fork))
  }

  lemma FirstPayingBound(fork: Tables)
    requires Consistent(fork) && Rows(fork) != []
    ensures fork.blocks.Keys != {} && First(fork) <= FirstPaying(fork)
    ensures forall d :: d in Rows(fork) ==> FirstPaying(fork) <= d.block
  {
    var b := FirstPaying(fork);
    var d :| d in Rows(fork) && d.block == b;
    RowBlocks(fork, d);
    forall d | d in Rows(fork) ensures b <= d.block {
      assert d.block in BlocksOf(Rows(fork));
    }
  }

  lemma MovesConcat(a: seq<TxData>, b: seq<TxData>)
    ensures Moves(a + b) == Moves(a) + Moves(b)
  {}

  /** The two answers of getBalance differ by the surplus, for every fork, key and block. So they agree
      exactly when the rows counted too much and too little come to the same. */
  lemma BalanceDiffersBySurplus(main: Tables, fork: Tables, key: string, block: int)
    requires Consistent(main) && Consistent(fork)
    requires Contiguous(fork.blocks.Keys) && ReachesTip(main, fork)
    ensures Balance(main, ForkView(fork), key, block)
         == Balance(ApplyFork(main, fork), MainView, key, block) + Surplus(main, fork, key, block)
  {
    hide ApplyFork, Consistent, Contiguous, Rows, Below, Moves, Between, Dedup, Repeated, Net;
    var main' := ApplyFork(main, fork);
    var kept := Below(Rows(main), First(fork));
    AdoptedMultiset(main, fork);
    MovesSameMultiset(Rows(main'), KeptRows(main, fork));
    NetSameMultiset(Moves(Rows(main')), Moves(KeptRows(main, fork)), key, block);
    MovesConcat(kept, Rows(fork));
    NetConcat(Moves(kept), Moves(Rows(fork)), key, block);
    NetNone(key, block);
    if Rows(fork) != [] {
      var cut := Below(Rows(main), FirstPaying(fork));
      FirstPayingBound(fork);
      NetBetween(Rows(main), First(fork), FirstPaying(fork), key, block);
      NetConcat(Moves(cut), Moves(Rows(fork)), key, block);
      NetSplit(Moves(cut) + Moves(Rows(fork)), key, block);
    }
  }

  lemma NetNone(key: string, block: int)
    ensures Net([], key, block) == 0 && Moves([]) == []
  {}

  /** Fork and adopted main show the balance query the same moving rows, as multisets, exactly when
      SeesEveryMove holds. */
  lemma BalanceRowsAgreeExactly(main: Tables, fork: Tables)
    requires Consistent(main) && Consistent(fork)
    requires Contiguous(fork.blocks.Keys) && ReachesTip(main, fork)
    ensures
      multiset(Moving(BalanceMoves(main, ForkView(fork))))
      == multiset(Moving(BalanceMoves(ApplyFork(main, fork), MainView)))
      <==> SeesEveryMove(main, fork)
  {
    hide ApplyFork, Consistent, Contiguous, Rows, Below, Moves, Moving, Dedup;
    var main' := ApplyFork(main, fork);
    var kept := Moves(KeptRows(main, fork));
    AdoptedMultiset(main, fork);
    MovesSameMultiset(Rows(main'), KeptRows(main, fork));
    MovingSameMultiset(Moves(Rows(main')), kept);
    if Rows(fork) == [] {
      assert KeptRows(main, fork) == Below(Rows(main), First(fork));
      MovingNone();
      assert |multiset(Moving(kept))| == |Moving(kept)|;
    } else {
      var seen := Moves(Below(Rows(main), FirstPaying(fork))) + Moves(Rows(fork));
      if SeesEveryMove(main, fork) {
        forall m ensures multiset(Moving(Dedup(seen)))[m] == multiset(Moving(kept))[m] {
          MovingCount(Dedup(seen), m);
          MovingCount(kept, m);
          DedupCount(seen, m);
          if m.sender != m.recipient { SeenUnlessHidden(main, fork, m); }
          assert multiset(Moving(kept))[m] <= 1;
        }
      }
      if multiset(Moving(Dedup(seen))) == multiset(Moving(kept)) {
        forall m ensures multiset(Moving(kept))[m] <= 1 {
          MovingCount(Dedup(seen), m);
          DedupCount(seen, m);
        }
        forall d | d in Rows(main) && d.sender != d.recipient ensures !(First(fork) <= d.block < FirstPaying(fork)) {
          if First(fork) <= d.block < FirstPaying(fork) {
            HiddenMove(main, fork, d);
            var m := MoveOf(d);
            MovingCount(Dedup(seen), m);
            MovingCount(kept, m);
          }
        }
      }
    }
  }

  lemma MovingNone()
    ensures Moving([]) == []
  {}

  lemma MovingSameMultiset(a: seq<Move>, b: seq<Move>)
    requires multiset(a) == multiset(b)
    ensures multiset(Moving(a)) == multiset(Moving(b))
  {
    forall m ensures multiset(Moving(a))[m] == multiset(Moving(b))[m] {
      MovingCount(a, m);
      MovingCount(b, m);
    }
  }

  /** A row that is kept is seen by the fork, and a row seen is kept unless it is one of the hidden rows. */
  lemma SeenUnlessHidden(main: Tables, fork: Tables, m: Move)
    requires Consistent(fork) && Rows(fork) != [] && fork.blocks.Keys != {}
    requires m.sender != m.recipient
    requires forall d :: d in Rows(main) && d.sender != d.recipient ==> !(First(fork) <= d.block < FirstPaying(fork))
    ensures m in Moves(Below(Rows(main), FirstPaying(fork))) + Moves(Rows(fork)) <==> m in Moves(KeptRows(main, fork))
  {
    hide Moves, Rows, Below, Consistent;
    FirstPayingBound(fork);
    var low, high := Below(Rows(main), First(fork)), Below(Rows(main), FirstPaying(fork));
    MovesConcat(low, Rows(fork));
    MovesContents(low, m);
    MovesContents(high, m);
    forall d | MoveOf(d) == m ensures d in low <==> d in high {
      BelowContents(Rows(main), First(fork), d);
      BelowContents(Rows(main), FirstPaying(fork), d);
    }
  }

  /** A main row between the fork's first block and its first transaction is counted once by the fork but is gone
      after adoption. */
  lemma HiddenMove(main: Tables, fork: Tables, d: TxData)
    requires Consistent(fork) && Rows(fork) != [] && fork.blocks.Keys != {}
    requires d in Rows(main) && First(fork) <= d.block < FirstPaying(fork)
    ensures var seen := Moves(Below(Rows(main), FirstPaying(fork))) + Moves(Rows(fork));
      multiset(Dedup(seen))[MoveOf(d)] == 1 && multiset(Moves(KeptRows(main, fork)))[MoveOf(d)] == 0
  {
    hide Moves, Rows, Below, Consistent;
    var cut := Below(Rows(main), FirstPaying(fork));
    var seen := Moves(cut) + Moves(Rows(fork));
    var kept := KeptRows(main, fork);
    var m := MoveOf(d);
    FirstPayingBound(fork);
    BelowContents(Rows(main), FirstPaying(fork), d);
    MovesContents(cut, m);
    DedupCount(seen, m);
    MovesContents(kept, m);
    assert m !in Moves(kept) by {
      if m in Moves(kept) {
        var e :| e in kept && MoveOf(e) == m;
        BelowContents(Rows(main), First(fork), e);
      }
    }
  }

  lemma NoSurplus(main: Tables, fork: Tables, key: string, block: int)
    requires fork.blocks.Keys != {} && SeesEveryMove(main, fork)
    requires Consistent(fork)
    ensures Surplus(main, fork, key, block) == 0
  {
    hide Moves, Moving, Rows, Below, Between, Repeated, Consistent;
    forall m | m in HiddenMoves(main, fork) ensures m.sender == m.recipient {
      var gap := Between(Rows(main), First(fork), FirstPaying(fork));
      MovesContents(gap, m);
      var d :| d in gap && MoveOf(d) == m;
      BetweenContents(Rows(main), First(fork), FirstPaying(fork), d);
    }
    NetOfSelfPayments(HiddenMoves(main, fork), key, block);
    forall m | m in LostMoves(main, fork) ensures m.sender == m.recipient {
      if m.sender != m.recipient { NothingLost(main, fork, m); }
    }
    NetOfSelfPayments(LostMoves(main, fork), key, block);
  }

  lemma NothingLost(main: Tables, fork: Tables, m: Move)
    requires fork.blocks.Keys != {} && SeesEveryMove(main, fork) && Consistent(fork)
    requires m.sender != m.recipient
    ensures m !in LostMoves(main, fork)
  {
    hide Moves, Moving, Rows, Below, Repeated, Consistent;
    var low := Below(Rows(main), First(fork));
    if Rows(fork) == [] {
      MovingCount(Moves(low), m);
    } else {
      var high := Below(Rows(main), FirstPaying(fork));
      var seen := Moves(high) + Moves(Rows(fork));
      MovingCount(Moves(KeptRows(main, fork)), m);
      MovesConcat(low, Rows(fork));
      FirstPayingBound(fork);
      BelowSameCount(Rows(main), First(fork), FirstPaying(fork), m);
      if m in Repeated(seen) { RepeatedTwice(seen, m); }
    }
  }

  lemma {:induction false} BelowSameCount(rows: seq<TxData>, low: int, high: int, m: Move)
    requires low <= high && m.sender != m.recipient
    requires forall d :: d in rows && d.sender != d.recipient ==> !(low <= d.block < high)
    ensures multiset(Moves(Below(rows, high)))[m] == multiset(Moves(Below(rows, low)))[m]
  {
    hide Moves;
    if rows != [] {
      BelowSameCount(rows[1..], low, high, m);
      assert rows[0] in rows;
      MovesHead(rows[0], Below(rows[1..], high));
      MovesHead(rows[0], Below(rows[1..], low));
    }
  }

  lemma BalanceAgrees(main: Tables, fork: Tables, key: string, block: int)
    requires Consistent(main) && Consistent(fork)
    requires Contiguous(fork.blocks.Keys) && ReachesTip(main, fork) && SeesEveryMove(main, fork)
    ensures Balance(ApplyFork(main, fork), MainView, key, block) == Balance(main, ForkView(fork), key, block)
  {
    BalanceDiffersBySurplus(main, fork, key, block);
    NoSurplus(main, fork, key, block);
  }

  lemma PredecessorAgrees(main: Tables, fork: Tables, index: int)
    requires Consistent(main) && Contiguous(fork.blocks.Keys) && index in fork.blocks
    ensures Predecessor(ApplyFork(main, fork), MainView, index) == Predecessor(main, ForkView(fork), index)
  {
    hide ApplyFork, Consistent;
    AdoptionLoads(main, fork);
    assert index != First(fork) ==> index - 1 in fork.blocks;
  }

  /** Every signed payment is covered by the balance the sender will have on main after adoption. */
  ghost predicate Covered(env: Env, main: Tables, fork: Tables, index: int, txs: seq<Transaction>)
    requires fork.blocks.Keys != {}
  {
    forall tx :: tx in txs && ValidTransaction(env, tx) ==>
      tx.value <= Balance(main, ForkView(fork), tx.sender, index - 1) - Surplus(main, fork, tx.sender, index - 1)
  }

  /** A transaction list accepted in the fork is accepted on adopted main, with the same totals, exactly when
      its payments are covered there. */
  lemma {:induction false} CheckAgrees(env: Env, env': Env, main: Tables, fork: Tables, index: int,
                                       txs: seq<Transaction>, t: Totals)
    requires env' == env.(now := env'.now)
    requires Consistent(main) && Consistent(fork)
    requires Contiguous(fork.blocks.Keys) && ReachesTip(main, fork) && index in fork.blocks
    requires CheckTransactions(env, main, ForkView(fork), index, txs, t).Some?
    ensures CheckTransactions(env', ApplyFork(main, fork), MainView, index, txs, t)
         == if Covered(env, main, fork, index, txs) then CheckTransactions(env, main, ForkView(fork), index, txs, t)
            else None
    decreases |txs|
  {
    hide ApplyFork, Consistent, Contiguous, ReachesTip, ExistsTransaction, Balance, Surplus, Rows;
    if txs != [] {
      var tx := txs[0];
      assert txs == [tx] + txs[1..];
      ExistsAgrees(main, fork, tx.hash, index);
      BalanceDiffersBySurplus(main, fork, tx.sender, index - 1);
      var next := if ValidTransaction(env, tx) then t.(out := t.out + tx.value)
                  else Totals(t.coinbase + 1, tx.value, t.out + tx.value);
      CheckAgrees(env, env', main, fork, index, txs[1..], next);
    }
  }

  /** Which verified blocks adoption keeps verified: a block that verified in the fork is read back from main
      unchanged, and verifies there, at the time of adoption or later, exactly when its payments are covered. */
  lemma AdoptionVerifiesExactly(env: Env, env': Env, main: Tables, fork: Tables, index: int)
    requires Consistent(main) && Consistent(fork)
    requires Contiguous(fork.blocks.Keys) && ReachesTip(main, fork)
    requires index in fork.blocks && VerifyBlock(env, main, ForkView(fork), LoadBlock(fork, index))
    requires env' == env.(now := env'.now) && env.now <= env'.now
    ensures index in ApplyFork(main, fork).blocks
    ensures LoadBlock(ApplyFork(main, fork), index) == LoadBlock(fork, index)
    ensures VerifyBlock(env', ApplyFork(main, fork), MainView, LoadBlock(fork, index))
       <==> Covered(env, main, fork, index, LoadTransactions(fork, index))
  {
    hide ApplyFork, Consistent, Contiguous, ReachesTip, InputSum, CheckTransactions, LoadTransactions, Covered;
    var b := LoadBlock(fork, index);
    AdoptionLoads(main, fork);
    PredecessorAgrees(main, fork, index);
    InputSumAgrees(main, fork, index);
    CheckAgrees(env, env', main, fork, index, b.txs, Totals(0, 0, 0));
  }

  /** In particular adoption keeps every verified block of a fork that has no transactions, or none that the
      balance query overlooks. */
  lemma AdoptionKeepsVerification(env: Env, env': Env, main: Tables, fork: Tables, index: int)
    requires Consistent(main) && Consistent(fork)
    requires Contiguous(fork.blocks.Keys) && ReachesTip(main, fork)
    requires Rows(fork) == [] || SeesEveryMove(main, fork)
    requires index in fork.blocks && VerifyBlock(env, main, ForkView(fork), LoadBlock(fork, index))
    requires env' == env.(now := env'.now) && env.now <= env'.now
    ensures index in ApplyFork(main, fork).blocks
    ensures LoadBlock(ApplyFork(main, fork), index) == LoadBlock(fork, index)
    ensures VerifyBlock(env', ApplyFork(main, fork), MainView, LoadBlock(fork, index))
  {
    hide ApplyFork, Consistent, Contiguous, ReachesTip, SeesEveryMove, VerifyBlock, LoadTransactions, Rows;
    AdoptionVerifiesExactly(env, env', main, fork, index);
    if Rows(fork) == [] {
      NoRowsNoTransactions(fork, index);
    } else {
      CoveredWhenAllSeen(env, main, fork, index);
    }
  }

  lemma NoRowsNoTransactions(fork: Tables, index: int)
    requires Rows(fork) == []
    ensures LoadTransactions(fork, index) == []
  {
    assert |Rows(fork)| == |fork.txs|;
  }

  lemma CoveredWhenAllSeen(env: Env, main: Tables, fork: Tables, index: int)
    requires Consistent(fork) && fork.blocks.Keys != {} && SeesEveryMove(main, fork)
    requires index in fork.blocks && VerifyBlock(env, main, ForkView(fork), LoadBlock(fork, index))
    ensures Covered(env, main, fork, index, LoadTransactions(fork, index))
  {
    hide SeesEveryMove, VerifyBlock, LoadTransactions, Balance, Surplus, ValidTransaction, Consistent;
    VerifiedBlockMeaning(env, main, ForkView(fork), LoadBlock(fork, index));
    forall tx | tx in LoadTransactions(fork, index) ensures Surplus(main, fork, tx.sender, index - 1) == 0 {
      NoSurplus(main, fork, tx.sender, index - 1);
    }
  }

  // -------------------------------------------------------- shape of the chain

  /** The genesis block is there, and every other block sits on a stored predecessor that it
      names by hash and that is strictly older. So the indices have no gap. */
  ghost predicate WellLinked(blocks: map<int, Header>) {
    1 in blocks && forall i {:trigger LinkAt(blocks, i)} :: i in blocks ==> i == 1 || (i > 1 && LinkAt(blocks, i))
  }

  ghost predicate LinkAt(blocks: map<int, Header>, i: int) {
    i in blocks && i - 1 in blocks && blocks[i].prev == blocks[i - 1].hash
      && blocks[i - 1].timestamp < blocks[i].timestamp
  }

  lemma NothingBelowGenesis(blocks: map<int, Header>, i: int)
    requires WellLinked(blocks) && i < 1
    ensures i !in blocks
  {
    assert !LinkAt(blocks, i) || i in blocks;
  }

  lemma WellLinkedHasNoGap(blocks: map<int, Header>, top: int, i: int)
    requires WellLinked(blocks) && top in blocks && 1 <= i <= top
    ensures i in blocks && (i < top ==> blocks[i].timestamp < blocks[top].timestamp)
    decreases top
  {
    if i < top {
      assert LinkAt(blocks, top);
      WellLinkedHasNoGap(blocks, top - 1, i);
    }
  }

  ghost predicate AllVerify(env: Env, main: Tables, fork: Tables)
    requires fork.blocks.Keys != {}
  {
    forall i {:trigger LoadBlock(fork, i)} :: i in fork.blocks
      ==> VerifyBlock(env, main, ForkView(fork), LoadBlock(fork, i))
  }

  ghost predicate NamesPredecessors(fork: Tables) {
    forall i :: i in fork.blocks ==> i > 1 && fork.blocks[i].prev != ""
  }

  lemma VerifiedLink(env: Env, main: Tables, fork: Tables, i: int)
    requires fork.blocks.Keys != {} && AllVerify(env, main, fork) && NamesPredecessors(fork) && i in fork.blocks
    ensures var t := if i == First(fork) then main else fork;
      i - 1 in t.blocks && fork.blocks[i].prev == t.blocks[i - 1].hash
        && t.blocks[i - 1].timestamp < fork.blocks[i].timestamp
  {
    hide LoadTransactions, CheckTransactions, InputSum;
    assert VerifyBlock(env, main, ForkView(fork), LoadBlock(fork, i));
  }

  lemma NoGap(env: Env, main: Tables, fork: Tables, top: int)
    requires fork.blocks.Keys != {} && AllVerify(env, main, fork) && NamesPredecessors(fork) && top in fork.blocks
    ensures forall i :: First(fork) <= i <= top ==> i in fork.blocks
    decreases top - First(fork)
  {
    hide AllVerify;
    if top > First(fork) {
      VerifiedLink(env, main, fork, top);
      NoGap(env, main, fork, top - 1);
    }
  }

  /** A fork whose blocks all verify, each naming a previous hash, has no gap and starts right above a block of main. */
  lemma VerifiedForkContiguous(env: Env, main: Tables, fork: Tables)
    requires fork.blocks.Keys != {} && AllVerify(env, main, fork) && NamesPredecessors(fork)
    ensures Contiguous(fork.blocks.Keys)
    ensures First(fork) - 1 in main.blocks
  {
    hide AllVerify;
    VerifiedLink(env, main, fork, First(fork));
    NoGap(env, main, fork, MaxOf(fork.blocks.Keys));
  }

  /** Adopting a verified fork that reaches the tip leaves main gap-free, hash-linked and strictly increasing in
      time. */
  lemma AdoptionKeepsLinks(env: Env, main: Tables, fork: Tables)
    requires Consistent(main) && WellLinked(main.blocks)
    requires fork.blocks.Keys != {} && AllVerify(env, main, fork) && NamesPredecessors(fork) && ReachesTip(main, fork)
    ensures WellLinked(ApplyFork(main, fork).blocks)
  {
    hide AllVerify, ApplyFork, Consistent;
    VerifiedForkContiguous(env, main, fork);
    AdoptionLoads(main, fork);
    var blocks := main.blocks + fork.blocks;
    forall i | i in blocks ensures i == 1 || (i > 1 && LinkAt(blocks, i)) {
      if i in fork.blocks {
        VerifiedLink(env, main, fork, i);
      } else {
        assert i < First(fork);
        assert i == 1 || LinkAt(main.blocks, i);
      }
    }
  }
}
