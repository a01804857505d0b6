/** What makes a block valid and a fork the next main chain, stated without the program's loops and early exits. */
module Rules {
  import opened Ledger
  import opened ForkView
  import opened Queries
  import opened Verification
  import opened ForkChoice
  import opened Node

  // -------------------------------------------------------------- one transaction

  /** No input twice, and signed or paid to oneself. */
  ghost predicate Regular(env: Env, tx: Transaction) {
    && (forall h :: multiset(tx.inputs)[h] <= 1)
    && (env.signed(tx.hash, tx.sender, tx.recipient, tx.value, tx.timestamp) || tx.sender == tx.recipient)
  }

  lemma {:induction false} OncePrefix(s: seq<string>)
    ensures (forall i, j :: 0 <= i < j < |s| ==> s[i] != s[j]) <==> forall h :: multiset(s)[h] <= 1
  {
    if s != [] {
      var n := |s| - 1;
      var t := s[..n];
      OncePrefix(t);
      assert s == t + [s[n]];
      assert multiset(s) == multiset(t) + multiset{s[n]};
      assert s[n] in t <==> multiset(t)[s[n]] > 0;
      if forall h :: multiset(s)[h] <= 1 {
        assert forall h :: multiset(t)[h] <= multiset(s)[h];
        assert multiset(s)[s[n]] <= 1;
      }
      if forall i, j :: 0 <= i < j < |s| ==> s[i] != s[j] {
        assert forall i :: 0 <= i < n ==> t[i] == s[i];
      }
    }
  }

  lemma RegularExactly(env: Env, tx: Transaction)
    ensures ValidTransaction(env, tx) <==> Regular(env, tx)
  {
    OncePrefix(tx.inputs);
  }

  /** The hash is in an earlier block of the view. */
  ghost predicate Known(main: Tables, view: View, hash: string, index: int)
    requires view.ForkView? ==> view.fork.blocks.Keys != {}
  {
    var limit := if view.ForkView? then First(view.fork) else index;
    || hash in HashesBelow(Rows(main), limit)
    || (view.ForkView? && hash in HashesBelow(Rows(view.fork), index))
  }

  ghost function HashesBelow(rows: seq<TxData>, limit: int): set<string> {
    set d | d in rows && d.block < limit :: d.hash
  }

  lemma KnownExactly(main: Tables, view: View, hash: string, index: int)
    requires view.ForkView? ==> view.fork.blocks.Keys != {}
    ensures ExistsTransaction(main, view, hash, index) <==> Known(main, view, hash, index)
  {
    hide Rows, First;
  }

  // ------------------------------------------------------------- all of a block's

  /** No transaction is known; each is a regular payment, positive and within the balance, or a reward of at most 50
      without inputs, of which there is one at most. */
  ghost predicate Accepted(env: Env, main: Tables, view: View, index: int, txs: seq<Transaction>)
    requires view.ForkView? ==> view.fork.blocks.Keys != {}
  {
    && (forall i :: 0 <= i < |txs| ==> Admitted(env, main, view, index, txs[i]))
    && (forall i, j :: 0 <= i < j < |txs| ==> Regular(env, txs[i]) || Regular(env, txs[j]))
  }

  ghost predicate Admitted(env: Env, main: Tables, view: View, index: int, tx: Transaction)
    requires view.ForkView? ==> view.fork.blocks.Keys != {}
  {
    && !Known(main, view, tx.hash, index)
    && if Regular(env, tx) then 0 < tx.value <= Balance(main, view, tx.sender, index - 1)
       else tx.inputs == [] && tx.value <= 50
  }

  /** The value of the transactions that are no regular payments. */
  ghost function Rewards(env: Env, txs: seq<Transaction>): int {
    if txs == [] then 0 else (if Regular(env, txs[0]) then 0 else txs[0].value) + Rewards(env, txs[1..])
  }

  ghost predicate AllRegular(env: Env, txs: seq<Transaction>) { forall tx :: tx in txs ==> Regular(env, tx) }

  lemma AcceptedHead(env: Env, main: Tables, view: View, index: int, txs: seq<Transaction>)
    requires view.ForkView? ==> view.fork.blocks.Keys != {}
    requires txs != []
    ensures Accepted(env, main, view, index, txs) <==>
      && Admitted(env, main, view, index, txs[0]) && Accepted(env, main, view, index, txs[1..])
      && (Regular(env, txs[0]) || AllRegular(env, txs[1..]))
  {
    hide Regular, Admitted;
    var rest := txs[1..];
    assert txs == [txs[0]] + rest;
    if Accepted(env, main, view, index, txs) {
      forall i | 0 <= i < |rest| ensures Admitted(env, main, view, index, rest[i]) {
        assert rest[i] == txs[i + 1];
      }
      forall i, j | 0 <= i < j < |rest| ensures Regular(env, rest[i]) || Regular(env, rest[j]) {
        assert rest[i] == txs[i + 1] && rest[j] == txs[j + 1];
      }
      if !Regular(env, txs[0]) {
        forall tx | tx in rest ensures Regular(env, tx) {
          var j :| 0 <= j < |rest| && rest[j] == tx;
          assert txs[j + 1] == tx;
        }
      }
    }
    if Admitted(env, main, view, index, txs[0]) && Accepted(env, main, view, index, rest)
       && (Regular(env, txs[0]) || AllRegular(env, rest)) {
      forall i, j | 0 <= i < j < |txs| ensures Regular(env, txs[i]) || Regular(env, txs[j]) {
        assert txs[j] == rest[j - 1] && rest[j - 1] in rest;
        if i > 0 { assert txs[i] == rest[i - 1]; }
      }
    }
  }

  lemma NoRewards(env: Env, txs: seq<Transaction>)
    requires AllRegular(env, txs)
    ensures Rewards(env, txs) == 0
  {
    hide Regular;
  }

  lemma {:induction false} CheckedFrom(env: Env, main: Tables, view: View, index: int, txs: seq<Transaction>, t: Totals)
    requires view.ForkView? ==> view.fork.blocks.Keys != {}
    requires 0 <= t.coinbase <= 1
    ensures var r := CheckTransactions(env, main, view, index, txs, t);
      && (r.Some? <==> Accepted(env, main, view, index, txs) && (t.coinbase == 0 || AllRegular(env, txs)))
      && (r.Some? ==> r.value.out == t.out + TotalValue(txs))
      && (r.Some? ==> r.value.reward == if AllRegular(env, txs) then t.reward else Rewards(env, txs))
    decreases |txs|
  {
    hide ExistsTransaction, ValidTransaction, Balance, Regular, Known;
    if txs != [] {
      var tx, rest := txs[0], txs[1..];
      assert txs == [tx] + rest;
      RegularExactly(env, tx);
      KnownExactly(main, view, tx.hash, index);
      AcceptedHead(env, main, view, index, txs);
      var next := if Regular(env, tx) then t.(out := t.out + tx.value)
                  else Totals(t.coinbase + 1, tx.value, t.out + tx.value);
      if next.coinbase <= 1 {
        CheckedFrom(env, main, view, index, rest, next);
        if AllRegular(env, rest) { NoRewards(env, rest); }
      }
      assert AllRegular(env, txs) <==> Regular(env, tx) && AllRegular(env, rest);
    }
  }

  // ------------------------------------------------------------------- a whole block

  /** The header that the block must hang on: of main for the first block of a fork, else of the view. */
  function HeaderBelow(main: Tables, view: View, index: int): Option<Header>
    requires view.ForkView? ==> view.fork.blocks.Keys != {}
  {
    var blocks := if view.ForkView? && First(view.fork) < index then view.fork.blocks else main.blocks;
    if index - 1 in blocks then Some(blocks[index - 1]) else None
  }

  ghost predicate Valid(env: Env, main: Tables, view: View, b: Block)
    requires view.ForkView? ==> view.fork.blocks.Keys != {}
  {
    var h, below := b.header, HeaderBelow(main, view, b.index);
    // the header fits the block, carries its own hash, and a certificate unless it is the first one
    && h.merkle == env.merkleRoot(b.txs)
    && h.hash == env.blockHash(h.prev, h.ln, h.merkle, h.timestamp)
    && (h.prev == "" || b.index == 1 || env.proves(h.merkle, h.prev, h.ln, h.certificate))
    // it hangs on the header below, is younger than it, and not from the future
    && (b.index <= 1 || h.prev == (if below.Some? then below.value.hash else ""))
    && (if below.Some? then below.value.timestamp else env.absentTime) < h.timestamp
    && h.timestamp <= env.now
    // the transactions are accepted, and pay out what comes in and the reward
    && Accepted(env, main, view, b.index, b.txs)
    && TotalValue(b.txs) == InputSum(main, view, b.index) + Rewards(env, b.txs)
  }

  /** The program accepts exactly the valid blocks. */
  lemma VerifiedExactly(env: Env, main: Tables, view: View, b: Block)
    requires view.ForkView? ==> view.fork.blocks.Keys != {}
    ensures VerifyBlock(env, main, view, b) <==> Valid(env, main, view, b)
  {
    hide CheckTransactions, InputSum, Accepted, AllRegular, First;
    CheckedFrom(env, main, view, b.index, b.txs, Totals(0, 0, 0));
    if AllRegular(env, b.txs) { NoRewards(env, b.txs); }
  }

  // ------------------------------------------------------- sums behind the queries

  function Incoming(ms: seq<Move>, key: string, block: int): int {
    if ms == [] then 0
    else (if ms[0].recipient == key && ms[0].block <= block then ms[0].value else 0) + Incoming(ms[1..], key, block)
  }

  function Outgoing(ms: seq<Move>, key: string, block: int): int {
    if ms == [] then 0
    else (if ms[0].sender == key && ms[0].block <= block then ms[0].value else 0) + Outgoing(ms[1..], key, block)
  }

  /** What a key holds is what it received less what it paid, up to the block. */
  lemma BalanceIsReceivedLessPaid(main: Tables, key: string, block: int)
    ensures Balance(main, MainView, key, block)
      == Incoming(Moves(Rows(main)), key, block) - Outgoing(Moves(Rows(main)), key, block)
  {
    NetIsDifference(Moves(Rows(main)), key, block);
  }

  lemma NetIsDifference(ms: seq<Move>, key: string, block: int)
    ensures Net(ms, key, block) == Incoming(ms, key, block) - Outgoing(ms, key, block)
  {}

  function PlainSum(pairs: seq<(string, int)>): int {
    if pairs == [] then 0 else pairs[0].1 + PlainSum(pairs[1..])
  }

  ghost predicate NoneTwice(pairs: seq<(string, int)>) {
    forall i, j :: 0 <= i < j < |pairs| ==> pairs[i] != pairs[j]
  }

  lemma {:induction false} DistinctIsPlain(pairs: seq<(string, int)>)
    requires NoneTwice(pairs)
    ensures SumDistinct(pairs) == PlainSum(pairs)
  {
    if pairs != [] {
      var rest := pairs[1..];
      assert forall i :: 0 <= i < |rest| ==> rest[i] == pairs[i + 1];
      DistinctIsPlain(rest);
    }
  }

  /** The inputs of a block on main are the transactions it names, each hash and value counted once. */
  lemma InputSumIsOfNamed(main: Tables, index: int, named: seq<(string, int)>)
    requires NoneTwice(named)
    requires forall p :: p in named <==>
      exists d, q :: d in Rows(main) && q in main.inputs && q.block == index && q.hash == d.hash
        && p == (d.hash, d.value)
    ensures InputSum(main, MainView, index) == PlainSum(named)
  {
    hide Rows, SumDistinct, JoinedPairs, SpentIn;
    var spent := SpentIn(main.inputs, index);
    var joined := JoinedPairs(Rows(main), spent);
    forall p: (string, int) ensures p in joined <==> p in named {
      JoinedContents(Rows(main), spent, p);
      SpentContents(main.inputs, index, p.0);
    }
    SumSameSet(joined, named);
    DistinctIsPlain(named);
  }

  // ------------------------------------------------------------ which fork is taken

  /** a comes before b in a dictionary: it is a proper beginning of b, or smaller at the first place they differ. */
  ghost predicate Smaller(a: string, b: string) {
    exists k: nat :: DiffersFrom(a, b, k)
  }

  ghost predicate DiffersFrom(a: string, b: string, k: nat) {
    k <= |a| && k < |b| && a[..k] == b[..k] && (k < |a| ==> a[k] < b[k])
  }

  lemma {:induction false} BeforeExactly(a: string, b: string)
    ensures Before(a, b) <==> Smaller(a, b)
  {
    if Before(a, b) {
      if a == [] || a[0] < b[0] {
        assert DiffersFrom(a, b, 0);
      } else {
        BeforeExactly(a[1..], b[1..]);
        var k: nat :| DiffersFrom(a[1..], b[1..], k);
        assert a[..k + 1] == [a[0]] + a[1..][..k] && b[..k + 1] == [b[0]] + b[1..][..k];
        assert DiffersFrom(a, b, k + 1);
      }
    }
    if Smaller(a, b) && a != [] {
      var k: nat :| DiffersFrom(a, b, k);
      if k > 0 {
        assert a[..k][0] == b[..k][0];
        assert a[1..][..k - 1] == a[..k][1..] && b[1..][..k - 1] == b[..k][1..];
        assert DiffersFrom(a[1..], b[1..], k - 1);
        BeforeExactly(a[1..], b[1..]);
      }
    }
  }

  /** All of the fork's luck is more than main's from the start on, or as much, and main's hash at the start is
      smaller. */
  ghost predicate Better(main: Tables, fork: Tables, start: int) {
    var ours, theirs := Luck(Within(main.blocks, start, LastIndex(main))), Luck(fork.blocks);
    || ours < theirs
    || (ours == theirs && start in main.blocks && start in fork.blocks
        && Smaller(main.blocks[start].hash, fork.blocks[start].hash))
  }

  /** The tip of a chain is its greatest index, 0 when there is no block. */
  lemma LastIsGreatest(t: Tables)
    ensures if t.blocks.Keys == {} then LastIndex(t) == 0
            else LastIndex(t) in t.blocks && forall i :: i in t.blocks ==> i <= LastIndex(t)
  {}

  lemma StartIsFirst(fork: Tables)
    requires fork.blocks.Keys != {}
    ensures First(fork) != 0 ==> StartIndex(fork) == First(fork)
    ensures StartIndex(fork) in fork.blocks
    ensures forall i :: i in fork.blocks && i != 0 ==> StartIndex(fork) <= i
  {
    var s := fork.blocks.Keys;
    if First(fork) == 0 && s != {0} {
      assert s - {0} != {};
      assert forall i :: i in fork.blocks && i != 0 ==> i in s - {0};
    }
  }

  /** A fork is adopted exactly when all its blocks verify and it is better from its first block on, wherever that is
      on main; -2 says that a block does not verify, and -1 that it is not better. */
  lemma AdoptedExactly(env: Env, main: Tables, fork: Tables)
    requires fork.blocks.Keys != {}
    ensures First(fork) != 0 ==> StartIndex(fork) == First(fork)
    ensures CheckTempChain(env, main, fork) ==
      if !AllBlocksVerify(env, main, fork) then -2 else if Better(main, fork, StartIndex(fork)) then 0 else -1
  {
    hide AllBlocksVerify, Luck, LuckBetween, Before, Smaller, Within;
    var start := StartIndex(fork);
    StartIsFirst(fork);
    BetweenIsLuck(main.blocks, start, LastIndex(main));
    ForkLuckIsAll(fork);
    if start in main.blocks {
      BeforeExactly(main.blocks[start].hash, fork.blocks[start].hash);
    }
  }

  // ------------------------------------------------------------- one received block

  /** The block hangs on main: the header below it has the hash it names, or it names none and there is no header. */
  predicate Hangs(main: Tables, b: Block) {
    b.index - 1 <= LastIndex(main)
    && b.header.prev == if b.index - 1 in main.blocks then main.blocks[b.index - 1].hash else ""
  }

  /** All that the handling of a block does, by cases: a block that hangs on main completes its fork, which is adopted
      exactly when it may be, and is gone afterwards in any case; a certified one that does not is collected, and the
      block below is asked for; any other takes its fork with it. */
  lemma HandledExactly(env: Env, s: State, b: Block, forkId: nat)
    requires Ok(s) && (forkId == 0 || forkId in s.forks)
    ensures var f := if forkId == 0 then s.counter + 1 else forkId;
      var fork := InsertBlock(if forkId == 0 then EmptyTables else s.forks[forkId], b);
      var o := Handle(env, s, b, forkId);
      && fork.blocks.Keys != {}
      && (Hangs(s.main, b) ==>
            && o.forkId == f && o.state.forks == s.forks - {f}
            && o.result == (if !AllBlocksVerify(env, s.main, fork) then -2
                            else if Better(s.main, fork, StartIndex(fork)) then 0 else -1)
            && o.state.main == (if o.result == 0 then ApplyFork(s.main, fork) else s.main)
            && o.state.mempool == (if o.result == 0 then UpdatePool(s.mempool, s.main, fork) else s.mempool))
      && (!Hangs(s.main, b) ==> o.state.main == s.main && o.state.mempool == s.mempool)
      && (!Hangs(s.main, b) && Certified(env, b) ==>
            o.forkId == f && o.result == b.index - 1 && o.state.forks == s.forks[f := fork])
      && (!Hangs(s.main, b) && !Certified(env, b) ==>
            o.forkId == forkId && o.result == -2 && o.state.forks == s.forks - {forkId})
  {
    hide Consistent, InsertBlock, ApplyFork, CheckTempChain, UpdatePool, Better, AllBlocksVerify, LastIndex, Certified;
    CollectOk(s, b, forkId);
    var (s', f) := Collect(s, b, forkId);
    AdoptedExactly(env, s.main, s'.forks[f]);
    assert s.forks[f := s'.forks[f]] - {f} == s.forks - {f};
  }

  /** On every result up to 0 the fork that was used is gone and all others are as they were, except for a first
      block, or one below, that is certified and does not hang on main: its fork stays, although the result says
      that nothing more is needed. */
  lemma UsedForkIsGoneExactly(env: Env, s: State, b: Block, forkId: nat)
    requires Ok(s) && (forkId == 0 || forkId in s.forks)
    requires Handle(env, s, b, forkId).result <= 0
    ensures var o := Handle(env, s, b, forkId);
      && (o.forkId !in o.state.forks <==> b.index > 1 || Hangs(s.main, b) || !Certified(env, b))
      && (forall g :: g != o.forkId ==>
            (g in o.state.forks <==> g in s.forks) && (g in s.forks ==> o.state.forks[g] == s.forks[g]))
  {
    hide Handle, Hangs, Certified, Ok;
    HandledExactly(env, s, b, forkId);
    assert 0 !in s.forks by { ForkIdsArePositive(s); }
  }

  /** So a block 1 that names a predecessor is reported as adopted, changes nothing, and leaves a fork behind. */
  lemma FirstBlockLeavesAFork(env: Env, s: State, b: Block)
    requires Ok(s) && 0 !in s.main.blocks && b.index == 1 && b.header.prev != ""
    ensures var o := Handle(env, s, b, 0);
      o.result == 0 && o.state.main == s.main && s.counter + 1 in o.state.forks && s.counter + 1 !in s.forks
  {
    hide Handle, Better, InsertBlock, ApplyFork, UpdatePool, AllBlocksVerify;
    HandledExactly(env, s, b, 0);
  }

  lemma ForkIdsArePositive(s: State)
    requires Ok(s)
    ensures 0 !in s.forks
  {}

  // ------------------------------------------------------------------- the pool

  /** The transactions that an adoption may drop: those of all blocks of main from the fork's first one on. */
  lemma DroppedExactly(main: Tables, fork: Tables, tx: Transaction)
    requires Consistent(main) && fork.blocks.Keys != {}
    ensures tx in Dropped(main, fork) <==>
      exists i :: i in main.blocks && First(fork) <= i && tx in LoadTransactions(main, i)
  {
    hide First, Consistent;
    var rows := FromIndex(main.txs, First(fork));
    if tx in Dropped(main, fork) {
      var k :| 0 <= k < |rows| && Dropped(main, fork)[k] == tx;
      LoadRowsAt(rows, main.inputs, k);
      FromIndexContents(main.txs, First(fork), rows[k]);
      RowIsLoaded(main, rows[k]);
      assert rows[k].data.block in main.blocks by { RowIsStored(main, rows[k]); }
    }
    if i :| i in main.blocks && First(fork) <= i && tx in LoadTransactions(main, i) {
      var inside := TxsInside(main.txs, {i});
      var k :| 0 <= k < |inside| && LoadTransactions(main, i)[k] == tx;
      LoadRowsAt(inside, main.inputs, k);
      InsideContents(main.txs, {i});
      assert inside[k] in inside;
      FromIndexContents(main.txs, First(fork), inside[k]);
      var j :| 0 <= j < |rows| && rows[j] == inside[k];
      LoadRowsAt(rows, main.inputs, j);
    }
  }

  lemma FromIndexContents(txs: seq<TxRow>, index: int, r: TxRow)
    ensures r in FromIndex(txs, index) <==> r in txs && r.data.block >= index
  {}

  lemma RowIsStored(t: Tables, r: TxRow)
    requires Consistent(t) && r in t.txs
    ensures r.data.block in t.blocks
  {}

  lemma RowIsLoaded(t: Tables, r: TxRow)
    requires r in t.txs
    ensures LoadTransaction(r, t.inputs) in LoadTransactions(t, r.data.block)
  {
    var inside := TxsInside(t.txs, {r.data.block});
    InsideContents(t.txs, {r.data.block});
    var k :| 0 <= k < |inside| && inside[k] == r;
    LoadRowsAt(inside, t.inputs, k);
  }

  /** A transaction as it waits: without inputs. */
  function Waiting(tx: Transaction): Transaction { tx.(numOfInputs := 0, inputs := []) }

  lemma {:induction false} AddedContents(pool: seq<Transaction>, dropped: seq<Transaction>, tx: Transaction)
    ensures tx in AddDropped(pool, dropped) ==> tx in pool || exists d :: d in dropped && tx == Waiting(d)
    decreases |dropped|
  {
    if dropped != [] {
      var next := if ReturnsToPool(dropped[0]) then AddToPool(pool, dropped[0]) else pool;
      AddedContents(next, dropped[1..], tx);
      assert dropped[0] in dropped;
      if d :| d in dropped[1..] && tx == Waiting(d) { assert d in dropped; }
    }
  }

  /** What waits after an adoption was waiting before, unchanged, or was dropped from main and has lost its inputs. */
  lemma PoolContents(pool: seq<Transaction>, main: Tables, fork: Tables, tx: Transaction)
    requires fork.blocks.Keys != {} && DistinctHashes(pool)
    requires tx in UpdatePool(pool, main, fork)
    ensures tx in pool || exists d :: d in Dropped(main, fork) && tx == Waiting(d)
  {
    hide Dropped, Rows;
    AddDroppedEffect(pool, Dropped(main, fork), tx.hash);
    RemoveAllEffect(AddDropped(pool, Dropped(main, fork)), Rows(fork));
    AddedContents(pool, Dropped(main, fork), tx);
  }
}
