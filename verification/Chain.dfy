/** The two objects a node keeps: the database and the chain logic on top of it. */
module Chain {
  import opened Ledger
  import opened ForkView
  import opened Queries
  import opened Verification
  import opened ForkChoice
  import opened Node

  class Database {
    var main: Tables
    var forks: map<nat, Tables>
    var counter: nat
    // the fork iterator: the rows of the running SELECT, the row it stands on, and whether the first was delivered
    var iteratedFork: nat
    var rows: seq<int>
    var position: int
    var firstForkBlockReturned: bool

    constructor ()
      ensures main == EmptyTables && forks == map[] && counter == 0
    {
      main, forks, counter := EmptyTables, map[], 0;
      iteratedFork, rows, position, firstForkBlockReturned := 0, [], 0, false;
    }

    method SaveTransaction(tx: Transaction, block: int)
      modifies `main
      ensures main == Ledger.SaveTransaction(old(main), tx, block)
    {
      var id := NextId(main.txs);
      var ins := main.inputs;
      for i := 0 to |tx.inputs|
        invariant ins + InputRows(tx.inputs[i..], id, block) == main.inputs + InputRows(tx.inputs, id, block)
      {
        assert tx.inputs[i..][1..] == tx.inputs[i + 1..];
        assert ins + InputRows(tx.inputs[i..], id, block)
            == ins + [InputRow(tx.inputs[i], id, block)] + InputRows(tx.inputs[i + 1..], id, block);
        ins := ins + [InputRow(tx.inputs[i], id, block)];
      }
      main := Tables(main.blocks, main.txs + [TxRow(id, DataOf(tx, block))], ins);
    }

    /** INSERT OR REPLACE, removeTransactions, removeInput, and one saveTransaction for each transaction. */
    method ReplaceBlock(b: Block)
      modifies `main
      ensures main == Ledger.ReplaceBlock(old(main), b)
    {
      main := Tables(main.blocks[b.index := b.header], TxsOutside(main.txs, {b.index}),
                     InputsOutside(main.inputs, {b.index}));
      for i := 0 to |b.txs|
        invariant SaveTransactions(main, b.txs[i..], b.index) == Ledger.ReplaceBlock(old(main), b)
      {
        assert b.txs[i..][1..] == b.txs[i + 1..];
        SaveTransaction(b.txs[i], b.index);
      }
    }

    /** No fork has an id that was not handed out yet. */
    ghost predicate IdsCounted()
      reads this
    {
      forall k :: k in forks ==> k <= counter
    }

    method CreateFork() returns (f: nat)
      modifies `forks, `counter
      ensures f == old(counter) + 1 && counter == f && forks == old(forks)[f := EmptyTables]
      ensures old(IdsCounted()) ==> IdsCounted() && forall k :: k in old(forks) ==> k < f
    {
      counter := counter + 1;
      f := counter;
      forks := forks[f := EmptyTables];
    }

    /** A second block with an index the fork already has is refused and nothing of it is stored. */
    method AddToFork(b: Block, f: nat) returns (stored: bool)
      requires f in forks
      modifies `forks
      ensures stored == (b.index !in old(forks)[f].blocks)
      ensures forks == old(forks)[f := InsertBlock(old(forks)[f], b)]
    {
      var t := forks[f];
      if b.index in t.blocks {
        return false;
      }
      t := t.(blocks := t.blocks[b.index := b.header]);
      for i := 0 to |b.txs|
        invariant SaveTransactions(t, b.txs[i..], b.index) == InsertBlock(forks[f], b)
      {
        assert b.txs[i..][1..] == b.txs[i + 1..];
        t := Ledger.SaveTransaction(t, b.txs[i], b.index);
      }
      forks := forks[f := t];
      return true;
    }

    method ReadFork(f: nat) returns (fork: seq<Block>)
      requires f in forks
      ensures var keys := Sorted(forks[f].blocks.Keys);
        && |fork| == |keys|
        && forall k :: 0 <= k < |keys| ==> keys[k] in forks[f].blocks && fork[k] == LoadBlock(forks[f], keys[k])
    {
      hide LoadTransactions, Sorted;
      var keys := Sorted(forks[f].blocks.Keys);
      fork := [];
      for i := 0 to |keys|
        invariant |fork| == i
        invariant forall k :: 0 <= k < i ==> keys[k] in forks[f].blocks && fork[k] == LoadBlock(forks[f], keys[k])
      {
        assert keys[i] in keys;
        fork := fork + [LoadBlock(forks[f], keys[i])];
      }
    }

    /** First reads the whole fork, then writes its blocks over main, then drops the fork's tables. */
    method ApplyFork(f: nat)
      requires f in forks
      modifies `main, `forks
      ensures main == ForkView.ApplyFork(old(main), old(forks)[f])
      ensures forks == old(forks) - {f}
    {
      hide LoadTransactions, Ledger.ReplaceBlock, Sorted;
      ghost var keys := Sorted(forks[f].blocks.Keys);
      var fork := ReadFork(f);
      for i := 0 to |fork|
        invariant forks == old(forks)
        invariant forall k :: k in keys[i..] ==> k in forks[f].blocks
        invariant ApplyBlocks(main, forks[f], keys[i..]) == ForkView.ApplyFork(old(main), forks[f])
      {
        assert keys[i..][1..] == keys[i + 1..];
        ReplaceBlock(fork[i]);
      }
      DeleteFork(f);
    }

    method DeleteFork(f: nat)
      modifies `forks
      ensures forks == old(forks) - {f}
    {
      forks := forks - {f};
    }

    // ---- the fork iterator

    predicate Iterating(f: nat, delivered: nat)
      reads this
    {
      && f in forks && iteratedFork == f
      && rows == Sorted(forks[f].blocks.Keys) && rows != []
      && (if delivered == 0 then !firstForkBlockReturned && position == 0
          else firstForkBlockReturned && position == delivered - 1)
    }

    /** Steps onto the first row at once, so the first call of NextBlock must not step again. */
    method IterateOverForkBlocks(f: nat)
      requires f in forks && forks[f].blocks.Keys != {}
      modifies `iteratedFork, `rows, `position, `firstForkBlockReturned
      ensures Iterating(f, 0)
    {
      iteratedFork, rows, position, firstForkBlockReturned := f, Sorted(forks[f].blocks.Keys), 0, false;
      assert MinOf(forks[f].blocks.Keys) in rows;
    }

    method NextBlock(ghost f: nat, ghost delivered: nat) returns (more: bool)
      requires Iterating(f, delivered) && delivered <= |rows|
      modifies `position, `firstForkBlockReturned
      ensures more == (delivered < |rows|)
      ensures Iterating(f, delivered + 1)
    {
      if firstForkBlockReturned {
        position := position + 1;
        more := position < |rows|;
      } else {
        more := true;
        firstForkBlockReturned := true;
      }
    }

    method GetBlock(ghost f: nat, ghost delivered: nat) returns (b: Block)
      requires 1 <= delivered <= |rows| && Iterating(f, delivered)
      ensures rows[delivered - 1] in forks[f].blocks && b == LoadBlock(forks[f], rows[delivered - 1])
    {
      assert rows[position] in rows;
      b := LoadBlock(forks[iteratedFork], rows[position]);
    }

    // ---- fork choice

    method IsLuckierChain(start: int, end: int, ln: real, f: nat) returns (luckier: bool)
      requires f != 0 ==> f in forks
      ensures var view := if f == 0 then MainView else ForkView(forks[f]);
        luckier == ForkChoice.IsLuckierChain(main, view, start, end, ln)
    {
      var sumLN := 0.0;
      var i := start;
      while i <= end
        invariant start <= i
        invariant sumLN + LuckBetween(main.blocks, i, end) == LuckBetween(main.blocks, start, end)
        decreases end - i
      {
        if i in main.blocks {
          sumLN := sumLN + main.blocks[i].ln;
        }
        i := i + 1;
      }
      if sumLN == ln {
        if f == 0 {
          return false;
        }
        if start in main.blocks && start in forks[f].blocks {
          return Before(main.blocks[start].hash, forks[f].blocks[start].hash);
        }
      }
      return sumLN < ln;
    }
  }

  // ------------------------------------------------ sums over the iterated rows

  function SumRows(blocks: map<int, Header>, keys: seq<int>): real
    requires forall k :: k in keys ==> k in blocks
  {
    if keys == [] then 0.0
    else
      var last := keys[|keys| - 1];
      assert last in keys;
      SumRows(blocks, keys[..|keys| - 1]) + blocks[last].ln
  }

  lemma SumRowsStep(blocks: map<int, Header>, keys: seq<int>, k: nat)
    requires forall x :: x in keys ==> x in blocks
    requires k <= |keys|
    ensures SumRows(blocks, keys[..0]) == 0.0
    ensures k < |keys| ==>
      keys[k] in blocks
      && SumRows(blocks, keys[..k + 1]) == SumRows(blocks, keys[..k]) + blocks[keys[k]].ln
  {
    if k < |keys| {
      var more := keys[..k + 1];
      assert keys[k] in keys;
      assert more[|more| - 1] == keys[k] && more[..|more| - 1] == keys[..k];
    }
  }

  ghost function Restricted(blocks: map<int, Header>, keys: seq<int>): map<int, Header> {
    map k | k in blocks && k in keys :: blocks[k]
  }

  lemma RestrictedNone(blocks: map<int, Header>)
    ensures Restricted(blocks, []).Keys == {}
  {}

  lemma RestrictedLast(blocks: map<int, Header>, keys: seq<int>)
    requires keys != [] && forall k :: k in keys ==> k in blocks
    requires forall i, j :: 0 <= i < j < |keys| ==> keys[i] < keys[j]
    ensures var n := |keys| - 1; var r := Restricted(blocks, keys);
      keys[n] in blocks && keys[n] in r && r[keys[n]] == blocks[keys[n]]
        && r - {keys[n]} == Restricted(blocks, keys[..n])
  {
    var n := |keys| - 1;
    LastIsNew(keys);
    var a, b := Restricted(blocks, keys) - {keys[n]}, Restricted(blocks, keys[..n]);
    assert a.Keys == b.Keys;
    assert a == b;
  }

  lemma LastIsNew(keys: seq<int>)
    requires keys != [] && forall i, j :: 0 <= i < j < |keys| ==> keys[i] < keys[j]
    ensures var n := |keys| - 1; keys[n] in keys && forall k :: k in keys[..n] <==> k in keys && k != keys[n]
  {
    var n := |keys| - 1;
    assert keys == keys[..n] + [keys[n]];
    assert keys[n] !in keys[..n];
  }

  lemma {:induction false} SumRowsIsLuck(blocks: map<int, Header>, keys: seq<int>)
    requires forall k :: k in keys ==> k in blocks
    requires forall i, j :: 0 <= i < j < |keys| ==> keys[i] < keys[j]
    ensures SumRows(blocks, keys) == Luck(Restricted(blocks, keys))
  {
    hide Luck, Restricted;
    if keys == [] {
      RestrictedNone(blocks);
      LuckEmpty(Restricted(blocks, []));
    } else {
      var n := |keys| - 1;
      SumRowsIsLuck(blocks, keys[..n]);
      RestrictedLast(blocks, keys);
      LuckAny(Restricted(blocks, keys), keys[n]);
    }
  }

  lemma ForkLuckIsSum(fork: Tables)
    requires fork.blocks.Keys != {}
    ensures ForkLuck(fork) == SumRows(fork.blocks, Sorted(fork.blocks.Keys))
  {
    hide Luck, LuckBetween;
    var keys := Sorted(fork.blocks.Keys);
    SumRowsIsLuck(fork.blocks, keys);
    assert Restricted(fork.blocks, keys) == fork.blocks;
    BetweenIsLuck(fork.blocks, First(fork), MaxOf(fork.blocks.Keys));
    assert Within(fork.blocks, First(fork), MaxOf(fork.blocks.Keys)) == fork.blocks;
  }

  /** The start index the loop holds after k blocks. */
  function StartAfter(keys: seq<int>, k: nat): int
    requires k <= |keys|
  {
    if k == 0 then 0 else if StartAfter(keys, k - 1) == 0 then keys[k - 1] else StartAfter(keys, k - 1)
  }

  lemma StartAfterStep(keys: seq<int>, k: nat)
    requires k <= |keys|
    ensures StartAfter(keys, 0) == 0
    ensures k < |keys| ==> StartAfter(keys, k + 1) == if StartAfter(keys, k) == 0 then keys[k] else StartAfter(keys, k)
  {}

  lemma SortedHead(s: set<int>)
    requires s != {}
    ensures Sorted(s) != [] && Sorted(s)[0] == MinOf(s) && Sorted(s)[1..] == Sorted(s - {MinOf(s)})
  {}

  lemma {:induction false} StartAfterAll(fork: Tables)
    requires fork.blocks.Keys != {}
    ensures var keys := Sorted(fork.blocks.Keys); StartAfter(keys, |keys|) == StartIndex(fork)
  {
    hide Sorted, StartAfter;
    var s := fork.blocks.Keys;
    var keys := Sorted(s);
    SortedHead(s);
    StartZero(keys);
    if MinOf(s) != 0 {
      StartStays(keys, 1, |keys|);
    } else if s != {0} {
      var x := Pick(s - {0});
      SortedHead(s - {0});
      assert keys[1] == MinOf(s - {0});
      StartSecond(keys);
      StartStays(keys, 2, |keys|);
    } else {
      SortedEmpty(s - {0});
    }
  }

  lemma SortedEmpty(s: set<int>)
    requires s == {}
    ensures Sorted(s) == []
  {}

  lemma StartZero(keys: seq<int>)
    requires keys != []
    ensures StartAfter(keys, 1) == keys[0]
  {}

  lemma StartSecond(keys: seq<int>)
    requires |keys| > 1 && keys[0] == 0
    ensures StartAfter(keys, 2) == keys[1]
  {
    StartZero(keys);
  }

  lemma StartStays(keys: seq<int>, i: nat, k: nat)
    requires i <= k <= |keys| && StartAfter(keys, i) != 0
    ensures StartAfter(keys, k) == StartAfter(keys, i)
  {
    if i < k { StartStays(keys, i, k - 1); }
  }

  ghost predicate Verified(env: Env, main: Tables, fork: Tables, keys: seq<int>)
    requires fork.blocks.Keys != {}
  {
    forall k :: k in keys ==>
      k in fork.blocks
      && Verification.VerifyBlock(env, main, ForkView(fork), LoadBlock(fork, k))
  }

  lemma VerifiedNone(env: Env, main: Tables, fork: Tables)
    requires fork.blocks.Keys != {}
    ensures Verified(env, main, fork, [])
  {}

  lemma VerifiedMore(env: Env, main: Tables, fork: Tables, keys: seq<int>, k: nat)
    requires fork.blocks.Keys != {} && k < |keys| && Verified(env, main, fork, keys[..k])
    requires keys[k] in fork.blocks && Verification.VerifyBlock(env, main, ForkView(fork), LoadBlock(fork, keys[k]))
    ensures Verified(env, main, fork, keys[..k + 1])
  {
    assert keys[..k + 1] == keys[..k] + [keys[k]];
  }

  /** What the loop of checkTempChain has established when it ends. */
  lemma CheckedAll(env: Env, main: Tables, fork: Tables)
    requires fork.blocks.Keys != {}
    requires Verified(env, main, fork, Sorted(fork.blocks.Keys))
    ensures AllBlocksVerify(env, main, fork)
  {
  }

  lemma NotAllVerify(env: Env, main: Tables, fork: Tables, i: int)
    requires i in fork.blocks && !Verification.VerifyBlock(env, main, ForkView(fork), LoadBlock(fork, i))
    ensures !AllBlocksVerify(env, main, fork)
  {}

  lemma IteratesSorted(db: Database, f: nat, delivered: nat)
    requires db.Iterating(f, delivered)
    ensures f in db.forks && db.rows == Sorted(db.forks[f].blocks.Keys)
  {}

  class Blockchain {
    const db: Database
    var mempool: seq<Transaction>

    constructor (db: Database)
      ensures this.db == db && mempool == []
    {
      this.db := db;
      mempool := [];
    }

    ghost function Now(): Node.State
      reads this, db
    {
      State(db.main, db.forks, db.counter, mempool)
    }

    function ViewOf(f: nat): View
      requires f != 0 ==> f in db.forks
      reads this, db
    {
      if f == 0 then MainView else ForkView(db.forks[f])
    }

    method VerifyBlock(env: Env, b: Block, f: nat) returns (valid: bool)
      requires f != 0 ==> f in db.forks && db.forks[f].blocks.Keys != {}
      ensures valid == Verification.VerifyBlock(env, db.main, ViewOf(f), b)
    {
      hide ExistsTransaction, ValidTransaction, Balance, InputSum, Linked, Certified;
      var view := ViewOf(f);
      if env.merkleRoot(b.txs) != b.header.merkle {
        return false;
      }
      if !Linked(env, db.main, view, b) {
        return false;
      }
      if env.blockHash(b.header.prev, b.header.ln, b.header.merkle, b.header.timestamp) != b.header.hash {
        return false;
      }
      var coinbase, reward, out := 0, 0, 0;
      ghost var all := CheckTransactions(env, db.main, view, b.index, b.txs, Totals(0, 0, 0));
      for i := 0 to |b.txs|
        invariant CheckTransactions(env, db.main, view, b.index, b.txs[i..], Totals(coinbase, reward, out)) == all
      {
        var tx := b.txs[i];
        assert b.txs[i..][1..] == b.txs[i + 1..];
        if ExistsTransaction(db.main, view, tx.hash, b.index) {
          return false;
        }
        if !ValidTransaction(env, tx) {
          if tx.inputs != [] || tx.value > MINER_REWARD {
            return false;
          }
          coinbase := coinbase + 1;
          reward := tx.value;
          if coinbase > 1 {
            return false;
          }
        } else {
          if Balance(db.main, view, tx.sender, b.index - 1) < tx.value {
            return false;
          }
          if tx.value <= 0 {
            return false;
          }
        }
        out := out + tx.value;
      }
      if InputSum(db.main, view, b.index) + reward != out {
        return false;
      }
      return Certified(env, b);
    }

    /** Verifies the fork block by block while adding up its luck. */
    method VerifyFork(env: Env, f: nat) returns (valid: bool, forkLN: real, firstForkBlockIndex: int)
      requires f in db.forks && f != 0 && db.forks[f].blocks.Keys != {}
      modifies db`iteratedFork, db`rows, db`position, db`firstForkBlockReturned
      ensures valid == AllBlocksVerify(env, db.main, db.forks[f])
      ensures valid ==> forkLN == ForkLuck(db.forks[f]) && firstForkBlockIndex == StartIndex(db.forks[f])
    {
      hide Verification.VerifyBlock, Sorted, AllBlocksVerify, ForkLuck, StartIndex, LoadTransactions, Verified,
           SumRows, StartAfter, Database.Iterating;
      db.IterateOverForkBlocks(f);
      ghost var fork := db.forks[f];
      ghost var keys := db.rows;
      assert keys == Sorted(fork.blocks.Keys) by { IteratesSorted(db, f, 0); }
      forkLN := 0.0;
      firstForkBlockIndex := 0;
      ghost var k := 0;
      VerifiedNone(env, db.main, fork);
      assert keys[..0] == [];
      SumRowsStep(fork.blocks, keys, 0);
      StartAfterStep(keys, 0);
      var more := db.NextBlock(f, k);
      while more
        invariant k <= |keys| && db.rows == keys && keys == Sorted(fork.blocks.Keys) && db.Iterating(f, k + 1)
        invariant more == (k < |keys|)
        invariant Verified(env, db.main, fork, keys[..k])
        invariant forkLN == SumRows(fork.blocks, keys[..k])
        invariant firstForkBlockIndex == StartAfter(keys, k)
        decreases |keys| - k
      {
        var b := db.GetBlock(f, k + 1);
        if firstForkBlockIndex == 0 {
          firstForkBlockIndex := b.index;
        }
        valid := VerifyBlock(env, b, f);
        if !valid {
          NotAllVerify(env, db.main, fork, keys[k]);
          return;
        }
        VerifiedMore(env, db.main, fork, keys, k);
        SumRowsStep(fork.blocks, keys, k);
        StartAfterStep(keys, k);
        forkLN := forkLN + b.header.ln;
        k := k + 1;
        more := db.NextBlock(f, k);
      }
      assert keys[..k] == keys;
      ForkLuckIsSum(fork);
      StartAfterAll(fork);
      CheckedAll(env, db.main, fork);
      valid := true;
    }

    method CheckTempChain(env: Env, f: nat) returns (result: int)
      requires f in db.forks && f != 0 && db.forks[f].blocks.Keys != {}
      modifies db`iteratedFork, db`rows, db`position, db`firstForkBlockReturned
      ensures result == ForkChoice.CheckTempChain(env, db.main, db.forks[f])
    {
      var valid, forkLN, firstForkBlockIndex := VerifyFork(env, f);
      if !valid {
        return -2;
      }
      var luckier := db.IsLuckierChain(firstForkBlockIndex, LastIndex(db.main), forkLN, f);
      return if luckier then 0 else -1;
    }

    method MempoolUpdate(f: nat)
      requires f in db.forks && db.forks[f].blocks.Keys != {}
      modifies `mempool
      ensures mempool == UpdatePool(old(mempool), db.main, db.forks[f])
    {
      var toAdd := Dropped(db.main, db.forks[f]);
      var toDelete := Rows(db.forks[f]);
      for t := 0 to |toAdd|
        invariant AddDropped(mempool, toAdd[t..]) == AddDropped(old(mempool), toAdd)
      {
        assert toAdd[t..][1..] == toAdd[t + 1..];
        if ReturnsToPool(toAdd[t]) {
          mempool := AddToPool(mempool, toAdd[t]);
        }
      }
      for t := 0 to |toDelete|
        invariant RemoveAll(mempool, toDelete[t..]) == UpdatePool(old(mempool), db.main, db.forks[f])
      {
        assert toDelete[t..][1..] == toDelete[t + 1..];
        EraseFirst(toDelete[t].hash);
      }
    }

    method EraseFirst(hash: string)
      modifies `mempool
      ensures mempool == RemoveFirst(old(mempool), hash)
    {
      for m := 0 to |mempool|
        invariant mempool == old(mempool)
        invariant mempool[..m] + RemoveFirst(mempool[m..], hash) == RemoveFirst(mempool, hash)
      {
        if mempool[m].hash == hash {
          assert mempool[m..][1..] == mempool[m + 1..];
          mempool := mempool[..m] + mempool[m + 1..];
          return;
        }
        assert mempool[m..][1..] == mempool[m + 1..];
        assert mempool[..m] + [mempool[m]] == mempool[..m + 1];
      }
    }

    method HandleBlock(env: Env, b: Block, forkId: nat) returns (result: int, newForkId: nat)
      requires Ok(Now()) && (forkId == 0 || forkId in db.forks)
      modifies `mempool, db
      ensures var o := Handle(env, old(Now()), b, forkId);
        Now() == o.state && result == o.result && newForkId == o.forkId
    {
      hide Consistent, ForkChoice.CheckTempChain, UpdatePool, ForkView.ApplyFork, LastIndex, Certified, InsertBlock;
      ghost var s := Now();
      CollectOk(s, b, forkId);
      newForkId := forkId;
      if b.index - 1 <= LastIndex(db.main) && b.header.prev == HashAt(db.main, b.index - 1) {
        if newForkId == 0 {
          newForkId := db.CreateFork();
        }
        var stored := db.AddToFork(b, newForkId);
        assert db.forks == Collect(s, b, forkId).0.forks;
        result := CheckTempChain(env, newForkId);
        if result == 0 {
          MempoolUpdate(newForkId);
          db.ApplyFork(newForkId);
          return;
        }
      } else {
        if Certified(env, b) {
          if newForkId == 0 {
            newForkId := db.CreateFork();
          }
          var stored := db.AddToFork(b, newForkId);
          assert db.forks == Collect(s, b, forkId).0.forks;
          result := b.index - 1;
          return;
        }
        result := -2;
      }
      if newForkId != 0 {
        db.DeleteFork(newForkId);
      }
    }
  }
}
