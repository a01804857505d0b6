/** What the queries of the node answer on the main chain and on a fork.

    A fork is read as an overlay: main below the first fork block, then the fork's
    own rows. Adopting the fork writes its blocks over main. This module proves when
    the overlay and the chain after adoption give the same answers. */
module ForkView {
  import opened Ledger

  datatype Option<T> = None | Some(value: T)

  datatype View = MainView | ForkView(fork: Tables)

  // ------------------------------------------------------------ key ranges

  lemma Pick<T>(s: set<T>) returns (x: T)
    requires s != {}
    ensures x in s
  {
    x :| x in s;
  }

  lemma MinExists(s: set<int>)
    requires s != {}
    ensures exists m :: m in s && forall x :: x in s ==> m <= x
  {
    var x := Pick(s);
    if s != {x} {
      var rest := s - {x};
      assert s == rest + {x};
      MinExists(rest);
      var m :| m in rest && forall y :: y in rest ==> m <= y;
      var n := if m < x then m else x;
      assert n in s && forall y :: y in s ==> n <= y;
    } else {
      assert x in s && forall y :: y in s ==> x <= y;
    }
  }

  lemma MaxExists(s: set<int>)
    requires s != {}
    ensures exists m :: m in s && forall x :: x in s ==> x <= m
  {
    var x := Pick(s);
    if s != {x} {
      var rest := s - {x};
      assert s == rest + {x};
      MaxExists(rest);
      var m :| m in rest && forall y :: y in rest ==> y <= m;
      var n := if m < x then x else m;
      assert n in s && forall y :: y in s ==> y <= n;
    } else {
      assert x in s && forall y :: y in s ==> y <= x;
    }
  }

  function MinOf(s: set<int>): (m: int)
    requires s != {}
    ensures m in s && forall x :: x in s ==> m <= x
  {
    MinExists(s);
    var m :| m in s && forall x :: x in s ==> m <= x;
    m
  }

  function MaxOf(s: set<int>): (m: int)
    requires s != {}
    ensures m in s && forall x :: x in s ==> x <= m
  {
    MaxExists(s);
    var m :| m in s && forall x :: x in s ==> x <= m;
    m
  }

  /** SELECT without ORDER BY walks the integer primary key upwards. */
  function Sorted(s: set<int>): (keys: seq<int>)
    ensures forall k :: k in keys <==> k in s
    ensures forall i, j :: 0 <= i < j < |keys| ==> keys[i] < keys[j]
  {
    if s == {} then [] else
      var m := MinOf(s);
      var rest := Sorted(s - {m});
      assert forall i :: 0 <= i < |rest| ==> rest[i] in rest;
      [m] + rest
  }

  ghost predicate Contiguous(s: set<int>) {
    s != {} && forall i :: MinOf(s) <= i <= MaxOf(s) ==> i in s
  }

  // -------------------------------------------------------------- adoption

  /** The blocks of a fork are written over main one by one, in the order they are read. */
  function ApplyBlocks(main: Tables, fork: Tables, keys: seq<int>): Tables
    requires forall k :: k in keys ==> k in fork.blocks
    decreases |keys|
  {
    if keys == [] then main
    else ApplyBlocks(ReplaceBlock(main, LoadBlock(fork, keys[0])), fork, keys[1..])
  }

  function ApplyFork(main: Tables, fork: Tables): Tables {
    ApplyBlocks(main, fork, Sorted(fork.blocks.Keys))
  }

  lemma {:induction false} ApplyBlocksEffect(main: Tables, fork: Tables, keys: seq<int>)
    requires Consistent(main)
    requires forall k :: k in keys ==> k in fork.blocks
    ensures Consistent(ApplyBlocks(main, fork, keys))
    ensures ApplyBlocks(main, fork, keys).blocks == main.blocks + map k | k in keys :: fork.blocks[k]
    ensures forall other :: LoadTransactions(ApplyBlocks(main, fork, keys), other)
                         == LoadTransactions(if other in keys then fork else main, other)
    decreases |keys|
  {
    hide LoadTransactions, Consistent, ReplaceBlock;
    if keys != [] {
      var k := keys[0];
      var next := ReplaceBlock(main, LoadBlock(fork, k));
      ReplaceBlockConsistent(main, LoadBlock(fork, k));
      ApplyBlocksEffect(next, fork, keys[1..]);
      forall other
        ensures LoadTransactions(ApplyBlocks(main, fork, keys), other)
             == LoadTransactions(if other in keys then fork else main, other)
      {
        ReplaceThenLoad(main, LoadBlock(fork, k), other);
        assert other in keys <==> other == k || other in keys[1..];
      }
      assert keys == [k] + keys[1..];
      OverrideMore(main.blocks, fork.blocks, k, keys[1..]);
    }
  }

  lemma OverrideMore(blocks: map<int, Header>, over: map<int, Header>, first: int, rest: seq<int>)
    requires first in over && forall k :: k in rest ==> k in over
    ensures forall k :: k in [first] + rest ==> k in over
    ensures blocks[first := over[first]] + (map k | k in rest :: over[k])
      == blocks + map k | k in [first] + rest :: over[k]
  {
    var a := blocks[first := over[first]] + (map k | k in rest :: over[k]);
    var b := blocks + map k | k in [first] + rest :: over[k];
    assert a.Keys == b.Keys;
    assert a == b;
  }

  /** After adoption every fork block is read from main exactly as it was stored in the fork,
      and every other block of main is read as before. */
  lemma AdoptionLoads(main: Tables, fork: Tables)
    requires Consistent(main)
    ensures Consistent(ApplyFork(main, fork))
    ensures ApplyFork(main, fork).blocks == main.blocks + fork.blocks
    ensures forall other :: LoadTransactions(ApplyFork(main, fork), other)
                         == LoadTransactions(if other in fork.blocks then fork else main, other)
  {
    hide LoadTransactions, Consistent, ApplyBlocks;
    var keys := Sorted(fork.blocks.Keys);
    ApplyBlocksEffect(main, fork, keys);
    assert (map k | k in keys :: fork.blocks[k]) == fork.blocks;
  }

  // ------------------------------------------------ rows seen by the queries

  function RowData(txs: seq<TxRow>): (rows: seq<TxData>)
    ensures |rows| == |txs|
    ensures forall i :: 0 <= i < |txs| ==> rows[i] == txs[i].data
  {
    seq(|txs|, i requires 0 <= i < |txs| => txs[i].data)
  }

  function Rows(t: Tables): seq<TxData> { RowData(t.txs) }

  function BlockRows(txs: seq<Transaction>, block: int): seq<TxData> {
    seq(|txs|, i requires 0 <= i < |txs| => DataOf(txs[i], block))
  }

  lemma DataHead(r: TxRow, rows: seq<TxRow>)
    ensures RowData([r] + rows) == [r.data] + RowData(rows)
  {}

  lemma {:induction false} InsideCount(txs: seq<TxRow>, d: TxData)
    ensures multiset(RowData(txs))[d] == multiset(RowData(TxsInside(txs, {d.block})))[d]
  {
    hide RowData;
    if txs != [] {
      InsideCount(txs[1..], d);
      var inside := TxsInside(txs[1..], {d.block});
      DataHead(txs[0], txs[1..]);
      DataHead(txs[0], inside);
      assert [txs[0]] + txs[1..] == txs;
    }
  }

  lemma {:induction false} LoadedRows(rows: seq<TxRow>, ins: seq<InputRow>, block: int)
    requires forall r :: r in rows ==> r.data.block == block
    ensures BlockRows(LoadRows(rows, ins), block) == RowData(rows)
  {
    hide LoadTransaction, RowData, BlockRows;
    if rows == [] {
      assert |BlockRows([], block)| == 0 && |RowData([])| == 0 by { NoRows(block); }
    } else {
      LoadedRows(rows[1..], ins, block);
      var txs := LoadRows(rows, ins);
      RowsHead(rows, txs, block);
      assert rows[0] in rows;
      assert DataOf(txs[0], block) == rows[0].data by { LoadedData(rows[0], ins); }
    }
  }

  lemma LoadedData(r: TxRow, ins: seq<InputRow>)
    ensures DataOf(LoadTransaction(r, ins), r.data.block) == r.data
  {}

  lemma NoRows(block: int)
    ensures BlockRows([], block) == [] && RowData([]) == []
  {}

  lemma RowsHead(rows: seq<TxRow>, txs: seq<Transaction>, block: int)
    requires rows != [] && txs != []
    ensures RowData(rows) == [rows[0].data] + RowData(rows[1..])
    ensures BlockRows(txs, block) == [DataOf(txs[0], block)] + BlockRows(txs[1..], block)
  {
    hide DataOf;
  }

  /** How often a row occurs is decided by the transactions its block loads. */
  lemma RowCount(t: Tables, d: TxData)
    ensures multiset(Rows(t))[d] == multiset(BlockRows(LoadTransactions(t, d.block), d.block))[d]
  {
    InsideCount(t.txs, d);
    InsideContents(t.txs, {d.block});
    LoadedRows(TxsInside(t.txs, {d.block}), t.inputs, d.block);
  }

  /** The hashes block `block` names as inputs. */
  function SpentIn(ins: seq<InputRow>, block: int): seq<string> {
    if ins == [] then []
    else if ins[0].block == block then [ins[0].hash] + SpentIn(ins[1..], block)
    else SpentIn(ins[1..], block)
  }

  lemma SpentContents(ins: seq<InputRow>, block: int, h: string)
    ensures h in SpentIn(ins, block) <==> exists q :: q in ins && q.block == block && q.hash == h
  {
    if ins != [] {
      SpentContents(ins[1..], block, h);
      if h in SpentIn(ins, block) {
        if ins[0].block == block && ins[0].hash == h { assert ins[0] in ins; }
        else { var q :| q in ins[1..] && q.block == block && q.hash == h; assert q in ins; }
      }
    }
  }

  lemma LoadInputContents(ins: seq<InputRow>, id: nat, h: string)
    ensures h in LoadInput(ins, id) <==> exists q :: q in ins && q.tx == id && q.hash == h
  {
    if ins != [] {
      LoadInputContents(ins[1..], id, h);
      if h in LoadInput(ins, id) {
        if ins[0].tx == id && ins[0].hash == h { assert ins[0] in ins; }
        else { var q :| q in ins[1..] && q.tx == id && q.hash == h; assert q in ins; }
      }
    }
  }

  lemma LoadRowsAt(rows: seq<TxRow>, ins: seq<InputRow>, i: nat)
    requires i < |rows|
    ensures LoadRows(rows, ins)[i] == LoadTransaction(rows[i], ins)
  {
    if i > 0 { LoadRowsAt(rows[1..], ins, i - 1); }
  }

  /** Which hashes a block spends is decided by the transactions it loads. */
  lemma SpentByLoaded(t: Tables, block: int, h: string)
    requires Consistent(t)
    ensures h in SpentIn(t.inputs, block) <==> exists tx :: tx in LoadTransactions(t, block) && h in tx.inputs
  {
    var rows := TxsInside(t.txs, {block});
    InsideContents(t.txs, {block});
    SpentContents(t.inputs, block, h);
    if h in SpentIn(t.inputs, block) {
      var q :| q in t.inputs && q.block == block && q.hash == h;
      var r :| r in t.txs && r.id == q.tx && r.data.block == q.block;
      var i :| 0 <= i < |rows| && rows[i] == r;
      LoadRowsAt(rows, t.inputs, i);
      LoadInputContents(t.inputs, r.id, h);
      assert LoadTransactions(t, block)[i] in LoadTransactions(t, block);
    }
    if tx :| tx in LoadTransactions(t, block) && h in tx.inputs {
      var i :| 0 <= i < |rows| && LoadTransactions(t, block)[i] == tx;
      LoadRowsAt(rows, t.inputs, i);
      LoadInputContents(t.inputs, rows[i].id, h);
      var q :| q in t.inputs && q.tx == rows[i].id && q.hash == h;
      var r :| r in t.txs && r.id == q.tx && r.data.block == q.block;
      assert rows[i] in rows;
      SameId(t, r, rows[i]);
    }
  }

  /** The rows of main after adoption: main's own outside the fork's blocks, the fork's inside them. */
  lemma AdoptedRows(main: Tables, fork: Tables, d: TxData)
    requires Consistent(main)
    ensures multiset(Rows(ApplyFork(main, fork)))[d]
         == if d.block in fork.blocks then multiset(Rows(fork))[d] else multiset(Rows(main))[d]
  {
    hide LoadTransactions, ApplyFork, Rows, Consistent;
    AdoptionLoads(main, fork);
    RowCount(ApplyFork(main, fork), d);
    RowCount(main, d);
    RowCount(fork, d);
  }

  lemma AdoptedSpent(main: Tables, fork: Tables, block: int, h: string)
    requires Consistent(main) && Consistent(fork) && block in fork.blocks
    ensures h in SpentIn(ApplyFork(main, fork).inputs, block) <==> h in SpentIn(fork.inputs, block)
  {
    hide LoadTransactions, ApplyFork, Consistent;
    AdoptionLoads(main, fork);
    SpentByLoaded(ApplyFork(main, fork), block, h);
    SpentByLoaded(fork, block, h);
  }
}
