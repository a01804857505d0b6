/** The relational tables of the node: blocks, transactions and inputs.

    The main chain and every fork use the same three tables, so one datatype
    describes both. Row ids are modelled because the inputs of a transaction
    are found through them. Hashes and keys are compared with plain equality. */
module Ledger {

  datatype Transaction = Transaction(sender: string, recipient: string, value: int, hash: string,
                                     timestamp: int, numOfInputs: int, inputs: seq<string>)

  datatype Header = Header(hash: string, prev: string, merkle: string, ln: real, timestamp: int, certificate: string)

  datatype Block = Block(index: int, header: Header, txs: seq<Transaction>)

  /** A row of TRANSACTIONS without its id. */
  datatype TxData = TxData(hash: string, block: int, sender: string, recipient: string, value: int,
                           numOfInputs: int, timestamp: int)

  datatype TxRow = TxRow(id: nat, data: TxData)

  /** A row of INPUT: `tx` is the id of the spending row. */
  datatype InputRow = InputRow(hash: string, tx: nat, block: int)

  datatype Tables = Tables(blocks: map<int, Header>, txs: seq<TxRow>, inputs: seq<InputRow>)

  const EmptyTables := Tables(map[], [], [])

  // ---------------------------------------------------------------- writing

  /** The id an INTEGER PRIMARY KEY column gives to the next row: one above the largest. */
  function NextId(txs: seq<TxRow>): (id: nat)
    ensures forall r :: r in txs ==> r.id < id
  {
    if txs == [] then 1
    else
      var rest := NextId(txs[1..]);
      if txs[0].id < rest then rest else txs[0].id + 1
  }

  function DataOf(tx: Transaction, block: int): TxData {
    TxData(tx.hash, block, tx.sender, tx.recipient, tx.value, tx.numOfInputs, tx.timestamp)
  }

  function InputRows(inputs: seq<string>, id: nat, block: int): seq<InputRow> {
    if inputs == [] then [] else [InputRow(inputs[0], id, block)] + InputRows(inputs[1..], id, block)
  }

  function SaveTransaction(t: Tables, tx: Transaction, block: int): Tables {
    var id := NextId(t.txs);
    Tables(t.blocks, t.txs + [TxRow(id, DataOf(tx, block))], t.inputs + InputRows(tx.inputs, id, block))
  }

  function SaveTransactions(t: Tables, txs: seq<Transaction>, block: int): Tables
    decreases |txs|
  {
    if txs == [] then t else SaveTransactions(SaveTransaction(t, txs[0], block), txs[1..], block)
  }

  /** INSERT into a fork: a second block with the same index violates the key, and nothing is stored. */
  function InsertBlock(t: Tables, b: Block): Tables {
    if b.index in t.blocks then t
    else SaveTransactions(t.(blocks := t.blocks[b.index := b.header]), b.txs, b.index)
  }

  function TxsOutside(txs: seq<TxRow>, s: set<int>): seq<TxRow> {
    if txs == [] then []
    else if txs[0].data.block in s then TxsOutside(txs[1..], s)
    else [txs[0]] + TxsOutside(txs[1..], s)
  }

  function TxsInside(txs: seq<TxRow>, s: set<int>): seq<TxRow> {
    if txs == [] then []
    else if txs[0].data.block in s then [txs[0]] + TxsInside(txs[1..], s)
    else TxsInside(txs[1..], s)
  }

  function InputsOutside(ins: seq<InputRow>, s: set<int>): seq<InputRow> {
    if ins == [] then []
    else if ins[0].block in s then InputsOutside(ins[1..], s)
    else [ins[0]] + InputsOutside(ins[1..], s)
  }

  /** INSERT OR REPLACE of the block row, deletion of the old transactions and inputs, insertion of the new ones. */
  function ReplaceBlock(t: Tables, b: Block): Tables {
    SaveTransactions(Tables(t.blocks[b.index := b.header], TxsOutside(t.txs, {b.index}),
                            InputsOutside(t.inputs, {b.index})), b.txs, b.index)
  }

  // ---------------------------------------------------------------- reading

  function LoadInput(ins: seq<InputRow>, id: nat): seq<string> {
    if ins == [] then []
    else if ins[0].tx == id then [ins[0].hash] + LoadInput(ins[1..], id)
    else LoadInput(ins[1..], id)
  }

  function LoadTransaction(r: TxRow, ins: seq<InputRow>): Transaction {
    Transaction(r.data.sender, r.data.recipient, r.data.value, r.data.hash, r.data.timestamp,
                r.data.numOfInputs, LoadInput(ins, r.id))
  }

  function LoadRows(rows: seq<TxRow>, ins: seq<InputRow>): (txs: seq<Transaction>)
    ensures |txs| == |rows|
  {
    if rows == [] then [] else [LoadTransaction(rows[0], ins)] + LoadRows(rows[1..], ins)
  }

  function LoadTransactions(t: Tables, block: int): seq<Transaction> {
    LoadRows(TxsInside(t.txs, {block}), t.inputs)
  }

  function LoadBlock(t: Tables, index: int): Block
    requires index in t.blocks
  {
    Block(index, t.blocks[index], LoadTransactions(t, index))
  }

  // ------------------------------------------------------------- invariants

  ghost predicate Ascending(txs: seq<TxRow>) {
    forall i, j :: 0 <= i < j < |txs| ==> txs[i].id < txs[j].id
  }

  /** Ids ascend in storage order, and every input row belongs to a stored transaction of the same block. */
  ghost predicate Consistent(t: Tables) {
    && Ascending(t.txs)
    && (forall q :: q in t.inputs ==> exists r :: r in t.txs && r.id == q.tx && r.data.block == q.block)
    && (forall r :: r in t.txs ==> r.data.block in t.blocks)
  }

  lemma ConsistentEmpty()
    ensures Consistent(EmptyTables)
  {}

  lemma InputRowsContents(inputs: seq<string>, id: nat, block: int)
    ensures forall q :: q in InputRows(inputs, id, block) ==> q.tx == id && q.block == block
  {}

  lemma SaveTransactionConsistent(t: Tables, tx: Transaction, block: int)
    requires Consistent(t) && block in t.blocks
    ensures Consistent(SaveTransaction(t, tx, block)) && SaveTransaction(t, tx, block).blocks == t.blocks
  {
    var t' := SaveTransaction(t, tx, block);
    var id := NextId(t.txs);
    InputRowsContents(tx.inputs, id, block);
    var last := TxRow(id, DataOf(tx, block));
    assert t'.txs[|t.txs|] == last;
    forall q | q in t'.inputs
      ensures exists r :: r in t'.txs && r.id == q.tx && r.data.block == q.block
    {
      if q in t.inputs {
        var r :| r in t.txs && r.id == q.tx && r.data.block == q.block;
        assert r in t'.txs;
      } else {
        assert last in t'.txs;
      }
    }
  }

  lemma SaveTransactionsConsistent(t: Tables, txs: seq<Transaction>, block: int)
    requires Consistent(t) && block in t.blocks
    ensures Consistent(SaveTransactions(t, txs, block))
    ensures SaveTransactions(t, txs, block).blocks == t.blocks
    decreases |txs|
  {
    if txs != [] {
      SaveTransactionConsistent(t, txs[0], block);
      SaveTransactionsConsistent(SaveTransaction(t, txs[0], block), txs[1..], block);
    }
  }

  lemma OutsideContents(txs: seq<TxRow>, s: set<int>)
    ensures forall r :: r in TxsOutside(txs, s) <==> r in txs && r.data.block !in s
  {}

  lemma InsideContents(txs: seq<TxRow>, s: set<int>)
    ensures forall r :: r in TxsInside(txs, s) <==> r in txs && r.data.block in s
  {}

  lemma InputsOutsideContents(ins: seq<InputRow>, s: set<int>)
    ensures forall q :: q in InputsOutside(ins, s) <==> q in ins && q.block !in s
  {}

  lemma OutsideAscending(txs: seq<TxRow>, s: set<int>)
    requires Ascending(txs)
    ensures Ascending(TxsOutside(txs, s))
  {
    hide TxsOutside, Ascending;
    OutsideHead(txs, s);
    if txs == [] {
      assert Ascending([]) by { AscendingNone(); }
    } else {
      AscendingTail(txs);
      OutsideAscending(txs[1..], s);
      OutsideContents(txs[1..], s);
      AscendingCons(txs[0], TxsOutside(txs[1..], s));
    }
  }

  lemma AscendingNone()
    ensures Ascending([])
  {}

  lemma AscendingTail(txs: seq<TxRow>)
    requires Ascending(txs) && txs != []
    ensures Ascending(txs[1..]) && forall r :: r in txs[1..] ==> txs[0].id < r.id
  {
    forall r | r in txs[1..] ensures txs[0].id < r.id {
      var j :| 0 <= j < |txs[1..]| && txs[1..][j] == r;
      assert txs[j + 1] == r;
    }
  }

  lemma AscendingCons(r: TxRow, rest: seq<TxRow>)
    requires Ascending(rest) && forall x :: x in rest ==> r.id < x.id
    ensures Ascending([r] + rest)
  {
    var all := [r] + rest;
    forall i, j | 0 <= i < j < |all| ensures all[i].id < all[j].id {
      assert all[j] == rest[j - 1] && rest[j - 1] in rest;
      if i > 0 { assert all[i] == rest[i - 1]; }
    }
  }

  lemma OutsideHead(txs: seq<TxRow>, s: set<int>)
    ensures TxsOutside(txs, s) ==
      if txs == [] then [] else if txs[0].data.block in s then TxsOutside(txs[1..], s)
        else [txs[0]] + TxsOutside(txs[1..], s)
  {}

  /** Deleting the rows of a block and reserving its header keeps the tables consistent. */
  lemma ClearedConsistent(t: Tables, b: Block)
    requires Consistent(t)
    ensures Consistent(Tables(t.blocks[b.index := b.header], TxsOutside(t.txs, {b.index}),
                              InputsOutside(t.inputs, {b.index})))
  {
    OutsideAscending(t.txs, {b.index});
    OutsideContents(t.txs, {b.index});
    InputsOutsideContents(t.inputs, {b.index});
    var kept := TxsOutside(t.txs, {b.index});
    forall q | q in InputsOutside(t.inputs, {b.index})
      ensures exists r :: r in kept && r.id == q.tx && r.data.block == q.block
    {
      var r :| r in t.txs && r.id == q.tx && r.data.block == q.block;
      assert r in kept;
    }
    assert forall r :: r in kept ==> r in t.txs;
  }

  lemma ReplaceBlockConsistent(t: Tables, b: Block)
    requires Consistent(t)
    ensures Consistent(ReplaceBlock(t, b))
    ensures ReplaceBlock(t, b).blocks == t.blocks[b.index := b.header]
  {
    ClearedConsistent(t, b);
    SaveTransactionsConsistent(Tables(t.blocks[b.index := b.header], TxsOutside(t.txs, {b.index}),
                                      InputsOutside(t.inputs, {b.index})), b.txs, b.index);
  }

  lemma InsertBlockConsistent(t: Tables, b: Block)
    requires Consistent(t)
    ensures Consistent(InsertBlock(t, b))
    ensures InsertBlock(t, b).blocks == if b.index in t.blocks then t.blocks else t.blocks[b.index := b.header]
  {
    if b.index !in t.blocks {
      SaveTransactionsConsistent(t.(blocks := t.blocks[b.index := b.header]), b.txs, b.index);
    }
  }

  // ------------------------------------------------------------ round trips

  lemma {:induction false} InsideConcat(a: seq<TxRow>, b: seq<TxRow>, s: set<int>)
    ensures TxsInside(a + b, s) == TxsInside(a, s) + TxsInside(b, s)
  {
    if a == [] {
      assert a + b == b;
    } else {
      assert (a + b)[1..] == a[1..] + b;
      InsideConcat(a[1..], b, s);
    }
  }

  lemma {:induction false} LoadRowsConcat(a: seq<TxRow>, b: seq<TxRow>, ins: seq<InputRow>)
    ensures LoadRows(a + b, ins) == LoadRows(a, ins) + LoadRows(b, ins)
  {
    if a == [] {
      assert a + b == b;
    } else {
      assert (a + b)[1..] == a[1..] + b;
      LoadRowsConcat(a[1..], b, ins);
    }
  }

  lemma {:induction false} LoadInputConcat(a: seq<InputRow>, b: seq<InputRow>, id: nat)
    ensures LoadInput(a + b, id) == LoadInput(a, id) + LoadInput(b, id)
  {
    if a == [] {
      assert a + b == b;
    } else {
      assert (a + b)[1..] == a[1..] + b;
      LoadInputConcat(a[1..], b, id);
    }
  }

  lemma LoadInputAbsent(ins: seq<InputRow>, id: nat)
    requires forall q :: q in ins ==> q.tx != id
    ensures LoadInput(ins, id) == []
  {}

  lemma LoadInputRows(inputs: seq<string>, id: nat, block: int)
    ensures LoadInput(InputRows(inputs, id, block), id) == inputs
  {}

  /** Rows whose ids differ from the id of freshly stored inputs load the same transactions as before. */
  lemma {:induction false} LoadRowsUnaffected(rows: seq<TxRow>, ins: seq<InputRow>, more: seq<InputRow>)
    requires forall r, q :: r in rows && q in more ==> r.id != q.tx
    ensures LoadRows(rows, ins + more) == LoadRows(rows, ins)
  {
    if rows != [] {
      assert rows[0] in rows;
      assert LoadInput(ins, rows[0].id) + [] == LoadInput(ins, rows[0].id);
      LoadInputConcat(ins, more, rows[0].id);
      LoadInputAbsent(more, rows[0].id);
      LoadRowsUnaffected(rows[1..], ins, more);
    }
  }

  /** Storing one transaction appends exactly that transaction to its block and leaves every other block alone. */
  lemma SaveThenLoad(t: Tables, tx: Transaction, block: int, other: int)
    requires Consistent(t) && block in t.blocks
    ensures LoadTransactions(SaveTransaction(t, tx, block), other)
         == LoadTransactions(t, other) + (if other == block then [tx] else [])
  {
    var id := NextId(t.txs);
    var row := TxRow(id, DataOf(tx, block));
    var added := InputRows(tx.inputs, id, block);
    InputRowsContents(tx.inputs, id, block);
    InsideConcat(t.txs, [row], {other});
    InsideContents(t.txs, {other});
    var old_ := TxsInside(t.txs, {other});
    LoadRowsUnaffected(old_, t.inputs, added);
    forall q | q in t.inputs ensures q.tx != id {
      var r :| r in t.txs && r.id == q.tx && r.data.block == q.block;
    }
    LoadInputConcat(t.inputs, added, id);
    LoadInputAbsent(t.inputs, id);
    LoadInputRows(tx.inputs, id, block);
    assert LoadTransaction(row, t.inputs + added) == tx;
    LoadRowsConcat(old_, TxsInside([row], {other}), t.inputs + added);
    if other == block {
      assert TxsInside([row], {other}) == [row];
      assert LoadRows([row], t.inputs + added) == [tx];
    } else {
      assert TxsInside([row], {other}) == [];
    }
  }

  lemma {:induction false} SaveAllThenLoad(t: Tables, txs: seq<Transaction>, block: int, other: int)
    requires Consistent(t) && block in t.blocks
    ensures LoadTransactions(SaveTransactions(t, txs, block), other)
         == LoadTransactions(t, other) + (if other == block then txs else [])
    decreases |txs|
  {
    hide LoadTransactions, Consistent, SaveTransaction;
    if txs != [] {
      SaveTransactionConsistent(t, txs[0], block);
      SaveThenLoad(t, txs[0], block, other);
      SaveAllThenLoad(SaveTransaction(t, txs[0], block), txs[1..], block, other);
      var before := LoadTransactions(t, other);
      assert before + [txs[0]] + txs[1..] == before + txs;
      assert before + [] + [] == before + [];
    } else {
      assert LoadTransactions(t, other) + [] == LoadTransactions(t, other);
    }
  }

  lemma InsideOutside(txs: seq<TxRow>, s: set<int>, other: int)
    ensures TxsInside(TxsOutside(txs, s), {other}) == if other in s then [] else TxsInside(txs, {other})
  {
    if txs != [] {
      InsideOutside(txs[1..], s, other);
    }
  }

  /** Deleting the inputs of one block does not touch the inputs loaded for rows of another. */
  lemma {:induction false} LoadInputOutside(ins: seq<InputRow>, id: nat, index: int)
    requires forall q :: q in ins && q.tx == id ==> q.block != index
    ensures LoadInput(InputsOutside(ins, {index}), id) == LoadInput(ins, id)
  {
    if ins != [] {
      assert forall q :: q in ins[1..] ==> q in ins;
      LoadInputOutside(ins[1..], id, index);
      assert ins[0] in ins;
    }
  }

  lemma {:induction false} LoadRowsOutside(rows: seq<TxRow>, ins: seq<InputRow>, index: int)
    requires forall r, q :: r in rows && q in ins && q.tx == r.id ==> q.block != index
    ensures LoadRows(rows, InputsOutside(ins, {index})) == LoadRows(rows, ins)
  {
    if rows != [] {
      assert rows[0] in rows;
      LoadInputOutside(ins, rows[0].id, index);
      LoadRowsOutside(rows[1..], ins, index);
    }
  }

  lemma SameId(t: Tables, r: TxRow, r': TxRow)
    requires Consistent(t) && r in t.txs && r' in t.txs && r.id == r'.id
    ensures r == r'
  {
    var i :| 0 <= i < |t.txs| && t.txs[i] == r;
    var j :| 0 <= j < |t.txs| && t.txs[j] == r';
  }

  /** Replacing a block stores exactly that block and changes no other. */
  lemma ReplaceThenLoad(t: Tables, b: Block, other: int)
    requires Consistent(t)
    ensures LoadTransactions(ReplaceBlock(t, b), other) == if other == b.index then b.txs
      else LoadTransactions(t, other)
  {
    var cleared := Tables(t.blocks[b.index := b.header], TxsOutside(t.txs, {b.index}),
                          InputsOutside(t.inputs, {b.index}));
    ClearedConsistent(t, b);
    SaveAllThenLoad(cleared, b.txs, b.index, other);
    InsideOutside(t.txs, {b.index}, other);
    if other != b.index {
      var rows := TxsInside(t.txs, {other});
      InsideContents(t.txs, {other});
      forall r, q | r in rows && q in t.inputs && q.tx == r.id ensures q.block != b.index {
        var r' :| r' in t.txs && r'.id == q.tx && r'.data.block == q.block;
        SameId(t, r, r');
      }
      LoadRowsOutside(rows, t.inputs, b.index);
    } else {
      assert LoadTransactions(cleared, other) == [];
    }
  }

  /** Inserting a block with a fresh index stores exactly that block and changes no other. */
  lemma InsertThenLoad(t: Tables, b: Block, other: int)
    requires Consistent(t) && b.index !in t.blocks
    ensures LoadTransactions(InsertBlock(t, b), other) == if other == b.index then b.txs else LoadTransactions(t, other)
  {
    var reserved := t.(blocks := t.blocks[b.index := b.header]);
    SaveAllThenLoad(reserved, b.txs, b.index, other);
    if other == b.index {
      InsideContents(t.txs, {other});
      if TxsInside(t.txs, {other}) != [] {
        assert TxsInside(t.txs, {other})[0] in TxsInside(t.txs, {other});
      }
      assert LoadTransactions(reserved, other) == [];
    }
  }
}
