/** Runs from chains that verify, in which the node adopts forks that verify, and then holds a block that does not. */
module HarmfulForks {
  import opened Ledger
  import opened ForkView
  import opened Queries
  import opened Verification
  import opened ForkChoice
  import opened Node
  import opened Adoption

  // ------------------------------------------------------------ the environment

  const MINER := "GenesisMiner"
  const START := 1523013300

  /** A hash for each of the three headers below. */
  function HashOfTime(t: int): string {
    if t == START then "h1" else if t == START + 1 then "h2" else "h3"
  }

  /** Every real sender signs, and nobody signs a reward. */
  function ExampleEnv(): Env {
    Env(txs => "m", (p, l, m, t) => HashOfTime(t), (h, s, r, v, t) => s != "", (m, p, l, c) => true, START + 100, 0)
  }

  function HeaderOf(index: int, prev: string): Header {
    Header(HashOfTime(START + index - 1), prev, "m", 1.0, START + index - 1, "")
  }

  /** The block that every node starts with. */
  function GenesisBlock(): Block {
    Block(1, HeaderOf(1, "0"), [Transaction("", MINER, MINER_REWARD, "c", START, 0, [])])
  }

  function Genesis(): (t: Tables)
    ensures t.blocks.Keys == {1}
  {
    InsertedBlocks(EmptyTables, GenesisBlock());
    InsertBlock(EmptyTables, GenesisBlock())
  }

  // -------------------------------------------------------------- stored blocks

  lemma InsertedBlocks(t: Tables, b: Block)
    requires b.index !in t.blocks
    ensures InsertBlock(t, b).blocks == t.blocks[b.index := b.header]
  {
    SavedRows(t.(blocks := t.blocks[b.index := b.header]), b.txs, b.index);
  }

  lemma {:induction false} SavedRows(t: Tables, txs: seq<Transaction>, block: int)
    ensures Rows(SaveTransactions(t, txs, block)) == Rows(t) + BlockRows(txs, block)
    ensures SaveTransactions(t, txs, block).blocks == t.blocks
    decreases |txs|
  {
    if txs != [] {
      SavedRows(SaveTransaction(t, txs[0], block), txs[1..], block);
      assert Rows(SaveTransaction(t, txs[0], block)) == Rows(t) + [DataOf(txs[0], block)];
      assert BlockRows(txs, block) == [DataOf(txs[0], block)] + BlockRows(txs[1..], block);
    }
  }

  lemma InsertedRows(t: Tables, b: Block)
    requires b.index !in t.blocks
    ensures Rows(InsertBlock(t, b)) == Rows(t) + BlockRows(b.txs, b.index)
  {
    SavedRows(t.(blocks := t.blocks[b.index := b.header]), b.txs, b.index);
  }

  lemma RowOf(tx: Transaction, block: int)
    ensures BlockRows([tx], block) == [DataOf(tx, block)]
  {}

  /** What a block spends, when it loads as this one transaction. */
  lemma SpendsOf(t: Tables, block: int, tx: Transaction)
    requires Consistent(t) && LoadTransactions(t, block) == [tx]
    ensures forall h :: h in SpentIn(t.inputs, block) <==> h in tx.inputs
  {
    hide LoadTransactions, Consistent, SpentIn;
    forall h ensures h in SpentIn(t.inputs, block) <==> h in tx.inputs {
      SpentByLoaded(t, block, h);
    }
  }

  /** What a block spends, when all its transactions name the same input. */
  lemma SpendsOnly(t: Tables, block: int, input: string)
    requires Consistent(t) && LoadTransactions(t, block) != []
    requires forall tx :: tx in LoadTransactions(t, block) ==> tx.inputs == [input]
    ensures forall h :: h in SpentIn(t.inputs, block) <==> h == input
  {
    hide LoadTransactions, Consistent, SpentIn;
    assert LoadTransactions(t, block)[0] in LoadTransactions(t, block);
    forall h ensures h in SpentIn(t.inputs, block) <==> h == input {
      SpentByLoaded(t, block, h);
    }
  }

  lemma NothingJoined(rows: seq<TxData>, spent: seq<string>)
    requires forall d :: d in rows ==> d.hash !in spent
    ensures JoinedPairs(rows, spent) == []
  {}

  lemma JoinedHead(d: TxData, rows: seq<TxData>, spent: seq<string>)
    ensures JoinedPairs([d] + rows, spent)
      == (if d.hash in spent then [(d.hash, d.value)] else []) + JoinedPairs(rows, spent)
  {
    assert ([d] + rows)[1..] == rows;
  }

  lemma OnePair(hash: string, value: int)
    ensures SumDistinct([(hash, value)]) == value && [(hash, value)] + [] == [] + [(hash, value)] == [(hash, value)]
  {
    assert [(hash, value)][1..] == [];
  }

  // ----------------------------------------------------- one turn of the loop

  lemma CheckHead(env: Env, main: Tables, view: View, index: int, txs: seq<Transaction>, t: Totals)
    requires view.ForkView? ==> view.fork.blocks.Keys != {}
    requires txs != [] && !ExistsTransaction(main, view, txs[0].hash, index) && ValidTransaction(env, txs[0])
    requires 0 < txs[0].value <= Balance(main, view, txs[0].sender, index - 1)
    ensures CheckTransactions(env, main, view, index, txs, t)
         == CheckTransactions(env, main, view, index, txs[1..], t.(out := t.out + txs[0].value))
  {
    hide ExistsTransaction, Balance, ValidTransaction;
  }

  lemma CheckNone(env: Env, main: Tables, view: View, index: int, t: Totals)
    requires view.ForkView? ==> view.fork.blocks.Keys != {}
    ensures CheckTransactions(env, main, view, index, [], t) == Some(t)
  {
    hide ExistsTransaction, Balance, ValidTransaction;
  }

  lemma CheckReward(env: Env, main: Tables, index: int, tx: Transaction)
    requires !ExistsTransaction(main, MainView, tx.hash, index) && !ValidTransaction(env, tx)
    requires tx.inputs == [] && tx.value <= MINER_REWARD
    ensures CheckTransactions(env, main, MainView, index, [tx], Totals(0, 0, 0)) == Some(Totals(1, tx.value, tx.value))
  {
    hide ExistsTransaction, Balance, ValidTransaction;
    assert [tx][1..] == [];
  }

  /** Block 1 verifies on every main chain that begins with it. */
  lemma GenesisVerifies(main: Tables)
    requires Consistent(main) && 1 in main.blocks && 0 !in main.blocks && LoadBlock(main, 1) == GenesisBlock()
    requires forall d :: d in Rows(main) ==> d.block >= 1
    ensures VerifyBlock(ExampleEnv(), main, MainView, LoadBlock(main, 1))
  {
    hide LoadTransactions, Consistent, Rows, SpentIn;
    var tx := GenesisBlock().txs[0];
    SpendsOf(main, 1, tx);
    NothingJoined(Rows(main), SpentIn(main.inputs, 1));
    CheckReward(ExampleEnv(), main, 1, tx);
  }

  lemma EmptyRows()
    ensures Rows(EmptyTables) == []
  {
    assert |Rows(EmptyTables)| == |EmptyTables.txs|;
  }

  lemma GenesisTables()
    ensures Consistent(Genesis()) && LoadBlock(Genesis(), 1) == GenesisBlock() && LastIndex(Genesis()) == 1
    ensures Rows(Genesis()) == [TxData("c", 1, "", MINER, 50, 0, START)]
    ensures Genesis().blocks == map[1 := HeaderOf(1, "0")]
  {
    hide Consistent, LoadTransactions, InsertBlock, Rows;
    ConsistentEmpty();
    InsertBlockConsistent(EmptyTables, GenesisBlock());
    InsertThenLoad(EmptyTables, GenesisBlock(), 1);
    InsertedRows(EmptyTables, GenesisBlock());
    InsertedBlocks(EmptyTables, GenesisBlock());
    RowOf(GenesisBlock().txs[0], 1);
    EmptyRows();
  }

  lemma GenesisMainVerifies()
    ensures MainVerifies(ExampleEnv(), Genesis())
  {
    hide VerifyBlock, LoadTransactions, Rows, Consistent;
    GenesisTables();
    GenesisVerifies(Genesis());
    assert forall i :: i in Genesis().blocks <==> i == 1;
  }

  // ------------------------------------------------ two equal payments in a block

  function Paying(hash: string, index: int, input: string): Transaction {
    Transaction(MINER, "b", 25, hash, START + index - 1, 1, [input])
  }

  /** The miner pays "b" 25 twice. */
  function PayingTwice(): Block {
    Block(2, HeaderOf(2, "h1"), [Paying("p", 2, "c"), Paying("q", 2, "c")])
  }

  /** And once more, out of nothing. */
  function PayingAgain(): Block {
    Block(3, HeaderOf(3, "h2"), [Paying("r", 3, "p")])
  }

  /** The fork when its upper block has come, and when the lower one has come too. */
  function HalfFork(): (t: Tables)
    ensures t.blocks.Keys == {3}
  {
    InsertedBlocks(EmptyTables, PayingAgain());
    InsertBlock(EmptyTables, PayingAgain())
  }

  function TwicePaying(): (t: Tables)
    ensures t.blocks.Keys == {2, 3}
  {
    InsertedBlocks(HalfFork(), PayingTwice());
    InsertBlock(HalfFork(), PayingTwice())
  }

  lemma TwicePayingTables()
    ensures Consistent(TwicePaying()) && Consistent(HalfFork())
    ensures LoadBlock(TwicePaying(), 2) == PayingTwice() && LoadBlock(TwicePaying(), 3) == PayingAgain()
    ensures TwicePaying().blocks == map[2 := HeaderOf(2, "h1"), 3 := HeaderOf(3, "h2")]
  {
    hide Consistent, LoadTransactions, InsertBlock;
    ConsistentEmpty();
    InsertBlockConsistent(EmptyTables, PayingAgain());
    InsertedBlocks(EmptyTables, PayingAgain());
    InsertBlockConsistent(HalfFork(), PayingTwice());
    InsertedBlocks(HalfFork(), PayingTwice());
    InsertThenLoad(EmptyTables, PayingAgain(), 3);
    InsertThenLoad(HalfFork(), PayingTwice(), 2);
    InsertThenLoad(HalfFork(), PayingTwice(), 3);
  }

  lemma TwicePayingBlocks()
    ensures Contiguous(TwicePaying().blocks.Keys) && ReachesTip(Genesis(), TwicePaying())
    ensures First(TwicePaying()) == 2 && MaxOf(TwicePaying().blocks.Keys) == 3
  {
    hide TwicePaying, Genesis;
    var first := MinOf(TwicePaying().blocks.Keys);
    assert first == 2;
  }

  lemma TwicePayingRows()
    ensures Rows(TwicePaying()) == [TxData("r", 3, MINER, "b", 25, 1, START + 2),
                                    TxData("p", 2, MINER, "b", 25, 1, START + 1),
                                    TxData("q", 2, MINER, "b", 25, 1, START + 1)]
    ensures FirstPaying(TwicePaying()) == 2
  {
    hide InsertBlock, Rows;
    InsertedRows(EmptyTables, PayingAgain());
    InsertedRows(HalfFork(), PayingTwice());
    EmptyRows();
    RowOf(Paying("r", 3, "p"), 3);
    var rows := Rows(TwicePaying());
    assert BlockRows(PayingTwice().txs, 2) == [DataOf(Paying("p", 2, "c"), 2), DataOf(Paying("q", 2, "c"), 2)];
    assert rows == [DataOf(Paying("r", 3, "p"), 3), DataOf(Paying("p", 2, "c"), 2), DataOf(Paying("q", 2, "c"), 2)];
    assert BlocksOf(rows) == {2, 3} by {
      assert rows[0] in rows && rows[1] in rows;
      assert forall d :: d in rows ==> d == rows[0] || d == rows[1] || d == rows[2];
    }
  }

  lemma DedupExample(c: Move, r: Move, p: Move)
    requires c != p && c != r && p != r
    ensures Dedup([c, r, p, p]) == [c, r, p] && Repeated([c, r, p, p]) == [p]
  {
    assert Dedup([p]) == [p] && Repeated([p]) == [] by { assert |[p][1..]| == 0; }
    assert Dedup([p, p]) == [p] && Repeated([p, p]) == [p] by { assert [p, p][1..] == [p]; }
    assert Dedup([r, p, p]) == [r, p] && Repeated([r, p, p]) == [p] by { assert [r, p, p][1..] == [p, p]; }
    assert [c, r, p, p][1..] == [r, p, p];
  }

  lemma TwicePayingMoves()
    ensures BalanceMoves(Genesis(), ForkView(TwicePaying())) ==
      [Move("", 1, MINER, 50), Move(MINER, 3, "b", 25), Move(MINER, 2, "b", 25)]
    ensures LostMoves(Genesis(), TwicePaying()) == [Move(MINER, 2, "b", 25)]
    ensures HiddenMoves(Genesis(), TwicePaying()) == []
  {
    hide Rows, Consistent, First, FirstPaying, Dedup, Repeated, Genesis, TwicePaying;
    var main, fork := Genesis(), TwicePaying();
    TwicePayingBlocks();
    TwicePayingRows();
    GenesisTables();
    var c, r, p := Move("", 1, MINER, 50), Move(MINER, 3, "b", 25), Move(MINER, 2, "b", 25);
    assert Below(Rows(main), 2) == Rows(main);
    assert Between(Rows(main), 2, 2) == [];
    assert Moves(Rows(main)) + Moves(Rows(fork)) == [c, r, p, p];
    DedupExample(c, r, p);
  }

  lemma NetHead(m: Move, ms: seq<Move>, key: string, block: int)
    ensures Net([m] + ms, key, block) == Effect(m, key, block) + Net(ms, key, block)
  {
    assert ([m] + ms)[1..] == ms;
  }

  lemma NetOfTwo(a: Move, b: Move, key: string, block: int)
    ensures Net([a, b], key, block) == Effect(a, key, block) + Effect(b, key, block)
    ensures Net([a], key, block) == Effect(a, key, block) && Net([], key, block) == 0
  {
    hide Effect;
    assert [b] + [] == [b] && [a] + [b] == [a, b] && [a] + [] == [a];
    NetHead(b, [], key, block);
    NetHead(a, [b], key, block);
    NetHead(a, [], key, block);
  }

  lemma NetOfThree(a: Move, b: Move, c: Move, key: string, block: int)
    ensures Net([a, b, c], key, block) == Effect(a, key, block) + Effect(b, key, block) + Effect(c, key, block)
  {
    hide Effect;
    assert [a] + [b, c] == [a, b, c];
    NetHead(a, [b, c], key, block);
    NetOfTwo(b, c, key, block);
  }

  /** UNION merges the two payments of block 2: the fork shows the miner with 25 left before block 3, and main,
      once it holds the fork, with 0. */
  lemma MergedPaymentsShiftBalance()
    ensures Balance(Genesis(), ForkView(TwicePaying()), MINER, 1) == 50
    ensures Balance(Genesis(), ForkView(TwicePaying()), MINER, 2) == 25
    ensures Surplus(Genesis(), TwicePaying(), MINER, 2) == 25
    ensures Balance(ApplyFork(Genesis(), TwicePaying()), MainView, MINER, 2) == 0
  {
    hide ApplyFork, Rows, Consistent, Genesis, TwicePaying, BalanceMoves, LostMoves, HiddenMoves, Net;
    GenesisTables();
    TwicePayingTables();
    TwicePayingBlocks();
    TwicePayingMoves();
    var c, r, p := Move("", 1, MINER, 50), Move(MINER, 3, "b", 25), Move(MINER, 2, "b", 25);
    NetOfThree(c, r, p, MINER, 1);
    NetOfThree(c, r, p, MINER, 2);
    NetOfTwo(p, p, MINER, 2);
    BalanceDiffersBySurplus(Genesis(), TwicePaying(), MINER, 2);
  }

  lemma JoinedOfFour(a: TxData, b: TxData, c: TxData, d: TxData, spent: seq<string>)
    ensures JoinedPairs([a, b, c, d], spent) == (if a.hash in spent then [(a.hash, a.value)] else [])
      + ((if b.hash in spent then [(b.hash, b.value)] else []) + ((if c.hash in spent then [(c.hash, c.value)] else [])
      + ((if d.hash in spent then [(d.hash, d.value)] else []) + [])))
  {
    hide JoinedPairs;
    assert [d] + [] == [d] && [c] + [d] == [c, d] && [b] + [c, d] == [b, c, d] && [a] + [b, c, d] == [a, b, c, d];
    JoinedHead(a, [b, c, d], spent);
    JoinedHead(b, [c, d], spent);
    JoinedHead(c, [d], spent);
    JoinedHead(d, [], spent);
    NothingJoined([], spent);
  }

  lemma TwicePayingInputs()
    ensures InputSum(Genesis(), ForkView(TwicePaying()), 2) == 50
    ensures InputSum(Genesis(), ForkView(TwicePaying()), 3) == 25
  {
    hide Rows, First, SpentIn, JoinedPairs, Genesis, TwicePaying, LoadTransactions, Consistent, SumDistinct;
    GenesisTables();
    TwicePayingTables();
    TwicePayingBlocks();
    TwicePayingRows();
    SpendsOnly(TwicePaying(), 2, "c");
    SpendsOnly(TwicePaying(), 3, "p");
    var c, rows := Rows(Genesis()), Rows(TwicePaying());
    assert Below(c, 2) == c;
    assert c + rows == [c[0], rows[0], rows[1], rows[2]];
    JoinedOfFour(c[0], rows[0], rows[1], rows[2], SpentIn(TwicePaying().inputs, 2));
    JoinedOfFour(c[0], rows[0], rows[1], rows[2], SpentIn(TwicePaying().inputs, 3));
    OnePair("c", 50);
    OnePair("p", 25);
  }

  lemma TwicePayingNew()
    ensures !ExistsTransaction(Genesis(), ForkView(TwicePaying()), "p", 2)
    ensures !ExistsTransaction(Genesis(), ForkView(TwicePaying()), "q", 2)
    ensures !ExistsTransaction(Genesis(), ForkView(TwicePaying()), "r", 3)
  {
    hide Rows, First, Genesis, TwicePaying;
    GenesisTables();
    TwicePayingRows();
  }

  lemma PayingValid(hash: string, index: int, input: string)
    ensures ValidTransaction(ExampleEnv(), Paying(hash, index, input))
  {}

  lemma TwicePayingChecks()
    ensures CheckTransactions(ExampleEnv(), Genesis(), ForkView(TwicePaying()), 2, PayingTwice().txs, Totals(0, 0, 0))
      == Some(Totals(0, 0, 50))
    ensures CheckTransactions(ExampleEnv(), Genesis(), ForkView(TwicePaying()), 3, PayingAgain().txs, Totals(0, 0, 0))
      == Some(Totals(0, 0, 25))
  {
    hide ExistsTransaction, Balance, Genesis, TwicePaying, Surplus, ValidTransaction, ExampleEnv, CheckTransactions,
         ApplyFork;
    TwicePayingNew();
    MergedPaymentsShiftBalance();
    var main, view, env := Genesis(), ForkView(TwicePaying()), ExampleEnv();
    var p, q, r := Paying("p", 2, "c"), Paying("q", 2, "c"), Paying("r", 3, "p");
    PayingValid("p", 2, "c");
    PayingValid("q", 2, "c");
    PayingValid("r", 3, "p");
    assert [p, q][1..] == [q] && [q][1..] == [] && [r][1..] == [];
    CheckHead(env, main, view, 2, [p, q], Totals(0, 0, 0));
    CheckHead(env, main, view, 2, [q], Totals(0, 0, 25));
    CheckHead(env, main, view, 3, [r], Totals(0, 0, 0));
    CheckNone(env, main, view, 2, Totals(0, 0, 50));
    CheckNone(env, main, view, 3, Totals(0, 0, 25));
  }

  lemma TwicePayingVerifies()
    ensures AllVerify(ExampleEnv(), Genesis(), TwicePaying())
    ensures AllBlocksVerify(ExampleEnv(), Genesis(), TwicePaying())
  {
    hide Rows, First, CheckTransactions, InputSum, LoadTransactions, Genesis, TwicePaying;
    GenesisTables();
    TwicePayingTables();
    TwicePayingBlocks();
    TwicePayingInputs();
    TwicePayingChecks();
    forall i | i in TwicePaying().blocks
      ensures VerifyBlock(ExampleEnv(), Genesis(), ForkView(TwicePaying()), LoadBlock(TwicePaying(), i))
    {
      assert i == 2 || i == 3;
    }
  }

  lemma TwicePayingIsAdopted()
    ensures CheckTempChain(ExampleEnv(), Genesis(), TwicePaying()) == 0
  {
    hide AllBlocksVerify, First, Genesis, TwicePaying;
    GenesisTables();
    TwicePayingTables();
    TwicePayingBlocks();
    TwicePayingVerifies();
    var blocks := TwicePaying().blocks;
    assert LuckBetween(blocks, 2, 3) == 2.0 by {
      assert LuckBetween(blocks, 4, 3) == 0.0;
      assert LuckBetween(blocks, 3, 3) == 1.0;
    }
  }

  /** The third block is not covered once the balance is right. */
  lemma TwicePayingUncovered()
    ensures var main' := ApplyFork(Genesis(), TwicePaying());
      3 in main'.blocks && !VerifyBlock(ExampleEnv(), main', MainView, LoadBlock(main', 3))
  {
    hide VerifyBlock, ApplyFork, Balance, Surplus, LoadTransactions, Consistent, Contiguous, ReachesTip, First, Genesis,
         TwicePaying, ExampleEnv, ValidTransaction;
    var env := ExampleEnv();
    GenesisTables();
    TwicePayingTables();
    TwicePayingBlocks();
    TwicePayingVerifies();
    MergedPaymentsShiftBalance();
    PayingValid("r", 3, "p");
    assert env == env.(now := env.now);
    assert VerifyBlock(env, Genesis(), ForkView(TwicePaying()), LoadBlock(TwicePaying(), 3));
    AdoptionVerifiesExactly(env, env, Genesis(), TwicePaying(), 3);
    assert PayingAgain().txs[0] in LoadTransactions(TwicePaying(), 3);
  }

  function AtGenesis(): State { State(Genesis(), map[], 0, []) }

  function WithHalfFork(): State { State(Genesis(), map[1 := HalfFork()], 1, []) }

  lemma ForkIsOpened()
    ensures Ok(AtGenesis()) && Ok(WithHalfFork())
    ensures Handle(ExampleEnv(), AtGenesis(), PayingAgain(), 0).state == WithHalfFork()
    ensures !Attaches(Genesis(), PayingAgain())
  {
    hide Consistent, InsertBlock, Genesis, ApplyFork, CheckTempChain, UpdatePool;
    GenesisTables();
    TwicePayingTables();
    assert HalfFork() == InsertBlock(EmptyTables, PayingAgain());
  }

  lemma ForkIsCompleted()
    requires Ok(WithHalfFork())
    ensures Attaches(Genesis(), PayingTwice())
    ensures Collect(WithHalfFork(), PayingTwice(), 1).0.forks[1] == TwicePaying()
    ensures Completed(WithHalfFork(), Event(ExampleEnv(), PayingTwice(), 1)) == TwicePaying()
    ensures var o := Handle(ExampleEnv(), WithHalfFork(), PayingTwice(), 1);
      o.result == 0 && o.state.main == ApplyFork(Genesis(), TwicePaying())
  {
    hide Consistent, InsertBlock, Genesis, ApplyFork, CheckTempChain, UpdatePool;
    GenesisTables();
    TwicePayingIsAdopted();
    assert InsertBlock(HalfFork(), PayingTwice()) == TwicePaying();
  }

  function UpperArrives(): Event { Event(ExampleEnv(), PayingAgain(), 0) }

  function LowerArrives(): Event { Event(ExampleEnv(), PayingTwice(), 1) }

  /** The events can happen: from the genesis block on, two blocks from the top down, as a peer sends them. */
  lemma TwicePayingRuns()
    ensures Reaching(AtGenesis(), UpperArrives()) && Reaching(WithHalfFork(), LowerArrives())
    ensures StepAt(AtGenesis(), UpperArrives(), WithHalfFork())
    ensures var s := Handle(ExampleEnv(), WithHalfFork(), PayingTwice(), 1).state;
      IsRun([AtGenesis(), WithHalfFork(), s], [UpperArrives(), LowerArrives()])
    ensures OneClock(ExampleEnv(), [UpperArrives(), LowerArrives()])
    ensures Adopts(WithHalfFork(), LowerArrives())
  {
    hide Genesis, TwicePaying, HalfFork, ApplyFork, Handle, Attaches, Completed, Collect, Ok, ReachesTip;
    ForkIsOpened();
    ForkIsCompleted();
    TwicePayingTables();
    TwicePayingBlocks();
    assert NamesPredecessors(TwicePaying());
    assert ExampleEnv() == ExampleEnv().(now := ExampleEnv().now);
  }

  /** In that run all of main verifies at first; the node adopts the fork, every block of which verifies, and then
      holds a third block that does not verify. */
  lemma AdoptedForkFailsOnMain()
    ensures Reaching(WithHalfFork(), LowerArrives()) && Adopts(WithHalfFork(), LowerArrives())
    ensures MainVerifies(ExampleEnv(), AtGenesis().main) && AllVerify(ExampleEnv(), Genesis(), TwicePaying())
    ensures !HarmlessStep(WithHalfFork(), LowerArrives())
    ensures var main' := Handle(ExampleEnv(), WithHalfFork(), PayingTwice(), 1).state.main;
      && 3 in main'.blocks && !VerifyBlock(ExampleEnv(), main', MainView, LoadBlock(main', 3))
      && !MainVerifies(ExampleEnv(), main')
  {
    hide Genesis, TwicePaying, HalfFork, ApplyFork, VerifyBlock, Handle, Attaches, Completed, LoadTransactions, Collect,
         Ok, ReachesTip, MainVerifies, Harmless, AllVerify, Reaching, Adopts;
    ForkIsOpened();
    ForkIsCompleted();
    TwicePayingRuns();
    GenesisMainVerifies();
    TwicePayingVerifies();
    TwicePayingUncovered();
    NotVerified(ExampleEnv(), Handle(ExampleEnv(), WithHalfFork(), PayingTwice(), 1).state.main, 3);
    StepVerifiesExactly(WithHalfFork(), LowerArrives());
  }

  lemma NotVerified(env: Env, main: Tables, i: int)
    requires i in main.blocks && !VerifyBlock(env, main, MainView, LoadBlock(main, i))
    ensures !MainVerifies(env, main)
  {
    hide VerifyBlock, LoadTransactions;
  }

  // ------------------------------------------- an input that only exists later

  /** The miner pays "b" from the output "c", and also names "x", which no transaction has as its hash yet. */
  function NamingEarly(): Block {
    Block(2, HeaderOf(2, "h1"), [Transaction(MINER, "b", 50, "p", START + 1, 2, ["c", "x"])])
  }

  /** "b" pays it back in a transaction "x". */
  function NamedLate(): Block {
    Block(3, HeaderOf(3, "h2"), [Transaction("b", MINER, 50, "x", START + 2, 1, ["p"])])
  }

  function NamingMain(): (t: Tables)
    ensures t.blocks.Keys == {1, 2}
  {
    InsertedBlocks(Genesis(), NamingEarly());
    InsertBlock(Genesis(), NamingEarly())
  }

  function NamedFork(): (t: Tables)
    ensures t.blocks.Keys == {3}
  {
    InsertedBlocks(EmptyTables, NamedLate());
    InsertBlock(EmptyTables, NamedLate())
  }

  lemma NamedTables()
    ensures Consistent(NamingMain()) && Consistent(NamedFork())
    ensures LoadBlock(NamingMain(), 1) == GenesisBlock() && LoadBlock(NamingMain(), 2) == NamingEarly()
    ensures LoadBlock(NamedFork(), 3) == NamedLate()
    ensures NamingMain().blocks == map[1 := HeaderOf(1, "0"), 2 := HeaderOf(2, "h1")]
    ensures NamedFork().blocks == map[3 := HeaderOf(3, "h2")] && LastIndex(NamingMain()) == 2
  {
    hide Consistent, LoadTransactions, InsertBlock, Genesis;
    GenesisTables();
    ConsistentEmpty();
    InsertBlockConsistent(Genesis(), NamingEarly());
    InsertedBlocks(Genesis(), NamingEarly());
    InsertThenLoad(Genesis(), NamingEarly(), 1);
    InsertThenLoad(Genesis(), NamingEarly(), 2);
    InsertBlockConsistent(EmptyTables, NamedLate());
    InsertedBlocks(EmptyTables, NamedLate());
    InsertThenLoad(EmptyTables, NamedLate(), 3);
  }

  lemma NamedBlocks()
    ensures Contiguous(NamedFork().blocks.Keys) && ReachesTip(NamingMain(), NamedFork())
    ensures First(NamedFork()) == 3 && MaxOf(NamedFork().blocks.Keys) == 3
  {
    hide NamedFork, NamingMain;
    var first := MinOf(NamedFork().blocks.Keys);
    assert first == 3;
  }

  lemma NamedRows()
    ensures Rows(NamingMain()) == [TxData("c", 1, "", MINER, 50, 0, START),
                                   TxData("p", 2, MINER, "b", 50, 2, START + 1)]
    ensures Rows(NamedFork()) == [TxData("x", 3, "b", MINER, 50, 1, START + 2)]
    ensures FirstPaying(NamedFork()) == 3
    ensures Below(Rows(NamingMain()), 3) == Rows(NamingMain())
  {
    hide InsertBlock, Rows, Genesis;
    GenesisTables();
    EmptyRows();
    InsertedRows(Genesis(), NamingEarly());
    InsertedRows(EmptyTables, NamedLate());
    RowOf(NamingEarly().txs[0], 2);
    RowOf(NamedLate().txs[0], 3);
    var rows := Rows(NamedFork());
    assert rows == [DataOf(NamedLate().txs[0], 3)];
    assert BlocksOf(rows) == {3} by {
      assert rows[0] in rows;
      assert forall d :: d in rows ==> d == rows[0];
    }
  }

  lemma JoinedOfThree(a: TxData, b: TxData, c: TxData, spent: seq<string>)
    ensures JoinedPairs([a, b, c], spent) == (if a.hash in spent then [(a.hash, a.value)] else [])
      + ((if b.hash in spent then [(b.hash, b.value)] else [])
      + ((if c.hash in spent then [(c.hash, c.value)] else []) + []))
    ensures JoinedPairs([a, b], spent) == (if a.hash in spent then [(a.hash, a.value)] else [])
      + ((if b.hash in spent then [(b.hash, b.value)] else []) + [])
  {
    hide JoinedPairs;
    assert [c] + [] == [c] && [b] + [c] == [b, c] && [a] + [b, c] == [a, b, c];
    assert [b] + [] == [b] && [a] + [b] == [a, b];
    JoinedHead(a, [b, c], spent);
    JoinedHead(b, [c], spent);
    JoinedHead(c, [], spent);
    JoinedHead(a, [b], spent);
    JoinedHead(b, [], spent);
    NothingJoined([], spent);
  }

  lemma NamedInputs()
    ensures InputSum(NamingMain(), MainView, 2) == 50
    ensures InputSum(NamingMain(), ForkView(NamedFork()), 3) == 50
    ensures !SameInputs(NamingMain(), NamedFork(), 2)
  {
    hide Rows, First, SpentIn, JoinedPairs, LoadTransactions, Below, NamingMain, NamedFork, Consistent;
    NamedTables();
    NamedBlocks();
    NamedRows();
    SpendsOf(NamingMain(), 2, NamingEarly().txs[0]);
    SpendsOf(NamedFork(), 3, NamedLate().txs[0]);
    var m, x := Rows(NamingMain()), Rows(NamedFork());
    assert m == [m[0], m[1]] && m + x == [m[0], m[1], x[0]];
    JoinedOfThree(m[0], m[1], x[0], SpentIn(NamingMain().inputs, 2));
    JoinedOfThree(m[0], m[1], x[0], SpentIn(NamedFork().inputs, 3));
    OnePair("c", 50);
    OnePair("p", 50);
    OnePair("x", 50);
    assert [("c", 50)] + [("x", 50)] == [("c", 50), ("x", 50)] && [("c", 50), ("x", 50)][1..] == [("x", 50)];
    assert SumDistinct([("c", 50), ("x", 50)]) == 100;
  }

  lemma NamedBalances()
    ensures Balance(NamingMain(), MainView, MINER, 1) == 50
    ensures Balance(NamingMain(), ForkView(NamedFork()), "b", 2) == 50
  {
    hide Rows, First, FirstPaying, Below, Net, Dedup, NamingMain, NamedFork;
    NamedRows();
    var c, p, x := Move("", 1, MINER, 50), Move(MINER, 2, "b", 50), Move("b", 3, MINER, 50);
    assert Moves(Rows(NamingMain())) == [c, p] && Moves(Rows(NamedFork())) == [x];
    assert [c, p] + [x] == [c, p, x];
    DedupOfThree(c, p, x);
    NetOfTwo(c, p, MINER, 1);
    NetOfThree(c, p, x, "b", 2);
  }

  lemma DedupOfThree(a: Move, b: Move, c: Move)
    requires a != b && a != c && b != c
    ensures Dedup([a, b, c]) == [a, b, c]
  {
    assert Dedup([c]) == [c] by { assert |[c][1..]| == 0; }
    assert Dedup([b, c]) == [b, c] by { assert [b, c][1..] == [c]; }
    assert [a, b, c][1..] == [b, c];
  }

  lemma NamedNew()
    ensures !ExistsTransaction(NamingMain(), MainView, "p", 2)
    ensures !ExistsTransaction(NamingMain(), ForkView(NamedFork()), "x", 3)
  {
    hide Rows, First, NamingMain, NamedFork;
    NamedRows();
  }

  lemma NamedValid()
    ensures ValidTransaction(ExampleEnv(), NamingEarly().txs[0]) && ValidTransaction(ExampleEnv(), NamedLate().txs[0])
  {}

  lemma NamedChecks()
    ensures CheckTransactions(ExampleEnv(), NamingMain(), MainView, 2, NamingEarly().txs, Totals(0, 0, 0))
      == Some(Totals(0, 0, 50))
    ensures CheckTransactions(ExampleEnv(), NamingMain(), ForkView(NamedFork()), 3, NamedLate().txs, Totals(0, 0, 0))
      == Some(Totals(0, 0, 50))
  {
    hide Balance, CheckTransactions, ExistsTransaction, ValidTransaction, ExampleEnv, NamingMain, NamedFork;
    NamedBalances();
    NamedNew();
    NamedValid();
    var env, main, view := ExampleEnv(), NamingMain(), ForkView(NamedFork());
    var p, x := NamingEarly().txs[0], NamedLate().txs[0];
    assert [p][1..] == [] && [x][1..] == [];
    CheckHead(env, main, MainView, 2, [p], Totals(0, 0, 0));
    CheckHead(env, main, view, 3, [x], Totals(0, 0, 0));
    CheckNone(env, main, MainView, 2, Totals(0, 0, 50));
    CheckNone(env, main, view, 3, Totals(0, 0, 50));
  }

  lemma NamedVerifies()
    ensures MainVerifies(ExampleEnv(), NamingMain())
    ensures AllVerify(ExampleEnv(), NamingMain(), NamedFork())
    ensures AllBlocksVerify(ExampleEnv(), NamingMain(), NamedFork())
  {
    hide Rows, LoadTransactions, First, CheckTransactions, InputSum, SameInputs, NamingMain, NamedFork, Consistent;
    NamedTables();
    NamedBlocks();
    NamedRows();
    NamedInputs();
    NamedChecks();
    GenesisVerifies(NamingMain());
    forall i | i in NamingMain().blocks
      ensures VerifyBlock(ExampleEnv(), NamingMain(), MainView, LoadBlock(NamingMain(), i))
    {
      assert i == 1 || i == 2;
    }
  }

  lemma NamedIsAdopted()
    ensures CheckTempChain(ExampleEnv(), NamingMain(), NamedFork()) == 0
  {
    hide AllBlocksVerify, First, NamingMain, NamedFork;
    NamedTables();
    NamedBlocks();
    NamedVerifies();
    var blocks := NamedFork().blocks;
    assert LuckBetween(blocks, 3, 3) == 1.0 by {
      assert LuckBetween(blocks, 4, 3) == 0.0;
    }
  }

  function AtNaming(): State { State(NamingMain(), map[], 0, []) }

  function LateArrives(): Event { Event(ExampleEnv(), NamedLate(), 0) }

  lemma NamedRuns()
    ensures Reaching(AtNaming(), LateArrives()) && Adopts(AtNaming(), LateArrives())
    ensures Completed(AtNaming(), LateArrives()) == NamedFork()
    ensures Handle(ExampleEnv(), AtNaming(), NamedLate(), 0).state.main == ApplyFork(NamingMain(), NamedFork())
  {
    hide Consistent, InsertBlock, NamingMain, ApplyFork, CheckTempChain, UpdatePool, ReachesTip;
    NamedTables();
    NamedBlocks();
    NamedIsAdopted();
    assert InsertBlock(EmptyTables, NamedLate()) == NamedFork();
    assert NamesPredecessors(NamedFork());
  }

  /** All of main verifies, the node adopts one more block on top of it that verifies too, and then the block below,
      which was there before, does not verify any more: its second input has come into being. */
  lemma KeptBlockFailsLater()
    ensures Reaching(AtNaming(), LateArrives()) && Adopts(AtNaming(), LateArrives())
    ensures MainVerifies(ExampleEnv(), AtNaming().main) && AllVerify(ExampleEnv(), NamingMain(), NamedFork())
    ensures !HarmlessStep(AtNaming(), LateArrives())
    ensures var main' := Handle(ExampleEnv(), AtNaming(), NamedLate(), 0).state.main;
      && 2 in main'.blocks && LoadBlock(main', 2) == NamingEarly()
      && !VerifyBlock(ExampleEnv(), main', MainView, NamingEarly()) && !MainVerifies(ExampleEnv(), main')
  {
    hide NamingMain, NamedFork, ApplyFork, VerifyBlock, Handle, Completed, LoadTransactions, Consistent, Contiguous,
         First, Ok, ReachesTip, MainVerifies, Harmless, AllVerify, Reaching, Adopts, SameInputs, ExampleEnv;
    var env := ExampleEnv();
    NamedTables();
    NamedBlocks();
    NamedInputs();
    NamedVerifies();
    NamedRuns();
    assert env == env.(now := env.now);
    assert VerifyBlock(env, NamingMain(), MainView, LoadBlock(NamingMain(), 2)) by { VerifiedAt(env, NamingMain(), 2); }
    KeptVerifiesExactly(env, env, NamingMain(), NamedFork(), 2);
    NotVerified(env, ApplyFork(NamingMain(), NamedFork()), 2);
    StepVerifiesExactly(AtNaming(), LateArrives());
  }

  lemma VerifiedAt(env: Env, main: Tables, i: int)
    requires MainVerifies(env, main) && i in main.blocks
    ensures VerifyBlock(env, main, MainView, LoadBlock(main, i))
  {
    hide VerifyBlock, LoadTransactions;
  }
}
