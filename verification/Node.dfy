/** Receiving blocks: one step of a node, whole runs of a node, and syncing from a peer. */
module Node {
  import opened Ledger
  import opened ForkView
  import opened Queries
  import opened Verification
  import opened ForkChoice

  /** `counter` is the last fork id handed out. */
  datatype State = State(main: Tables, forks: map<nat, Tables>, counter: nat, mempool: seq<Transaction>)

  ghost predicate Ok(s: State) {
    && Consistent(s.main)
    && 0 !in s.forks
    && forall f :: f in s.forks ==> f <= s.counter && s.forks[f].blocks.Keys != {} && Consistent(s.forks[f])
  }

  function HashAt(t: Tables, index: int): string {
    if index in t.blocks then t.blocks[index].hash else ""
  }

  // ---------------------------------------------------------------- mempool

  predicate InPool(pool: seq<Transaction>, hash: string) {
    exists tx :: tx in pool && tx.hash == hash
  }

  /** newTransaction: the inputs are dropped, and a hash already waiting is not added again. */
  function AddToPool(pool: seq<Transaction>, tx: Transaction): seq<Transaction> {
    if InPool(pool, tx.hash) then pool
    else pool + [Transaction(tx.sender, tx.recipient, tx.value, tx.hash, tx.timestamp, 0, [])]
  }

  function RemoveFirst(pool: seq<Transaction>, hash: string): seq<Transaction> {
    if pool == [] then []
    else if pool[0].hash == hash then pool[1..]
    else [pool[0]] + RemoveFirst(pool[1..], hash)
  }

  predicate ReturnsToPool(tx: Transaction) {
    tx.inputs != [] || tx.sender == ""
  }

  function AddDropped(pool: seq<Transaction>, dropped: seq<Transaction>): seq<Transaction>
    decreases |dropped|
  {
    if dropped == [] then pool
    else AddDropped(if ReturnsToPool(dropped[0]) then AddToPool(pool, dropped[0]) else pool, dropped[1..])
  }

  function RemoveAll(pool: seq<Transaction>, rows: seq<TxData>): seq<Transaction>
    decreases |rows|
  {
    if rows == [] then pool else RemoveAll(RemoveFirst(pool, rows[0].hash), rows[1..])
  }

  function FromIndex(txs: seq<TxRow>, index: int): seq<TxRow> {
    if txs == [] then []
    else if txs[0].data.block >= index then [txs[0]] + FromIndex(txs[1..], index)
    else FromIndex(txs[1..], index)
  }

  /** The transactions of main from the fork point on: the ones an adoption may drop. */
  function Dropped(main: Tables, fork: Tables): seq<Transaction>
    requires fork.blocks.Keys != {}
  {
    LoadRows(FromIndex(main.txs, First(fork)), main.inputs)
  }

  function UpdatePool(pool: seq<Transaction>, main: Tables, fork: Tables): seq<Transaction>
    requires fork.blocks.Keys != {}
  {
    RemoveAll(AddDropped(pool, Dropped(main, fork)), Rows(fork))
  }

  ghost predicate DistinctHashes(pool: seq<Transaction>) {
    forall i, j :: 0 <= i < j < |pool| ==> pool[i].hash != pool[j].hash
  }

  lemma {:induction false} RemoveFirstEffect(pool: seq<Transaction>, hash: string)
    requires DistinctHashes(pool)
    ensures DistinctHashes(RemoveFirst(pool, hash))
    ensures forall tx :: tx in RemoveFirst(pool, hash) <==> tx in pool && tx.hash != hash
  {
    if pool != [] {
      var head, tail := pool[0], pool[1..];
      assert pool == [head] + tail;
      HeadHashUnique(pool);
      if head.hash != hash {
        RemoveFirstEffect(tail, hash);
        var rest := RemoveFirst(tail, hash);
        assert forall i :: 0 <= i < |rest| ==> rest[i] in tail;
      }
    }
  }

  lemma HeadHashUnique(pool: seq<Transaction>)
    requires DistinctHashes(pool) && pool != []
    ensures forall tx :: tx in pool[1..] ==> tx.hash != pool[0].hash
    ensures DistinctHashes(pool[1..])
  {
    forall tx | tx in pool[1..] ensures tx.hash != pool[0].hash {
      var i :| 0 <= i < |pool[1..]| && pool[1..][i] == tx;
      assert pool[0].hash != pool[i + 1].hash;
    }
  }

  lemma {:induction false} RemoveAllEffect(pool: seq<Transaction>, rows: seq<TxData>)
    requires DistinctHashes(pool)
    ensures DistinctHashes(RemoveAll(pool, rows))
    ensures forall tx :: tx in RemoveAll(pool, rows) <==> tx in pool && forall d :: d in rows ==> d.hash != tx.hash
    decreases |rows|
  {
    if rows != [] {
      RemoveFirstEffect(pool, rows[0].hash);
      RemoveAllEffect(RemoveFirst(pool, rows[0].hash), rows[1..]);
      assert rows == [rows[0]] + rows[1..];
    }
  }

  lemma {:induction false} AddDroppedEffect(pool: seq<Transaction>, dropped: seq<Transaction>, h: string)
    requires DistinctHashes(pool)
    ensures DistinctHashes(AddDropped(pool, dropped))
    ensures InPool(AddDropped(pool, dropped), h) <==>
      InPool(pool, h) || exists tx :: tx in dropped && ReturnsToPool(tx) && tx.hash == h
    decreases |dropped|
  {
    hide ReturnsToPool;
    if dropped != [] {
      var next := if ReturnsToPool(dropped[0]) then AddToPool(pool, dropped[0]) else pool;
      assert DistinctHashes(next) by {
        forall i | 0 <= i < |pool| ensures pool[i] in pool {}
      }
      AddToPoolEffect(pool, dropped[0], h);
      AddDroppedEffect(next, dropped[1..], h);
      assert dropped == [dropped[0]] + dropped[1..];
      if tx :| tx in dropped && ReturnsToPool(tx) && tx.hash == h {
        if tx != dropped[0] { assert tx in dropped[1..]; }
      }
    }
  }

  lemma AddToPoolEffect(pool: seq<Transaction>, tx: Transaction, h: string)
    ensures InPool(AddToPool(pool, tx), h) <==> InPool(pool, h) || tx.hash == h
  {
    var pool' := AddToPool(pool, tx);
    if InPool(pool, h) {
      var t :| t in pool && t.hash == h;
      assert t in pool';
    }
    if tx.hash == h && !InPool(pool, h) {
      assert pool'[|pool|] in pool';
    }
  }

  /** After an adoption the waiting hashes are exactly the old ones and those of the returning main
      transactions from the fork point on, without the ones the fork already contains. */
  lemma PoolAfterAdoption(pool: seq<Transaction>, main: Tables, fork: Tables, h: string)
    requires fork.blocks.Keys != {} && DistinctHashes(pool)
    ensures DistinctHashes(UpdatePool(pool, main, fork))
    ensures InPool(UpdatePool(pool, main, fork), h) <==>
      && (InPool(pool, h) || exists tx :: tx in Dropped(main, fork) && ReturnsToPool(tx) && tx.hash == h)
      && forall d :: d in Rows(fork) ==> d.hash != h
  {
    hide Dropped, Rows, ReturnsToPool;
    var added := AddDropped(pool, Dropped(main, fork));
    AddDroppedEffect(pool, Dropped(main, fork), h);
    RemoveAllEffect(added, Rows(fork));
    var final := UpdatePool(pool, main, fork);
    if InPool(final, h) {
      var tx :| tx in final && tx.hash == h;
      assert tx in added;
    }
    if InPool(added, h) && forall d :: d in Rows(fork) ==> d.hash != h {
      var tx :| tx in added && tx.hash == h;
      assert tx in final;
    }
  }

  /** The test that should keep miner rewards out lets them in: a reward that main loses is waiting again exactly
      when the fork has no transaction with its hash. */
  lemma DroppedRewardReturns(pool: seq<Transaction>, main: Tables, fork: Tables, tx: Transaction)
    requires fork.blocks.Keys != {} && DistinctHashes(pool)
    requires tx in Dropped(main, fork) && tx.sender == ""
    ensures InPool(UpdatePool(pool, main, fork), tx.hash) <==> forall d :: d in Rows(fork) ==> d.hash != tx.hash
  {
    hide Dropped, Rows, UpdatePool;
    PoolAfterAdoption(pool, main, fork, tx.hash);
    assert ReturnsToPool(tx);
  }

  /** And a payment that names no inputs is lost with its block: no transaction that main drops is waiting again
      unless it is a reward, names inputs, was waiting before, or shares its hash with one of those. */
  lemma DroppedPaymentIsLost(pool: seq<Transaction>, main: Tables, fork: Tables, tx: Transaction)
    requires fork.blocks.Keys != {} && DistinctHashes(pool)
    requires tx in Dropped(main, fork) && tx.sender != "" && tx.inputs == []
    ensures InPool(UpdatePool(pool, main, fork), tx.hash) <==>
      && (InPool(pool, tx.hash)
          || exists t :: t in Dropped(main, fork) && t != tx && ReturnsToPool(t) && t.hash == tx.hash)
      && forall d :: d in Rows(fork) ==> d.hash != tx.hash
  {
    hide Dropped, Rows, UpdatePool;
    PoolAfterAdoption(pool, main, fork, tx.hash);
    assert !ReturnsToPool(tx);
  }

  // ------------------------------------------------------------ one received block

  datatype Outcome = Outcome(state: State, result: int, forkId: nat)

  predicate Attaches(main: Tables, b: Block) {
    b.index - 1 <= LastIndex(main) && b.header.prev == HashAt(main, b.index - 1)
  }

  /** Opens a fork when none is named, and inserts the block into it. */
  function Collect(s: State, b: Block, forkId: nat): (State, nat)
    requires forkId == 0 || forkId in s.forks
  {
    var f := if forkId == 0 then s.counter + 1 else forkId;
    var t := if forkId == 0 then EmptyTables else s.forks[forkId];
    (s.(forks := s.forks[f := InsertBlock(t, b)], counter := if forkId == 0 then f else s.counter), f)
  }

  lemma CollectOk(s: State, b: Block, forkId: nat)
    requires Ok(s) && (forkId == 0 || forkId in s.forks)
    ensures var (s', f) := Collect(s, b, forkId); Ok(s') && f in s'.forks && b.index in s'.forks[f].blocks
  {
    hide Consistent, InsertBlock;
    ConsistentEmpty();
    InsertBlockConsistent(if forkId == 0 then EmptyTables else s.forks[forkId], b);
    var (s', f) := Collect(s, b, forkId);
    assert b.index in s'.forks[f].blocks.Keys;
  }

  /** handleBlock. */
  ghost function Handle(env: Env, s: State, b: Block, forkId: nat): Outcome
    requires Ok(s) && (forkId == 0 || forkId in s.forks)
  {
    CollectOk(s, b, forkId);
    if Attaches(s.main, b) then
      var (s', f) := Collect(s, b, forkId);
      var checked := CheckTempChain(env, s'.main, s'.forks[f]);
      if checked == 0 then
        Outcome(State(ApplyFork(s'.main, s'.forks[f]), s'.forks - {f}, s'.counter,
                      UpdatePool(s'.mempool, s'.main, s'.forks[f])), 0, f)
      else
        Outcome(s'.(forks := s'.forks - {f}), checked, f)
    else if Certified(env, b) then
      var (s', f) := Collect(s, b, forkId);
      Outcome(s', b.index - 1, f)
    else
      Outcome(s.(forks := s.forks - {forkId}), -2, forkId)
  }

  lemma HandleOk(env: Env, s: State, b: Block, forkId: nat)
    requires Ok(s) && (forkId == 0 || forkId in s.forks)
    ensures Ok(Handle(env, s, b, forkId).state)
  {
    hide Consistent, Collect, ApplyFork, CheckTempChain, UpdatePool;
    CollectOk(s, b, forkId);
    var (s', f) := Collect(s, b, forkId);
    AdoptionLoads(s'.main, s'.forks[f]);
  }

  // ------------------------------------------------------------------ whole runs

  datatype Event = Event(env: Env, block: Block, forkId: nat)

  /** Every event is handled from the state before it; a named fork exists. */
  ghost predicate IsRun(states: seq<State>, events: seq<Event>) {
    && |states| == |events| + 1
    && Ok(states[0])
    && forall k :: 0 <= k < |events| ==> StepAt(states[k], events[k], states[k + 1])
  }

  ghost predicate StepAt(s: State, e: Event, s': State) {
    Ok(s) && (e.forkId == 0 || e.forkId in s.forks) && s' == Handle(e.env, s, e.block, e.forkId).state
  }

  ghost predicate Adopts(s: State, e: Event)
    requires Ok(s) && (e.forkId == 0 || e.forkId in s.forks)
  {
    Attaches(s.main, e.block) && Handle(e.env, s, e.block, e.forkId).result == 0
  }

  /** No stored luck is negative, and no fork has a block 0. */
  ghost predicate Sane(s: State) {
    && Nonnegative(s.main.blocks)
    && forall f :: f in s.forks ==> Nonnegative(s.forks[f].blocks) && 0 !in s.forks[f].blocks
  }

  ghost predicate SaneBlock(b: Block) { b.header.ln >= 0.0 && b.index != 0 }

  lemma CollectSane(s: State, b: Block, forkId: nat)
    requires Ok(s) && Sane(s) && SaneBlock(b) && (forkId == 0 || forkId in s.forks)
    ensures Sane(Collect(s, b, forkId).0)
  {
    hide Consistent, InsertBlock;
    ConsistentEmpty();
    InsertBlockConsistent(if forkId == 0 then EmptyTables else s.forks[forkId], b);
  }

  lemma CollectMain(s: State, b: Block, forkId: nat)
    requires forkId == 0 || forkId in s.forks
    ensures Collect(s, b, forkId).0.main == s.main
  {}

  lemma NonnegativeUnion(a: map<int, Header>, b: map<int, Header>)
    requires Nonnegative(a) && Nonnegative(b)
    ensures Nonnegative(a + b)
  {}

  lemma SaneWithout(s: State, f: nat)
    requires Sane(s)
    ensures Sane(s.(forks := s.forks - {f}))
  {}

  lemma SaneMain(s: State, main: Tables)
    requires Sane(s) && Nonnegative(main.blocks)
    ensures Sane(s.(main := main))
  {}

  /** One step keeps main or improves it, and it improves main exactly when it adopts a fork. */
  lemma StepImproves(env: Env, s: State, b: Block, forkId: nat)
    requires Ok(s) && Sane(s) && SaneBlock(b) && (forkId == 0 || forkId in s.forks)
    ensures Sane(Handle(env, s, b, forkId).state)
    ensures var s' := Handle(env, s, b, forkId).state;
      if Adopts(s, Event(env, b, forkId)) then Improves(s.main.blocks, s'.main.blocks) else s'.main == s.main
  {
    hide Consistent, ApplyFork, CheckTempChain, UpdatePool, Improves, Collect, Attaches, Certified, Nonnegative, Sane;
    CollectOk(s, b, forkId);
    CollectSane(s, b, forkId);
    CollectMain(s, b, forkId);
    var (s', f) := Collect(s, b, forkId);
    SaneWithout(s', f);
    SaneWithout(s, forkId);
    if Attaches(s.main, b) && CheckTempChain(env, s.main, s'.forks[f]) == 0 {
      Adopted(env, s', f);
      SaneMain(s'.(forks := s'.forks - {f}), ApplyFork(s'.main, s'.forks[f]));
      SanePool(Handle(env, s, b, forkId).state, s.mempool);
    }
  }

  lemma SanePool(s: State, pool: seq<Transaction>)
    requires Sane(s.(mempool := pool))
    ensures Sane(s)
  {}

  lemma Adopted(env: Env, s: State, f: nat)
    requires Ok(s) && Sane(s) && f in s.forks && CheckTempChain(env, s.main, s.forks[f]) == 0
    ensures Improves(s.main.blocks, ApplyFork(s.main, s.forks[f]).blocks)
    ensures Nonnegative(ApplyFork(s.main, s.forks[f]).blocks)
  {
    hide Consistent, ApplyFork, CheckTempChain, Improves, Nonnegative;
    AdoptionLoads(s.main, s.forks[f]);
    AdoptionImproves(env, s.main, s.forks[f]);
    NonnegativeUnion(s.main.blocks, s.forks[f].blocks);
  }

  lemma {:induction false} RunInvariant(states: seq<State>, events: seq<Event>, k: nat)
    requires IsRun(states, events) && Sane(states[0]) && k < |states|
    requires forall e :: e in events ==> SaneBlock(e.block)
    ensures Ok(states[k]) && Sane(states[k])
  {
    hide Ok, Sane, Handle, SaneBlock;
    if k > 0 {
      RunInvariant(states, events, k - 1);
      var e := events[k - 1];
      assert StepAt(states[k - 1], e, states[k]) && e in events;
      HandleOk(e.env, states[k - 1], e.block, e.forkId);
      StepImproves(e.env, states[k - 1], e.block, e.forkId);
    }
  }

  /** Over any run, main between two points is unchanged or improved; if some step between them adopts,
      it is improved, and therefore differs. So no earlier main chain ever comes back and total luck never drops. */
  lemma {:induction false} RunNeverReturns(states: seq<State>, events: seq<Event>, i: nat, j: nat)
    requires IsRun(states, events) && Sane(states[0]) && i <= j < |states|
    requires forall e :: e in events ==> SaneBlock(e.block)
    ensures states[i].main == states[j].main || Improves(states[i].main.blocks, states[j].main.blocks)
    ensures Luck(states[i].main.blocks) <= Luck(states[j].main.blocks)
    ensures (exists k :: i <= k < j && StepAt(states[k], events[k], states[k + 1]) && Adopts(states[k], events[k]))
      ==> Improves(states[i].main.blocks, states[j].main.blocks) && states[i].main.blocks != states[j].main.blocks
    decreases j - i
  {
    hide Ok, Sane, Handle, SaneBlock, HashesBefore, Luck, Adopts;
    if i < j {
      var e := events[j - 1];
      RunNeverReturns(states, events, i, j - 1);
      RunInvariant(states, events, j - 1);
      assert StepAt(states[j - 1], e, states[j]) && e in events;
      assert e == Event(e.env, e.block, e.forkId);
      StepImproves(e.env, states[j - 1], e.block, e.forkId);
      var a, b, c := states[i].main.blocks, states[j - 1].main.blocks, states[j].main.blocks;
      if Improves(a, b) && Improves(b, c) { ImprovesTransitive(a, b, c); }
      ImprovesIrreflexive(a);
    }
  }
}
