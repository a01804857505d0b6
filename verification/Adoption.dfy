/** When the whole main chain still verifies after a fork was adopted: the fork's blocks and the kept blocks
    below them, for one adoption and over whole runs; and chains for which it does not. */
module Adoption {
  import opened Ledger
  import opened ForkView
  import opened Queries
  import opened Verification
  import opened ForkChoice
  import opened Node

  // ------------------------------------------------- the blocks below the fork

  /** The block's inputs still add up to the same: what adoption drops and what it brings in
      among the rows whose hashes the block names as inputs comes to the same sum. */
  predicate SameInputs(main: Tables, fork: Tables, index: int)
    requires fork.blocks.Keys != {}
  {
    SumDistinct(JoinedPairs(KeptRows(main, fork), SpentIn(main.inputs, index))) == InputSum(main, MainView, index)
  }

  lemma NetOfEarlier(rows: seq<TxData>, limit: int, key: string, block: int)
    requires block < limit
    ensures Net(Moves(rows), key, block) == Net(Moves(Below(rows, limit)), key, block)
  {
    if rows != [] {
      NetOfEarlier(rows[1..], limit, key, block);
      assert rows == [rows[0]] + rows[1..];
      MovesHead(rows[0], rows[1..]);
      MovesHead(rows[0], Below(rows[1..], limit));
    }
  }

  lemma NothingBelow(rows: seq<TxData>, limit: int)
    requires forall d :: d in rows ==> limit <= d.block
    ensures Below(rows, limit) == []
  {}

  lemma KeptBalance(main: Tables, fork: Tables, key: string, block: int)
    requires Consistent(main) && Consistent(fork)
    requires Contiguous(fork.blocks.Keys) && ReachesTip(main, fork) && block < First(fork)
    ensures Balance(ApplyFork(main, fork), MainView, key, block) == Balance(main, MainView, key, block)
  {
    hide ApplyFork, Consistent, Contiguous, ReachesTip, Rows, Moves, Net;
    var low, s := Below(Rows(main), First(fork)), First(fork);
    AdoptedMultiset(main, fork);
    MovesSameMultiset(Rows(ApplyFork(main, fork)), KeptRows(main, fork));
    NetSameMultiset(Moves(Rows(ApplyFork(main, fork))), Moves(KeptRows(main, fork)), key, block);
    MovesConcat(low, Rows(fork));
    NetConcat(Moves(low), Moves(Rows(fork)), key, block);
    forall d | d in Rows(fork) ensures s <= d.block { RowBlocks(fork, d); }
    NothingBelow(Rows(fork), s);
    NetOfEarlier(Rows(fork), s, key, block);
    NetOfEarlier(Rows(main), s, key, block);
    NetNone(key, block);
  }

  lemma KeptExists(main: Tables, fork: Tables, h: string, index: int)
    requires Consistent(main) && Consistent(fork)
    requires Contiguous(fork.blocks.Keys) && ReachesTip(main, fork) && index < First(fork)
    ensures ExistsTransaction(ApplyFork(main, fork), MainView, h, index)
      <==> ExistsTransaction(main, MainView, h, index)
  {
    hide ApplyFork, Consistent, Contiguous, ReachesTip, Rows;
    forall d: TxData | d.block < index ensures d in Rows(ApplyFork(main, fork)) <==> d in Rows(main) {
      SameMembers(main, fork, d);
      RowBlocks(fork, d);
    }
  }

  lemma {:induction false} KeptCheck(env: Env, env': Env, main: Tables, fork: Tables, index: int,
                                     txs: seq<Transaction>, t: Totals)
    requires env' == env.(now := env'.now)
    requires Consistent(main) && Consistent(fork)
    requires Contiguous(fork.blocks.Keys) && ReachesTip(main, fork) && index < First(fork)
    ensures CheckTransactions(env', ApplyFork(main, fork), MainView, index, txs, t)
         == CheckTransactions(env, main, MainView, index, txs, t)
    decreases |txs|
  {
    hide ApplyFork, Consistent, Contiguous, ReachesTip, ExistsTransaction, Balance;
    if txs != [] {
      var tx := txs[0];
      KeptExists(main, fork, tx.hash, index);
      KeptBalance(main, fork, tx.sender, index - 1);
      KeptCheck(env, env', main, fork, index, txs[1..], Totals(t.coinbase + 1, tx.value, t.out + tx.value));
      KeptCheck(env, env', main, fork, index, txs[1..], t.(out := t.out + tx.value));
    }
  }

  lemma KeptInputSum(main: Tables, fork: Tables, index: int)
    requires Consistent(main) && Consistent(fork)
    requires Contiguous(fork.blocks.Keys) && ReachesTip(main, fork) && index < First(fork)
    ensures InputSum(ApplyFork(main, fork), MainView, index)
         == SumDistinct(JoinedPairs(KeptRows(main, fork), SpentIn(main.inputs, index)))
  {
    hide ApplyFork, Consistent, Contiguous, ReachesTip, Rows, SpentIn, Below, LoadTransactions;
    var main' := ApplyFork(main, fork);
    var spent', spent := SpentIn(main'.inputs, index), SpentIn(main.inputs, index);
    var a, b := JoinedPairs(Rows(main'), spent'), JoinedPairs(KeptRows(main, fork), spent);
    AdoptionLoads(main, fork);
    assert index !in fork.blocks;
    AdoptedMultiset(main, fork);
    forall d ensures d in Rows(main') <==> d in KeptRows(main, fork) {
      assert d in Rows(main') <==> d in multiset(Rows(main'));
    }
    forall p: (string, int) ensures p in a <==> p in b {
      JoinedContents(Rows(main'), spent', p);
      JoinedContents(KeptRows(main, fork), spent, p);
      SpentByLoaded(main', index, p.0);
      SpentByLoaded(main, index, p.0);
    }
    SumSameSet(a, b);
  }

  /** A verified block of main below the fork is kept as it is, and still verifies after the adoption exactly
      when its inputs add up to the same. */
  lemma KeptVerifiesExactly(env: Env, env': Env, main: Tables, fork: Tables, index: int)
    requires Consistent(main) && Consistent(fork)
    requires Contiguous(fork.blocks.Keys) && ReachesTip(main, fork)
    requires index in main.blocks && index < First(fork)
    requires VerifyBlock(env, main, MainView, LoadBlock(main, index))
    requires env' == env.(now := env'.now) && env.now <= env'.now
    ensures index in ApplyFork(main, fork).blocks
    ensures LoadBlock(ApplyFork(main, fork), index) == LoadBlock(main, index)
    ensures VerifyBlock(env', ApplyFork(main, fork), MainView, LoadBlock(main, index))
      <==> SameInputs(main, fork, index)
  {
    hide ApplyFork, Consistent, Contiguous, ReachesTip, InputSum, CheckTransactions, LoadTransactions;
    AdoptionLoads(main, fork);
    KeptInputSum(main, fork, index);
    KeptCheck(env, env', main, fork, index, LoadTransactions(main, index), Totals(0, 0, 0));
  }

  /** The sum cannot change when no row from the fork point on, of main or of the fork, has a hash the block spends. */
  lemma SameInputsUnlessReused(main: Tables, fork: Tables, index: int)
    requires fork.blocks.Keys != {}
    requires forall d :: d in Rows(main) && d.block >= First(fork) ==> d.hash !in SpentIn(main.inputs, index)
    requires forall d :: d in Rows(fork) ==> d.hash !in SpentIn(main.inputs, index)
    ensures SameInputs(main, fork, index)
  {
    hide Rows, SpentIn;
    var spent := SpentIn(main.inputs, index);
    var a, b := JoinedPairs(KeptRows(main, fork), spent), JoinedPairs(Rows(main), spent);
    forall p: (string, int) ensures p in a <==> p in b {
      JoinedContents(KeptRows(main, fork), spent, p);
      JoinedContents(Rows(main), spent, p);
      forall d: TxData | d.hash in spent ensures d in KeptRows(main, fork) <==> d in Rows(main) {
        BelowContents(Rows(main), First(fork), d);
      }
    }
    SumSameSet(a, b);
  }

  // ------------------------------------------------------------ the whole chain

  ghost predicate MainVerifies(env: Env, main: Tables) {
    forall i {:trigger LoadBlock(main, i)} :: i in main.blocks ==> VerifyBlock(env, main, MainView, LoadBlock(main, i))
  }

  /** The adoption takes no covered payment its cover, and no kept block its inputs. */
  ghost predicate Harmless(env: Env, main: Tables, fork: Tables)
    requires fork.blocks.Keys != {}
  {
    && (forall i :: i in fork.blocks ==> Covered(env, main, fork, i, LoadTransactions(fork, i)))
    && (forall i :: i in main.blocks && i < First(fork) ==> SameInputs(main, fork, i))
  }

  /** A main chain that verifies, and a fork that does and reaches the tip: after the adoption every block of
      main verifies on main if and only if the adoption is harmless. */
  lemma AdoptionVerifiesMainExactly(env: Env, main: Tables, fork: Tables)
    requires Consistent(main) && Consistent(fork)
    requires Contiguous(fork.blocks.Keys) && ReachesTip(main, fork)
    requires MainVerifies(env, main) && AllVerify(env, main, fork)
    ensures MainVerifies(env, ApplyFork(main, fork)) <==> Harmless(env, main, fork)
  {
    hide ApplyFork, Consistent, Contiguous, VerifyBlock, LoadTransactions, Covered, SameInputs;
    var main' := ApplyFork(main, fork);
    AdoptionLoads(main, fork);
    assert env == env.(now := env.now);
    forall i | i in fork.blocks
      ensures VerifyBlock(env, main', MainView, LoadBlock(main', i))
        <==> Covered(env, main, fork, i, LoadTransactions(fork, i))
    {
      assert VerifyBlock(env, main, ForkView(fork), LoadBlock(fork, i));
      AdoptionVerifiesExactly(env, env, main, fork, i);
    }
    forall i | i in main.blocks && i < First(fork)
      ensures VerifyBlock(env, main', MainView, LoadBlock(main', i)) <==> SameInputs(main, fork, i)
    {
      assert VerifyBlock(env, main, MainView, LoadBlock(main, i));
      KeptVerifiesExactly(env, env, main, fork, i);
    }
    assert forall i :: i in main'.blocks ==> i in fork.blocks || (i in main.blocks && i < First(fork)) by {
      InForkOrBelow(main, fork);
    }
  }

  lemma InForkOrBelow(main: Tables, fork: Tables)
    requires Contiguous(fork.blocks.Keys) && ReachesTip(main, fork)
    ensures forall i :: i in main.blocks && i !in fork.blocks ==> i < First(fork)
  {}

  /** A chain that verifies goes on doing so as time passes. */
  lemma VerifiesLater(env: Env, env': Env, main: Tables)
    requires MainVerifies(env, main) && env' == env.(now := env'.now) && env.now <= env'.now
    ensures MainVerifies(env', main)
  {
    hide InputSum, LoadTransactions, CheckTransactions;
    forall i | i in main.blocks ensures VerifyBlock(env', main, MainView, LoadBlock(main, i)) {
      assert VerifyBlock(env, main, MainView, LoadBlock(main, i));
      LaterCheck(env, env', main, i, LoadBlock(main, i).txs, Totals(0, 0, 0));
    }
  }

  lemma LaterCheck(env: Env, env': Env, main: Tables, index: int, txs: seq<Transaction>, t: Totals)
    requires env' == env.(now := env'.now)
    ensures CheckTransactions(env', main, MainView, index, txs, t)
      == CheckTransactions(env, main, MainView, index, txs, t)
    decreases |txs|
  {
    hide ExistsTransaction, Balance;
    if txs != [] {
      LaterCheck(env, env', main, index, txs[1..], Totals(t.coinbase + 1, txs[0].value, t.out + txs[0].value));
      LaterCheck(env, env', main, index, txs[1..], t.(out := t.out + txs[0].value));
    }
  }

  // ------------------------------------------------------------------ whole runs

  /** The fork that the event completes. */
  function Completed(s: State, e: Event): Tables
    requires e.forkId == 0 || e.forkId in s.forks
  {
    var (s', f) := Collect(s, e.block, e.forkId);
    s'.forks[f]
  }

  lemma CompletedOk(s: State, e: Event)
    requires Ok(s) && (e.forkId == 0 || e.forkId in s.forks)
    ensures Completed(s, e).blocks.Keys != {} && Consistent(Completed(s, e))
  {
    hide Consistent, InsertBlock;
    CollectOk(s, e.block, e.forkId);
  }

  /** Blocks of a fork that is adopted name their predecessors, and reach the tip of main. */
  ghost predicate Reaching(s: State, e: Event) {
    Ok(s) && (e.forkId == 0 || e.forkId in s.forks)
    && (Adopts(s, e) ==> NamesPredecessors(Completed(s, e)) && ReachesTip(s.main, Completed(s, e)))
  }

  ghost predicate HarmlessStep(s: State, e: Event)
    requires Reaching(s, e)
  {
    Adopts(s, e) ==> Harmless(e.env, s.main, Completed(s, e))
  }

  lemma AdoptedMain(s: State, e: Event)
    requires Ok(s) && (e.forkId == 0 || e.forkId in s.forks)
    ensures Completed(s, e).blocks.Keys != {}
    ensures var main' := Handle(e.env, s, e.block, e.forkId).state.main;
      if Adopts(s, e) then main' == ApplyFork(s.main, Completed(s, e)) && AllVerify(e.env, s.main, Completed(s, e))
      else main' == s.main
  {
    hide Consistent, ApplyFork, InsertBlock, VerifyBlock, LoadTransactions, UpdatePool, IsLuckierChain;
    CollectOk(s, e.block, e.forkId);
    CollectMain(s, e.block, e.forkId);
    CompletedOk(s, e);
  }

  /** One handled block keeps main verified exactly when it does not adopt, or adopts harmlessly. */
  lemma StepVerifiesExactly(s: State, e: Event)
    requires Reaching(s, e) && MainVerifies(e.env, s.main)
    ensures MainVerifies(e.env, Handle(e.env, s, e.block, e.forkId).state.main) <==> HarmlessStep(s, e)
  {
    hide Consistent, ApplyFork, MainVerifies, AllVerify, Handle, Completed, Harmless, NamesPredecessors, ReachesTip,
         Adopts;
    AdoptedMain(s, e);
    if Adopts(s, e) {
      var fork := Completed(s, e);
      CompletedOk(s, e);
      VerifiedForkContiguous(e.env, s.main, fork);
      AdoptionVerifiesMainExactly(e.env, s.main, fork);
    }
  }

  /** The events of a run are judged by one environment whose clock never goes back. */
  ghost predicate OneClock(env: Env, events: seq<Event>) {
    forall k :: 0 <= k < |events| ==> Ticks(EnvBefore(env, events, k), events[k].env)
  }

  ghost function EnvBefore(env: Env, events: seq<Event>, k: nat): Env
    requires k < |events|
  {
    if k == 0 then env else events[k - 1].env
  }

  ghost predicate Ticks(env: Env, env': Env) { env' == env.(now := env'.now) && env.now <= env'.now }

  ghost predicate VerifiedUpTo(states: seq<State>, events: seq<Event>, n: nat)
    requires |states| == |events| + 1 && n <= |events|
  {
    forall k :: 0 <= k < n ==> MainVerifies(events[k].env, states[k + 1].main)
  }

  ghost predicate HarmlessUpTo(states: seq<State>, events: seq<Event>, n: nat)
    requires |states| == |events| + 1 && n <= |events|
    requires forall k :: 0 <= k < |events| ==> Reaching(states[k], events[k])
  {
    forall k :: 0 <= k < n ==> HarmlessStep(states[k], events[k])
  }

  lemma StepOfRun(states: seq<State>, events: seq<Event>, k: nat)
    requires IsRun(states, events) && k < |events|
    ensures StepAt(states[k], events[k], states[k + 1])
  {}

  /** Over every run from a main chain that verifies, in which the adopted forks reach the tip: every block of
      every main chain of the run verifies on it if and only if all its adoptions are harmless. */
  lemma {:induction false} RunVerifiesExactly(env: Env, states: seq<State>, events: seq<Event>, n: nat)
    requires IsRun(states, events) && OneClock(env, events) && n <= |events|
    requires forall k :: 0 <= k < |events| ==> Reaching(states[k], events[k])
    requires MainVerifies(env, states[0].main)
    ensures VerifiedUpTo(states, events, n) <==> HarmlessUpTo(states, events, n)
  {
    hide MainVerifies, HarmlessStep, Handle, Reaching, Ok;
    if n > 0 {
      RunVerifiesExactly(env, states, events, n - 1);
      if VerifiedUpTo(states, events, n - 1) {
        var s, e := states[n - 1], events[n - 1];
        assert Reaching(s, e);
        StepOfRun(states, events, n - 1);
        var before := EnvBefore(env, events, n - 1);
        assert Ticks(before, e.env);
        assert MainVerifies(before, s.main) by {
          if n > 1 { assert MainVerifies(events[n - 2].env, states[n - 2 + 1].main); }
        }
        VerifiesLater(before, e.env, s.main);
        StepVerifiesExactly(s, e);
      }
    }
  }

  /** In such a run main also stays linked by hashes, without a gap and with rising timestamps. */
  lemma {:induction false} RunKeepsLinks(states: seq<State>, events: seq<Event>, n: nat)
    requires IsRun(states, events) && n <= |events|
    requires forall k :: 0 <= k < |events| ==> Reaching(states[k], events[k])
    requires WellLinked(states[0].main.blocks)
    ensures WellLinked(states[n].main.blocks)
  {
    hide Handle, Adopts, WellLinked, NamesPredecessors, ReachesTip, AllVerify, Completed, Consistent;
    if n > 0 {
      RunKeepsLinks(states, events, n - 1);
      var s, e := states[n - 1], events[n - 1];
      assert Reaching(s, e);
      StepOfRun(states, events, n - 1);
      AdoptedMain(s, e);
      if Adopts(s, e) { AdoptionKeepsLinks(e.env, s.main, Completed(s, e)); }
    }
  }
}
