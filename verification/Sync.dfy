/** Fetching a chain from a peer: the requester walks down from the peer's latest block
    until a block attaches to its own main chain. */
module Sync {
  import opened Ledger
  import opened ForkView
  import opened Queries
  import opened Verification
  import opened ForkChoice
  import opened Node
  import opened Adoption

  /** One request loop: the indices received, and the state, fork and block index before the last block was handled. */
  datatype Session = Session(indices: seq<int>, before: State, forkId: nat, last: int, outcome: Outcome)

  /** handleReceivedBlock on every answer: as long as the result is positive, the block below the received one
      is requested under the same fork id. The peer answers from its main chain. */
  ghost function Fetch(env: Env, s: State, peer: Tables, i: int, forkId: nat): Session
    requires Ok(s) && (forkId == 0 || forkId in s.forks) && i in peer.blocks
    decreases i
  {
    var b := LoadBlock(peer, i);
    var out := Handle(env, s, b, forkId);
    HandleOk(env, s, b, forkId);
    CollectOk(s, b, forkId);
    if out.result > 0 && i - 1 in peer.blocks then
      assert out.forkId in out.state.forks;
      var rest := Fetch(env, out.state, peer, i - 1, out.forkId);
      rest.(indices := [i] + rest.indices)
    else
      Session([i], s, forkId, i, out)
  }

  // ------------------------------------------------------- common ancestors

  /** Up to index a no two headers at one index have the same hash and name different predecessors. */
  ghost predicate NoCollision(env: Env, main: map<int, Header>, peer: map<int, Header>, a: int) {
    forall i :: 1 < i <= a && i in main && i in peer && HeaderHash(env, main[i]) == HeaderHash(env, peer[i])
      ==> main[i].prev == peer[i].prev
  }

  function HeaderHash(env: Env, h: Header): string {
    env.blockHash(h.prev, h.ln, h.merkle, h.timestamp)
  }

  /** Every block above the genesis carries the hash of its own header. */
  ghost predicate OwnHashes(env: Env, blocks: map<int, Header>) {
    forall i :: i in blocks && i > 1 ==> HeaderHash(env, blocks[i]) == blocks[i].hash
  }

  ghost predicate SharesAt(a: Tables, b: Tables, i: int) {
    i in a.blocks && i in b.blocks && a.blocks[i].hash == b.blocks[i].hash
  }

  /** The highest index up to j at which both chains have the same hash. */
  ghost function Ancestor(main: Tables, peer: Tables, j: int): (a: int)
    requires SharesAt(main, peer, 1) && j >= 1
    ensures 1 <= a <= j && SharesAt(main, peer, a)
    ensures forall k :: a < k <= j ==> !SharesAt(main, peer, k)
    decreases j
  {
    if SharesAt(main, peer, j) then j else Ancestor(main, peer, j - 1)
  }

  ghost predicate SharesUpTo(main: Tables, peer: Tables, a: int) {
    forall k :: 1 <= k <= a ==> SharesAt(main, peer, k)
  }

  /** Two linked chains that share a block share every block below it exactly when no hashes collide there. */
  lemma {:induction false} SharedBelow(env: Env, main: Tables, peer: Tables, a: int)
    requires OwnHashes(env, main.blocks) && OwnHashes(env, peer.blocks)
    requires WellLinked(main.blocks) && WellLinked(peer.blocks)
    requires SharesAt(main, peer, a)
    ensures SharesUpTo(main, peer, a) <==> NoCollision(env, main.blocks, peer.blocks, a)
    decreases a
  {
    hide HeaderHash;
    if a > 1 {
      assert LinkAt(main.blocks, a) && LinkAt(peer.blocks, a);
      if main.blocks[a].prev == peer.blocks[a].prev {
        SharedBelow(env, main, peer, a - 1);
        assert SharesUpTo(main, peer, a) <==> SharesUpTo(main, peer, a - 1);
      } else {
        assert !SharesAt(main, peer, a - 1);
      }
    }
  }

  // --------------------------------------------------------- the gathered fork

  /** The fork table after blocks n, n-1, ..., lo of the peer were inserted in this order. */
  function Gather(peer: Tables, n: int, lo: int): Tables
    requires forall k :: lo <= k <= n ==> k in peer.blocks
    decreases n - lo
  {
    if lo > n then EmptyTables else InsertBlock(Gather(peer, n, lo + 1), LoadBlock(peer, lo))
  }

  lemma {:induction false} GatherHolds(peer: Tables, n: int, lo: int)
    requires forall k :: lo <= k <= n ==> k in peer.blocks
    ensures var t := Gather(peer, n, lo);
      && Consistent(t)
      && (forall k :: k in t.blocks <==> lo <= k <= n)
      && (forall k :: lo <= k <= n ==> LoadBlock(t, k) == LoadBlock(peer, k))
    decreases n - lo
  {
    hide InsertBlock, LoadTransactions, Consistent;
    if lo > n {
      ConsistentEmpty();
    } else {
      var t, b := Gather(peer, n, lo + 1), LoadBlock(peer, lo);
      GatherHolds(peer, n, lo + 1);
      InsertBlockConsistent(t, b);
      forall k | lo <= k <= n ensures LoadBlock(InsertBlock(t, b), k) == LoadBlock(peer, k) {
        InsertThenLoad(t, b, k);
        if k != lo { assert LoadBlock(t, k) == LoadBlock(peer, k); }
      }
    }
  }

  // ----------------------------------------------------------------- the walk

  ghost predicate Peers(env: Env, s: State, peer: Tables) {
    && Ok(s) && WellLinked(s.main.blocks) && WellLinked(peer.blocks)
    && SharesAt(s.main, peer, 1)
    && forall i :: i in peer.blocks ==> Certified(env, LoadBlock(peer, i))
  }

  lemma AttachesExactly(env: Env, s: State, peer: Tables, i: int)
    requires Peers(env, s, peer) && i in peer.blocks && i > 1
    ensures Attaches(s.main, LoadBlock(peer, i)) <==> SharesAt(s.main, peer, i - 1)
  {
    hide LoadTransactions, Ok, Certified;
    assert LinkAt(peer.blocks, i);
    if i - 1 <= LastIndex(s.main) {
      WellLinkedHasNoGap(s.main.blocks, LastIndex(s.main), i - 1);
    }
  }

  /** A linked peer chain with a block n has every block below it. */
  lemma AllBelow(peer: Tables, n: int)
    requires WellLinked(peer.blocks) && n in peer.blocks
    ensures forall k :: 1 <= k <= n ==> k in peer.blocks
  {
    forall k | 1 <= k <= n ensures k in peer.blocks { WellLinkedHasNoGap(peer.blocks, n, k); }
  }

  /** State of the loop when block i arrives: main is untouched and the fork holds the blocks above i. */
  ghost predicate Midway(s0: State, s: State, peer: Tables, n: int, i: int, forkId: nat)
    requires forall k :: i < k <= n ==> k in peer.blocks
  {
    && s.main == s0.main
    && (if i == n then forkId == 0 else forkId in s.forks && s.forks[forkId] == Gather(peer, n, i + 1))
  }

  lemma CollectGathers(s0: State, s: State, peer: Tables, n: int, i: int, forkId: nat)
    requires forall k :: i <= k <= n ==> k in peer.blocks
    requires Ok(s) && i <= n && i in peer.blocks && Midway(s0, s, peer, n, i, forkId)
    ensures var (s', f) := Collect(s, LoadBlock(peer, i), forkId);
      s'.main == s0.main && f in s'.forks && s'.forks[f] == Gather(peer, n, i)
  {
    hide InsertBlock, LoadTransactions;
    assert Gather(peer, n, n + 1) == EmptyTables;
  }

  /** A block that does not attach is collected, and the block below it is asked for. */
  lemma StepDown(env: Env, s0: State, s: State, peer: Tables, n: int, i: int, forkId: nat)
    requires Peers(env, s0, peer) && Ok(s) && 1 < i <= n
    requires forall k :: 1 <= k <= n ==> k in peer.blocks
    requires Midway(s0, s, peer, n, i, forkId) && !SharesAt(s0.main, peer, i - 1)
    requires forkId == 0 || forkId in s.forks
    ensures var out := Handle(env, s, LoadBlock(peer, i), forkId);
      out.result == i - 1 && Ok(out.state) && out.forkId in out.state.forks
        && Midway(s0, out.state, peer, n, i - 1, out.forkId)
  {
    hide Consistent, ApplyFork, CheckTempChain, UpdatePool, LoadTransactions, InsertBlock, WellLinked, Certified,
         Attaches, Collect;
    var b := LoadBlock(peer, i);
    CollectGathers(s0, s, peer, n, i, forkId);
    CollectOk(s, b, forkId);
    AttachesExactly(env, s0, peer, i);
  }

  lemma {:induction false} WalkDown(env: Env, s0: State, s: State, peer: Tables, n: int, i: int, forkId: nat)
    requires Peers(env, s0, peer) && Ok(s) && n in peer.blocks && 1 < i <= n
    requires forall k :: 1 <= k <= n ==> k in peer.blocks
    requires Midway(s0, s, peer, n, i, forkId) && (forkId == 0 || forkId in s.forks)
    ensures var a, session := Ancestor(s0.main, peer, i - 1), Fetch(env, s, peer, i, forkId);
      && session.indices == seq(i - a, k => i - k)
      && session.last == a + 1
      && Ok(session.before) && (session.forkId == 0 || session.forkId in session.before.forks)
      && Midway(s0, session.before, peer, n, a + 1, session.forkId)
      && session.outcome == Handle(env, session.before, LoadBlock(peer, a + 1), session.forkId)
    decreases i
  {
    hide Ok, Handle, Midway, WellLinked, Certified, Attaches, LoadBlock;
    assert SharesAt(s0.main, peer, 1);
    if SharesAt(s0.main, peer, i - 1) {
      AttachesHere(env, s0, s, peer, n, i, forkId);
    } else {
      StepDown(env, s0, s, peer, n, i, forkId);
      var out := Handle(env, s, LoadBlock(peer, i), forkId);
      WalkDown(env, s0, out.state, peer, n, i - 1, out.forkId);
      var a := Ancestor(s0.main, peer, i - 1);
      assert a == Ancestor(s0.main, peer, i - 2);
      assert [i] + seq(i - 1 - a, k => i - 1 - k) == seq(i - a, k => i - k);
    }
  }

  lemma AttachesHere(env: Env, s0: State, s: State, peer: Tables, n: int, i: int, forkId: nat)
    requires Peers(env, s0, peer) && Ok(s) && 1 < i <= n && i in peer.blocks
    requires forall k :: i < k <= n ==> k in peer.blocks
    requires Midway(s0, s, peer, n, i, forkId) && SharesAt(s0.main, peer, i - 1)
    requires forkId == 0 || forkId in s.forks
    ensures Handle(env, s, LoadBlock(peer, i), forkId).result <= 0
  {
    hide Ok, Handle, LoadBlock;
    AttachesExactly(env, s0, peer, i);
    HandleAttached(env, s, LoadBlock(peer, i), forkId);
  }

  /** A block that attaches ends the loop: its result is never positive. */
  lemma HandleAttached(env: Env, s: State, b: Block, forkId: nat)
    requires Ok(s) && (forkId == 0 || forkId in s.forks) && Attaches(s.main, b)
    ensures Handle(env, s, b, forkId).result <= 0
  {
    CollectOk(s, b, forkId);
  }

  /** The fork the last step of a sync checks: the peer's blocks above the highest common ancestor. */
  ghost function Offered(s: State, peer: Tables, n: int): Tables
    requires SharesAt(s.main, peer, 1) && n > 1 && WellLinked(peer.blocks) && n in peer.blocks
  {
    AllBelow(peer, n);
    Gather(peer, n, Ancestor(s.main, peer, n - 1) + 1)
  }

  /** A sync with a peer of chain length n requests n, n-1, ... one index lower each round, stops after at most
      n - 1 rounds right above the highest common ancestor, and there decides on a fork that holds exactly the
      peer's blocks above that ancestor. */
  lemma SyncGathersPeerBlocks(env: Env, s: State, peer: Tables, n: int)
    requires Peers(env, s, peer) && n in peer.blocks && n > 1
    ensures var a, session, fork := Ancestor(s.main, peer, n - 1), Fetch(env, s, peer, n, 0), Offered(s, peer, n);
      && session.indices == seq(n - a, k => n - k) && |session.indices| <= n - 1
      && (forall k :: k in fork.blocks <==> a < k <= n)
      && (forall k :: a < k <= n ==> k in peer.blocks && LoadBlock(fork, k) == LoadBlock(peer, k))
      && (CheckTempChain(env, s.main, fork) == 0 ==> session.outcome.state.main == ApplyFork(s.main, fork))
      && (CheckTempChain(env, s.main, fork) != 0 ==> session.outcome.state.main == s.main)
      && session.outcome.result == CheckTempChain(env, s.main, fork)
  {
    hide Ok, Consistent, ApplyFork, CheckTempChain, UpdatePool, LoadTransactions, InsertBlock, WellLinked, Certified,
         Attaches, Fetch, Collect;
    AllBelow(peer, n);
    var a, session, fork := Ancestor(s.main, peer, n - 1), Fetch(env, s, peer, n, 0), Offered(s, peer, n);
    WalkDown(env, s, s, peer, n, n, 0);
    GatherHolds(peer, n, a + 1);
    assert a + 1 in fork.blocks.Keys;
    var b := LoadBlock(peer, a + 1);
    assert Attaches(session.before.main, b) by { AttachesExactly(env, s, peer, a + 1); }
    CollectOk(session.before, b, session.forkId);
    CollectGathers(s, session.before, peer, n, a + 1, session.forkId);
  }

  /** Both chains have the same block hash, or no block, at every index. */
  ghost predicate SameChain(a: Tables, b: Tables) {
    forall i :: i in a.blocks || i in b.blocks ==> SharesAt(a, b, i)
  }

  /** When the peer's chain is at least as long and is adopted, both nodes hold the same chain exactly when no
      hashes of the two chains collide up to their highest common ancestor. */
  lemma SyncEqualizesChains(env: Env, s: State, peer: Tables, n: int)
    requires Peers(env, s, peer) && n in peer.blocks && n > 1
    requires forall k :: k in s.main.blocks || k in peer.blocks ==> k <= n
    requires OwnHashes(env, s.main.blocks) && OwnHashes(env, peer.blocks)
    requires Fetch(env, s, peer, n, 0).outcome.result == 0
    ensures SameChain(Fetch(env, s, peer, n, 0).outcome.state.main, peer)
      <==> NoCollision(env, s.main.blocks, peer.blocks, Ancestor(s.main, peer, n - 1))
  {
    hide Ok, Consistent, ApplyFork, CheckTempChain, LoadTransactions, Certified, Fetch, NoCollision, OwnHashes;
    var a, fork := Ancestor(s.main, peer, n - 1), Offered(s, peer, n);
    SyncGathersPeerBlocks(env, s, peer, n);
    assert Consistent(s.main) by { OkMain(s); }
    AdoptionLoads(s.main, fork);
    SharedBelow(env, s.main, peer, a);
    var main' := ApplyFork(s.main, fork);
    forall i | i > a && (i in main'.blocks || i in peer.blocks) ensures SharesAt(main', peer, i) {
      assert i in fork.blocks && LoadBlock(fork, i) == LoadBlock(peer, i);
    }
    forall i | i <= a ensures i in main'.blocks || i in peer.blocks ==> 1 <= i {
      if i < 1 {
        NothingBelowGenesis(s.main.blocks, i);
        NothingBelowGenesis(peer.blocks, i);
      }
    }
    forall i | 1 <= i <= a ensures i in peer.blocks && (SharesAt(main', peer, i) <==> SharesAt(s.main, peer, i)) {
      WellLinkedHasNoGap(peer.blocks, a, i);
    }
  }

  /** Blocks that verify carry the hashes of their own headers, and valid certificates. */
  lemma VerifiedChainIsOwn(env: Env, main: Tables)
    requires MainVerifies(env, main)
    ensures OwnHashes(env, main.blocks) && forall i :: i in main.blocks ==> Certified(env, LoadBlock(main, i))
  {
    hide Linked, CheckTransactions, InputSum, LoadTransactions, Certified;
    forall i | i in main.blocks
      ensures HeaderHash(env, main.blocks[i]) == main.blocks[i].hash && Certified(env, LoadBlock(main, i))
    {
      assert VerifyBlock(env, main, MainView, LoadBlock(main, i));
    }
  }

  /** So between two nodes whose chains verify nothing but the links and one common block has to be presumed. */
  lemma VerifiedChainsEqualize(env: Env, s: State, peer: Tables, n: int)
    requires Ok(s) && MainVerifies(env, s.main) && MainVerifies(env, peer)
    requires WellLinked(s.main.blocks) && WellLinked(peer.blocks) && SharesAt(s.main, peer, 1)
    requires n in peer.blocks && n > 1 && forall k :: k in s.main.blocks || k in peer.blocks ==> k <= n
    ensures Peers(env, s, peer)
    ensures Fetch(env, s, peer, n, 0).outcome.result == 0 ==>
      (SameChain(Fetch(env, s, peer, n, 0).outcome.state.main, peer)
       <==> NoCollision(env, s.main.blocks, peer.blocks, Ancestor(s.main, peer, n - 1)))
  {
    hide Ok, MainVerifies, Certified, LoadTransactions, Fetch, WellLinked, NoCollision, SameChain, OwnHashes;
    VerifiedChainIsOwn(env, s.main);
    VerifiedChainIsOwn(env, peer);
    if Fetch(env, s, peer, n, 0).outcome.result == 0 {
      SyncEqualizesChains(env, s, peer, n);
    }
  }

  lemma OkMain(s: State)
    requires Ok(s)
    ensures Consistent(s.main)
  {}
}
