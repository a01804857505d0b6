/** The two message handlers that synchronise a node with a peer, and the exchange they drive. */
module Client {
  import opened Ledger
  import opened ForkView
  import opened ForkChoice
  import opened Verification
  import opened Node
  import opened Sync
  import opened Chain

  /** What is sent back for a received block. */
  datatype Answer = Request(index: int, forkId: nat) | CheckBlockchain | Nothing

  class Requester {
    const chain: Blockchain

    constructor (chain: Blockchain)
      ensures this.chain == chain
    {
      this.chain := chain;
    }

    /** A positive result asks for the block below; -2 tells the peer to check its database. */
    method HandleReceivedBlock(env: Env, b: Block, forkId: nat) returns (answer: Answer)
      requires Ok(chain.Now()) && (forkId == 0 || forkId in chain.db.forks)
      modifies chain`mempool, chain.db
      ensures var o := Handle(env, old(chain.Now()), b, forkId);
        chain.Now() == o.state &&
        answer == if o.result > 0 then Request(b.index - 1, o.forkId) else if o.result == -2 then CheckBlockchain
          else Nothing
    {
      hide Handle, Ok;
      var result, f := chain.HandleBlock(env, b, forkId);
      answer := if result > 0 then Request(b.index - 1, f) else if result == -2 then CheckBlockchain else Nothing;
    }

    /** One exchange with a peer that answers from its main chain, from its block i on: the rounds of the specified
        session. */
    method Synchronise(env: Env, peer: Responder, i: int) returns (indices: seq<int>)
      requires Ok(chain.Now()) && peer.db != chain.db && i in peer.db.main.blocks && i > 0
      modifies chain`mempool, chain.db
      ensures var session := Fetch(env, old(chain.Now()), peer.db.main, i, 0);
        indices == session.indices && chain.Now() == session.outcome.state
    {
      hide Handle, Ok;
      ghost var start, theirs := chain.Now(), peer.db.main;
      indices := [];
      var next, forkId, more := i, 0, true;
      while more
        invariant peer.db.main == theirs
        invariant more ==>
          next in theirs.blocks && next > 0 && Ok(chain.Now())
          && (forkId == 0 || forkId in chain.db.forks)
        invariant more ==> Continues(Fetch(env, start, theirs, i, 0), indices,
                                     Fetch(env, chain.Now(), theirs, next, forkId))
        invariant !more ==>
          indices == Fetch(env, start, theirs, i, 0).indices
          && chain.Now() == Fetch(env, start, theirs, i, 0).outcome.state
        decreases more, next
      {
        ghost var s, asked := chain.Now(), indices;
        var found := peer.SendBlockResponse(next);
        var b := found.value;
        FetchUnfolds(env, s, theirs, next, forkId);
        var answer := HandleReceivedBlock(env, b, forkId);
        indices := indices + [next];
        if answer.Request? && answer.index in peer.db.main.blocks {
          assert asked + ([next] + Fetch(env, chain.Now(), theirs, answer.index, answer.forkId).indices)
              == indices + Fetch(env, chain.Now(), theirs, answer.index, answer.forkId).indices;
          next, forkId := answer.index, answer.forkId;
        } else {
          more := false;
        }
      }
    }
  }

  class Responder {
    const db: Database

    constructor (db: Database)
      ensures this.db == db
    {
      this.db := db;
    }

    /** The latest block for request 0, else the requested one; None stands for the block object without
        fields that is sent when the responder lacks it. On a linked chain the answer to the request that follows a
        received block is the block which that one names as its predecessor. */
    method SendBlockResponse(requested: int) returns (b: Option<Block>)
      ensures b.None? <==> if requested == 0 then db.main.blocks.Keys == {} else requested !in db.main.blocks
      ensures b.Some? ==> b.value.index in db.main.blocks && b.value == LoadBlock(db.main, b.value.index)
      ensures b.Some? && requested != 0 ==> b.value.index == requested
      ensures b.Some? && requested == 0 ==> forall i :: i in db.main.blocks ==> i <= b.value.index
      ensures WellLinked(db.main.blocks) && requested > 0 && requested + 1 in db.main.blocks ==>
        b.Some? && b.value.header.hash == db.main.blocks[requested + 1].prev
    {
      var index := if requested == 0 then LastIndex(db.main) else requested;
      hide LoadTransactions;
      if WellLinked(db.main.blocks) && requested > 0 && requested + 1 in db.main.blocks {
        assert LinkAt(db.main.blocks, requested + 1);
      }
      b := if index in db.main.blocks then Some(LoadBlock(db.main, index)) else None;
    }
  }

  /** A session goes on as another one, after these indices. */
  ghost predicate Continues(all: Session, indices: seq<int>, rest: Session) {
    all.indices == indices + rest.indices && all.outcome == rest.outcome
  }

  lemma FetchUnfolds(env: Env, s: State, peer: Tables, i: int, forkId: nat)
    requires Ok(s) && (forkId == 0 || forkId in s.forks) && i in peer.blocks
    ensures var out, session := Handle(env, s, LoadBlock(peer, i), forkId), Fetch(env, s, peer, i, forkId);
      (out.result > 0 ==> i - 1 > 0) &&
      if out.result > 0 && i - 1 in peer.blocks then
        Ok(out.state) && out.forkId in out.state.forks &&
        var rest := Fetch(env, out.state, peer, i - 1, out.forkId);
        session.indices == [i] + rest.indices && session.outcome == rest.outcome
      else session.indices == [i] && session.outcome == out
  {
    hide LoadTransactions, Collect, ApplyFork, UpdatePool, AllBlocksVerify, IsLuckierChain;
    assert LoadBlock(peer, i).index == i;
    HandleOk(env, s, LoadBlock(peer, i), forkId);
    CollectOk(s, LoadBlock(peer, i), forkId);
  }
}
