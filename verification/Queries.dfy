/** The three SELECT expressions a block is checked against, on main and on a fork. */
module Queries {
  import opened Ledger
  import opened ForkView

  function First(fork: Tables): int
    requires fork.blocks.Keys != {}
  {
    MinOf(fork.blocks.Keys)
  }

  function Below(rows: seq<TxData>, limit: int): seq<TxData> {
    if rows == [] then []
    else if rows[0].block < limit then [rows[0]] + Below(rows[1..], limit)
    else Below(rows[1..], limit)
  }

  function GetHeader(main: Tables, view: View, index: int): Option<Header>
    requires view.ForkView? ==> view.fork.blocks.Keys != {}
  {
    var t := if view.ForkView? && First(view.fork) <= index then view.fork else main;
    if index in t.blocks then Some(t.blocks[index]) else None
  }

  /** existsTransaction: a row with this hash in an earlier block of the view. */
  predicate ExistsTransaction(main: Tables, view: View, hash: string, index: int)
    requires view.ForkView? ==> view.fork.blocks.Keys != {}
  {
    match view
    case MainView => exists d :: d in Rows(main) && d.hash == hash && d.block < index
    case ForkView(fork) =>
      || (exists d :: d in Rows(main) && d.hash == hash && d.block < First(fork))
      || (exists d :: d in Rows(fork) && d.hash == hash && d.block < index)
  }

  // ------------------------------------------------------- getInputSumOfBlock

  function JoinedPairs(rows: seq<TxData>, spent: seq<string>): seq<(string, int)> {
    if rows == [] then []
    else if rows[0].hash in spent then [(rows[0].hash, rows[0].value)] + JoinedPairs(rows[1..], spent)
    else JoinedPairs(rows[1..], spent)
  }

  /** SUM over SELECT DISTINCT: each pair counts once. */
  function SumDistinct(pairs: seq<(string, int)>): int {
    if pairs == [] then 0
    else (if pairs[0] in pairs[1..] then 0 else pairs[0].1) + SumDistinct(pairs[1..])
  }

  function InputSum(main: Tables, view: View, index: int): int
    requires view.ForkView? ==> view.fork.blocks.Keys != {}
  {
    match view
    case MainView => SumDistinct(JoinedPairs(Rows(main), SpentIn(main.inputs, index)))
    case ForkView(fork) =>
      SumDistinct(JoinedPairs(Below(Rows(main), First(fork)) + Rows(fork), SpentIn(fork.inputs, index)))
  }

  // --------------------------------------------------------------- getBalance

  /** The columns the balance query of a fork selects. */
  datatype Move = Move(sender: string, block: int, recipient: string, value: int)

  function MoveOf(d: TxData): Move { Move(d.sender, d.block, d.recipient, d.value) }

  function Moves(rows: seq<TxData>): (ms: seq<Move>)
    ensures |ms| == |rows|
  {
    seq(|rows|, i requires 0 <= i < |rows| => MoveOf(rows[i]))
  }

  /** UNION keeps one of every group of equal rows. */
  function Dedup(ms: seq<Move>): seq<Move> {
    if ms == [] then []
    else if ms[0] in ms[1..] then Dedup(ms[1..])
    else [ms[0]] + Dedup(ms[1..])
  }

  function BlocksOf(rows: seq<TxData>): set<int> { set d | d in rows :: d.block }

  /** The first block of a fork for the balance query: the smallest block among the fork's TRANSACTION rows. */
  function FirstPaying(fork: Tables): int
    requires Rows(fork) != []
  {
    assert Rows(fork)[0].block in BlocksOf(Rows(fork));
    MinOf(BlocksOf(Rows(fork)))
  }

  function BalanceMoves(main: Tables, view: View): seq<Move> {
    match view
    case MainView => Moves(Rows(main))
    case ForkView(fork) =>
      if Rows(fork) == [] then []        // MIN over no rows is NULL, and no row compares with NULL
      else Dedup(Moves(Below(Rows(main), FirstPaying(fork))) + Moves(Rows(fork)))
  }

  /** What one row adds to the balance of `key`; a payment to oneself adds nothing. */
  function Effect(m: Move, key: string, block: int): int {
    if m.block > block || m.sender == m.recipient then 0
    else (if m.recipient == key then m.value else 0) - (if m.sender == key then m.value else 0)
  }

  function Net(ms: seq<Move>, key: string, block: int): int {
    if ms == [] then 0 else Effect(ms[0], key, block) + Net(ms[1..], key, block)
  }

  function Balance(main: Tables, view: View, key: string, block: int): int {
    Net(BalanceMoves(main, view), key, block)
  }

  // --------------------------------------------- how far a fork's balance is off

  function Between(rows: seq<TxData>, low: int, high: int): seq<TxData> {
    if rows == [] then []
    else if low <= rows[0].block < high then [rows[0]] + Between(rows[1..], low, high)
    else Between(rows[1..], low, high)
  }

  /** The rows UNION drops: those that occur again further on. */
  function Repeated(ms: seq<Move>): seq<Move> {
    if ms == [] then []
    else if ms[0] in ms[1..] then [ms[0]] + Repeated(ms[1..])
    else Repeated(ms[1..])
  }

  /** Main rows the balance query of a fork still counts although adoption replaces them. */
  function HiddenMoves(main: Tables, fork: Tables): seq<Move>
    requires fork.blocks.Keys != {}
  {
    if Rows(fork) == [] then [] else Moves(Between(Rows(main), First(fork), FirstPaying(fork)))
  }

  /** Rows the balance query of a fork does not count although adoption keeps them. */
  function LostMoves(main: Tables, fork: Tables): seq<Move>
    requires fork.blocks.Keys != {}
  {
    if Rows(fork) == [] then Moves(Below(Rows(main), First(fork)))
    else Repeated(Moves(Below(Rows(main), FirstPaying(fork))) + Moves(Rows(fork)))
  }

  /** By how much the fork shows `key` richer than main will after adoption. */
  function Surplus(main: Tables, fork: Tables, key: string, block: int): int
    requires fork.blocks.Keys != {}
  {
    Net(HiddenMoves(main, fork), key, block) - Net(LostMoves(main, fork), key, block)
  }

  lemma {:induction false} NetConcat(a: seq<Move>, b: seq<Move>, key: string, block: int)
    ensures Net(a + b, key, block) == Net(a, key, block) + Net(b, key, block)
  {
    if a == [] {
      assert a + b == b;
    } else {
      assert (a + b)[1..] == a[1..] + b;
      NetConcat(a[1..], b, key, block);
    }
  }

  /** UNION splits the rows into those it keeps and those it drops. */
  lemma NetSplit(ms: seq<Move>, key: string, block: int)
    ensures Net(ms, key, block) == Net(Dedup(ms), key, block) + Net(Repeated(ms), key, block)
  {}

  lemma {:induction false} NetBetween(rows: seq<TxData>, low: int, high: int, key: string, block: int)
    requires low <= high
    ensures Net(Moves(Below(rows, high)), key, block)
         == Net(Moves(Below(rows, low)), key, block) + Net(Moves(Between(rows, low, high)), key, block)
  {
    if rows != [] {
      NetBetween(rows[1..], low, high, key, block);
      MovesHead(rows[0], Below(rows[1..], high));
      MovesHead(rows[0], Below(rows[1..], low));
      MovesHead(rows[0], Between(rows[1..], low, high));
    }
  }

  lemma MovesHead(d: TxData, rows: seq<TxData>)
    ensures Moves([d] + rows) == [MoveOf(d)] + Moves(rows)
    ensures Moves([d] + rows)[0] == MoveOf(d) && Moves([d] + rows)[1..] == Moves(rows)
  {}

  /** Payments to oneself move nothing. */
  lemma NetOfSelfPayments(ms: seq<Move>, key: string, block: int)
    requires forall m :: m in ms ==> m.sender == m.recipient
    ensures Net(ms, key, block) == 0
  {}

  lemma RepeatedTwice(ms: seq<Move>, m: Move)
    requires m in Repeated(ms)
    ensures multiset(ms)[m] >= 2
  {
    assert ms == [ms[0]] + ms[1..];
    if m in Repeated(ms[1..]) {
      RepeatedTwice(ms[1..], m);
    }
  }

  lemma BetweenContents(rows: seq<TxData>, low: int, high: int, d: TxData)
    ensures d in Between(rows, low, high) <==> d in rows && low <= d.block < high
  {}

  /** The rows that move something. */
  function Moving(ms: seq<Move>): seq<Move> {
    if ms == [] then []
    else if ms[0].sender == ms[0].recipient then Moving(ms[1..])
    else [ms[0]] + Moving(ms[1..])
  }

  lemma {:induction false} MovingCount(ms: seq<Move>, m: Move)
    ensures multiset(Moving(ms))[m] == if m.sender == m.recipient then 0 else multiset(ms)[m]
  {
    if ms != [] {
      MovingCount(ms[1..], m);
      assert ms == [ms[0]] + ms[1..];
    }
  }

  // ------------------------------------------ which differences do not matter

  function Without(pairs: seq<(string, int)>, p: (string, int)): seq<(string, int)> {
    if pairs == [] then []
    else if pairs[0] == p then Without(pairs[1..], p)
    else [pairs[0]] + Without(pairs[1..], p)
  }

  lemma WithoutContents(pairs: seq<(string, int)>, p: (string, int))
    ensures forall q :: q in Without(pairs, p) <==> q in pairs && q != p
  {}

  lemma {:induction false} SumWithout(pairs: seq<(string, int)>, p: (string, int))
    ensures SumDistinct(pairs) == SumDistinct(Without(pairs, p)) + (if p in pairs then p.1 else 0)
  {
    if pairs != [] {
      SumWithout(pairs[1..], p);
      WithoutContents(pairs[1..], p);
    }
  }

  lemma HeadIsMember<T>(s: seq<T>)
    ensures s == [] || s[0] in s
  {}

  lemma {:induction false} SumSameSet(a: seq<(string, int)>, b: seq<(string, int)>)
    requires forall p :: p in a <==> p in b
    ensures SumDistinct(a) == SumDistinct(b)
    decreases |a|
  {
    if a == [] {
      HeadIsMember(b);
    } else {
      var rest := a[1..];
      assert forall p :: p in a <==> p == a[0] || p in rest;
      if a[0] in rest {
        SumSameSet(rest, b);
      } else {
        SumWithout(b, a[0]);
        WithoutContents(b, a[0]);
        SumSameSet(rest, Without(b, a[0]));
      }
    }
  }

  lemma JoinedContents(rows: seq<TxData>, spent: seq<string>, p: (string, int))
    ensures p in JoinedPairs(rows, spent) <==> exists d :: d in rows && d.hash in spent && p == (d.hash, d.value)
  {
    if rows != [] {
      JoinedContents(rows[1..], spent, p);
      if p in JoinedPairs(rows, spent) {
        if rows[0].hash in spent && p == (rows[0].hash, rows[0].value) { assert rows[0] in rows; }
        else { var d :| d in rows[1..] && d.hash in spent && p == (d.hash, d.value); assert d in rows; }
      }
    }
  }

  lemma NetRemove(ms: seq<Move>, i: nat, key: string, block: int)
    requires i < |ms|
    ensures Net(ms, key, block) == Effect(ms[i], key, block) + Net(ms[..i] + ms[i + 1..], key, block)
  {
    if i == 0 {
      assert ms[..0] + ms[1..] == ms[1..];
    } else {
      NetRemove(ms[1..], i - 1, key, block);
      assert ms[1..][..i - 1] + ms[1..][i..] == (ms[..i] + ms[i + 1..])[1..];
    }
  }

  /** Two permutations of each other: the head of one can be removed from both. */
  lemma MatchHead<T>(a: seq<T>, b: seq<T>) returns (i: nat)
    requires multiset(a) == multiset(b) && a != []
    ensures i < |b| && b[i] == a[0]
    ensures multiset(a[1..]) == multiset(b[..i] + b[i + 1..])
  {
    HeadOccurs(a, b);
    i :| 0 <= i < |b| && b[i] == a[0];
    OneLess(b, i);
    TailLess(a);
  }

  lemma TailLess<T>(s: seq<T>)
    requires s != []
    ensures multiset(s[1..]) == multiset(s) - multiset{s[0]}
  {
    assert s == [s[0]] + s[1..];
  }

  lemma HeadOccurs<T>(a: seq<T>, b: seq<T>)
    requires multiset(a) == multiset(b) && a != []
    ensures a[0] in b
  {
    assert a[0] in multiset(a);
  }

  lemma OneLess<T>(s: seq<T>, i: nat)
    requires i < |s|
    ensures multiset(s[..i] + s[i + 1..]) == multiset(s) - multiset{s[i]}
  {
    assert s == s[..i] + [s[i]] + s[i + 1..];
  }

  lemma {:induction false} NetSameMultiset(a: seq<Move>, b: seq<Move>, key: string, block: int)
    requires multiset(a) == multiset(b)
    ensures Net(a, key, block) == Net(b, key, block)
    decreases |a|
  {
    if a == [] {
      assert |multiset(b)| == |multiset(a)| == 0;
    } else {
      var i := MatchHead(a, b);
      var b' := b[..i] + b[i + 1..];
      NetSameMultiset(a[1..], b', key, block);
      NetRemove(b, i, key, block);
    }
  }

  lemma BelowContents(rows: seq<TxData>, limit: int, d: TxData)
    ensures multiset(Below(rows, limit))[d] == if d.block < limit then multiset(rows)[d] else 0
    ensures d in Below(rows, limit) <==> d in rows && d.block < limit
  {
    if rows != [] {
      BelowContents(rows[1..], limit, d);
      assert rows == [rows[0]] + rows[1..];
    }
  }

  lemma {:induction false} MovesSameMultiset(a: seq<TxData>, b: seq<TxData>)
    requires multiset(a) == multiset(b)
    ensures multiset(Moves(a)) == multiset(Moves(b))
    decreases |a|
  {
    if a == [] {
      assert |multiset(b)| == |multiset(a)| == 0;
    } else {
      var i := MatchHead(a, b);
      var b' := b[..i] + b[i + 1..];
      MovesSameMultiset(a[1..], b');
      assert Moves(a) == [MoveOf(a[0])] + Moves(a[1..]);
      assert b == b[..i] + [b[i]] + b[i + 1..];
      assert Moves(b) == Moves(b[..i]) + [MoveOf(b[i])] + Moves(b[i + 1..]);
      assert Moves(b') == Moves(b[..i]) + Moves(b[i + 1..]);
    }
  }

  lemma DedupCount(ms: seq<Move>, m: Move)
    ensures multiset(Dedup(ms))[m] == if m in ms then 1 else 0
  {
    if ms != [] {
      DedupCount(ms[1..], m);
    }
  }

  lemma MovesContents(rows: seq<TxData>, m: Move)
    ensures m in Moves(rows) <==> exists d :: d in rows && MoveOf(d) == m
  {
    if m in Moves(rows) {
      var i :| 0 <= i < |rows| && Moves(rows)[i] == m;
      assert rows[i] in rows;
    }
    if d :| d in rows && MoveOf(d) == m {
      var i :| 0 <= i < |rows| && rows[i] == d;
      assert Moves(rows)[i] == m;
    }
  }
}
