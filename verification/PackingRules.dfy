/** What is in a packed block and why, stated without the packing loop. */
module PackingRules {
  import opened Ledger
  import opened ForkView
  import opened Queries
  import opened Verification
  import opened ForkChoice
  import opened Packing

  // ------------------------------------------------------------- unspent outputs

  /** A row of main up to its tip pays this value under this hash to the key. */
  ghost predicate Pays(main: Tables, key: string, u: Utxo, d: TxData) {
    d in Rows(main) && d.block <= LastIndex(main) && d.recipient == key && d.hash == u.hash && d.value == u.value
  }

  /** An input of main up to its tip names the hash. */
  ghost predicate IsSpent(main: Tables, hash: string) {
    exists q :: q in main.inputs && q.block <= LastIndex(main) && q.hash == hash
  }

  lemma {:induction false} DistinctOnce(us: seq<Utxo>)
    ensures forall i, j :: 0 <= i < j < |Distinct(us)| ==> Distinct(us)[i] != Distinct(us)[j]
  {
    if us != [] {
      DistinctOnce(us[1..]);
      DistinctContents(us[1..], us[0]);
    }
  }

  /** The unspent outputs of a key are exactly what main pays it and no input of main names. */
  lemma UtxosExactly(main: Tables, key: string, u: Utxo)
    ensures u in Utxos(main, key) <==> (exists d :: Pays(main, key, u, d)) && !IsSpent(main, u.hash)
    ensures forall i, j :: 0 <= i < j < |Utxos(main, key)| ==> Utxos(main, key)[i] != Utxos(main, key)[j]
  {
    hide Rows, LastIndex, Received, Distinct;
    var received := Received(Rows(main), main.inputs, key, LastIndex(main));
    ReceivedExactly(Rows(main), main.inputs, key, LastIndex(main), u);
    DistinctContents(received, u);
    DistinctOnce(received);
    if d :| d in Rows(main) && d.block <= LastIndex(main) && d.recipient == key
            && d.hash == u.hash && d.value == u.value {
      assert Pays(main, key, u, d);
    }
  }

  /** What is charged in a packed block was paid to the one it is charged to, and is unspent on main. */
  lemma ChargesAreUnspent(main: Tables, charges: seq<Charge>, used: seq<string>, c: Charge)
    requires GoodCharges(main, charges, used) && c in charges
    ensures (exists d :: Pays(main, c.owner, c.utxo, d)) && !IsSpent(main, c.utxo.hash)
  {
    hide Utxos;
    UtxosExactly(main, c.owner, c.utxo);
  }

  /** An output that main has spent already: block 2 passes on what block 1 paid to "a". */
  function SpentCoin(): Tables {
    Tables(map[1 := Header("h", "", "m", 1.0, 1, ""), 2 := Header("i", "h", "m", 1.0, 2, "")],
           [TxRow(1, TxData("c", 1, "", "a", 5, 0, 1)), TxRow(2, TxData("p", 2, "a", "b", 5, 1, 2))],
           [InputRow("c", 2, 2)])
  }

  lemma SpentCoinIsGone()
    ensures Utxos(SpentCoin(), "a") == []
  {
    hide Utxos;
    var main := SpentCoin();
    assert main.blocks.Keys == {1, 2};
    assert main.inputs[0] in main.inputs && main.inputs[0].block <= LastIndex(main);
    forall u ensures u !in Utxos(main, "a") {
      UtxosExactly(main, "a", u);
      if d :| Pays(main, "a", u, d) {
        assert d == Rows(main)[0] || d == Rows(main)[1];
        assert u.hash == "c" && IsSpent(main, u.hash);
      }
    }
    HeadIsMember(Utxos(main, "a"));
  }

  // ------------------------------------------------------------- covering a payment

  /** What the outputs that are not used yet are worth. */
  function Unused(us: seq<Utxo>, used: seq<string>): int {
    if us == [] then 0 else (if us[0].hash in used then 0 else us[0].value) + Unused(us[1..], used)
  }

  /** The outputs are taken from the front, until for the first time they cover the payment, or to the end. */
  lemma {:induction false} PickExactly(us: seq<Utxo>, used: seq<string>, sum: int, value: int)
    ensures var (input, total) := Packing.Pick(us, used, sum, value); var n := |input|;
      && n <= |us| && (forall i :: 0 <= i < n ==> input[i] == us[i].hash)
      && total == sum + Unused(us[..n], used)
      && (n < |us| ==> n > 0 && total >= value)
      && (forall k :: 1 <= k < n ==> sum + Unused(us[..k], used) < value)
    decreases |us|
  {
    if us != [] {
      var total := if us[0].hash in used then sum else sum + us[0].value;
      var n := |Packing.Pick(us, used, sum, value).0|;
      forall k | 1 <= k <= |us| ensures sum + Unused(us[..k], used) == total + Unused(us[1..][..k - 1], used) {
        assert us[..k][1..] == us[1..][..k - 1] && us[..k][0] == us[0];
      }
      if total >= value {
        assert us[1..][..0] == [];
      } else {
        PickExactly(us[1..], used, total, value);
        assert us[1..][..0] == [];
      }
    }
  }

  lemma {:induction false} UnusedPrefix(us: seq<Utxo>, used: seq<string>, k: nat)
    requires k <= |us| && forall u :: u in us ==> u.value >= 0
    ensures 0 <= Unused(us[..k], used) <= Unused(us, used)
    decreases |us|
  {
    if k > 0 {
      assert us[..k][1..] == us[1..][..k - 1] && us[..k][0] == us[0];
      assert us[0] in us && forall u :: u in us[1..] ==> u in us;
      UnusedPrefix(us[1..], used, k - 1);
    } else if us != [] {
      assert us[0] in us && forall u :: u in us[1..] ==> u in us;
      UnusedPrefix(us[1..], used, 0);
      assert us[1..][..0] == [] == us[..0];
    }
  }

  /** A payment that the change does not cover goes into the block exactly when the change and the unused outputs do. */
  lemma PaidExactly(env: Env, main: Tables, tx: Transaction, c: int, p: Packed)
    requires UniqueUtxos(main) && DistinctInputs(p.changes) && Payable(env, main, tx)
    requires -1 <= c < |p.changes| && (c >= 0 ==> p.changes[c].change < tx.value)
    requires forall u :: u in Utxos(main, tx.sender) ==> u.value >= 0
    ensures ByOutputs(env, main, tx, c, p).Paid? <==>
      (if c >= 0 then p.changes[c].change else 0) + Unused(Utxos(main, tx.sender), p.used) >= tx.value
  {
    hide Utxos, Packing.Pick, UniqueUtxos, DistinctInputs;
    var us, sum := Utxos(main, tx.sender), if c >= 0 then p.changes[c].change else 0;
    NeverInvalid(env, main, tx, c, p);
    PickExactly(us, p.used, sum, tx.value);
    var n := |Packing.Pick(us, p.used, sum, tx.value).0|;
    UnusedPrefix(us, p.used, n);
    if n == |us| { assert us[..n] == us; }
  }

  /** Signed, positive, and unknown: main has no transaction with its hash, or the first one is worth nothing. */
  ghost predicate Admissible(env: Env, main: Tables, tx: Transaction) {
    && env.signed(tx.hash, tx.sender, tx.recipient, tx.value, tx.timestamp) && 0 < tx.value
    && forall k :: IsFirst(Rows(main), tx.hash, k) ==> Rows(main)[k].value == 0
  }

  ghost predicate IsFirst(rows: seq<TxData>, hash: string, k: int) {
    0 <= k < |rows| && rows[k].hash == hash && forall j :: 0 <= j < k ==> rows[j].hash != hash
  }

  lemma {:induction false} UnknownExactly(rows: seq<TxData>, hash: string)
    ensures ValueByHash(rows, hash) == 0 <==> forall k :: IsFirst(rows, hash, k) ==> rows[k].value == 0
  {
    if rows != [] && rows[0].hash == hash {
      assert IsFirst(rows, hash, 0);
    } else if rows != [] {
      var rest := rows[1..];
      UnknownExactly(rest, hash);
      forall k ensures IsFirst(rows, hash, k) <==> IsFirst(rest, hash, k - 1) {
        if IsFirst(rows, hash, k) {
          assert forall j :: 0 <= j < k - 1 ==> rest[j] == rows[j + 1];
        }
        if IsFirst(rest, hash, k - 1) {
          assert forall j :: 1 <= j < k ==> rows[j] == rest[j - 1];
        }
      }
      forall k ensures IsFirst(rows, hash, k + 1) <==> IsFirst(rest, hash, k) {
        assert IsFirst(rows, hash, k + 1) <==> IsFirst(rest, hash, k + 1 - 1);
      }
    }
  }

  lemma PayableExactly(env: Env, main: Tables, tx: Transaction)
    ensures Payable(env, main, tx) <==> Admissible(env, main, tx)
  {
    hide Rows;
    UnknownExactly(Rows(main), tx.hash);
  }

  /** A payment that the sender's change covers names the inputs that the change came from, and the change gets
      smaller, or is gone when nothing is left. */
  lemma ChangePaysExactly(tx: Transaction, c: nat, p: Packed)
    requires c < |p.changes| && p.changes[c].change >= tx.value
    ensures var q, from, left := ByChange(tx, c, p), p.changes[c], p.changes[c].change - tx.value;
      && q.trans == p.trans + [tx.(inputs := from.inputs, numOfInputs := tx.numOfInputs + |from.inputs|)]
      && q.temp in q.trans && q.used == p.used
      && (left > 0 ==> q.changes == p.changes[c := Change(from.key, left, from.inputs)])
      && (left == 0 ==> q.changes == p.changes[..c] + p.changes[c + 1..])
  {}

  function Hashes(us: seq<Utxo>): (hs: seq<string>)
    ensures |hs| == |us|
  {
    seq(|us|, i requires 0 <= i < |us| => us[i].hash)
  }

  /** What the payment can draw on when the first n outputs are taken. */
  function Drawn(us: seq<Utxo>, change: int, used: seq<string>, n: nat): int
    requires n <= |us|
  {
    change + Unused(us[..n], used)
  }

  /** The first n outputs are the fewest that cover the payment. */
  ghost predicate Fewest(us: seq<Utxo>, change: int, used: seq<string>, value: int, n: nat) {
    n <= |us| && Drawn(us, change, used, n) >= value && forall k :: 1 <= k < n ==> Drawn(us, change, used, k) < value
  }

  /** Any other payment takes outputs from the front and marks them used, all that it looks at. It names them, or only
      the inputs of the sender's change when there is some, which is then gone; what is left over is new change from
      these outputs. */
  ghost predicate PaidFrom(tx: Transaction, c: int, p: Packed, q: Packed, taken: seq<string>, left: int)
    requires -1 <= c < |p.changes|
  {
    var inputs := if c >= 0 then p.changes[c].inputs else taken;
    && q.used == p.used + taken
    && q.temp == tx.(inputs := inputs, numOfInputs := tx.numOfInputs + |taken| + if c >= 0 then |inputs| else 0)
    && q.trans == p.trans + [q.temp]
    && q.changes == (if c >= 0 then p.changes[..c] + p.changes[c + 1..] else p.changes)
                    + (if left > 0 then [Change(tx.sender, left, taken)] else [])
  }

  lemma OutputsPayExactly(env: Env, main: Tables, tx: Transaction, c: int, p: Packed) returns (n: nat)
    requires -1 <= c < |p.changes| && ByOutputs(env, main, tx, c, p).Paid?
    ensures var us, change := Utxos(main, tx.sender), if c >= 0 then p.changes[c].change else 0;
      && Fewest(us, change, p.used, tx.value, n)
      && PaidFrom(tx, c, p, ByOutputs(env, main, tx, c, p).p, Hashes(us[..n]), Drawn(us, change, p.used, n) - tx.value)
  {
    hide Utxos, Packing.Pick, ValidTransaction, Unused;
    var us, change := Utxos(main, tx.sender), if c >= 0 then p.changes[c].change else 0;
    PickExactly(us, p.used, change, tx.value);
    var input := Packing.Pick(us, p.used, change, tx.value).0;
    n := |input|;
    assert input == Hashes(us[..n]);
  }

  // --------------------------------------------------------------- what is in the block

  /** Two transactions agree in all but their inputs. */
  predicate SamePayment(a: Transaction, b: Transaction) {
    a.sender == b.sender && a.recipient == b.recipient && a.value == b.value && a.hash == b.hash
    && a.timestamp == b.timestamp
  }

  /** The hash is that of an unspent output of the key. */
  ghost predicate OwnOutput(main: Tables, key: string, hash: string) {
    exists u :: u in Utxos(main, key) && u.hash == hash
  }

  ghost predicate OwnInputs(main: Tables, key: string, inputs: seq<string>) {
    forall h :: h in inputs ==> OwnOutput(main, key, h)
  }

  /** Every change entry and every payment names outputs of its own sender only. */
  ghost predicate NamesOwn(main: Tables, p: Packed) {
    && (forall c :: c in p.changes ==> OwnInputs(main, c.key, c.inputs))
    && (forall tx :: tx in p.trans ==> OwnInputs(main, tx.sender, tx.inputs))
  }

  /** A payment of the block is one of the pool that is signed, positive and unknown. */
  ghost predicate FromPool(env: Env, main: Tables, pool: seq<Transaction>, tx: Transaction) {
    exists t :: t in pool && Admissible(env, main, t) && SamePayment(tx, t)
  }

  lemma ChangeStep(env: Env, main: Tables, tx: Transaction, c: nat, p: Packed)
    requires c < |p.changes| && p.changes[c].key == tx.sender && NamesOwn(main, p)
    ensures var q := ByChange(tx, c, p);
      NamesOwn(main, q) && |q.trans| == |p.trans| + 1 && q.trans[..|p.trans|] == p.trans
      && SamePayment(q.trans[|p.trans|], tx)
  {
    hide OwnInputs;
    assert p.changes[c] in p.changes;
  }

  lemma OutputStep(env: Env, main: Tables, tx: Transaction, c: int, p: Packed)
    requires -1 <= c < |p.changes| && (c >= 0 ==> p.changes[c].key == tx.sender) && NamesOwn(main, p)
    ensures var a := ByOutputs(env, main, tx, c, p);
      && (a.Paid? ==> NamesOwn(main, a.p) && |a.p.trans| == |p.trans| + 1 && a.p.trans[..|p.trans|] == p.trans
                      && SamePayment(a.p.trans[|p.trans|], tx))
      && (a.Invalid? ==> NamesOwn(main, a.p) && a.p.trans == p.trans)
  {
    hide Utxos, Packing.Pick, ValidTransaction;
    var us, sum := Utxos(main, tx.sender), if c >= 0 then p.changes[c].change else 0;
    PickExactly(us, p.used, sum, tx.value);
    var input := Packing.Pick(us, p.used, sum, tx.value).0;
    forall h | h in input ensures OwnOutput(main, tx.sender, h) {
      var i :| 0 <= i < |input| && input[i] == h;
      assert us[i] in us;
    }
    if c >= 0 { assert p.changes[c] in p.changes; }
  }

  lemma FromSmallerPool(env: Env, main: Tables, pool: seq<Transaction>, i: nat, tx: Transaction)
    requires i < |pool| && FromPool(env, main, WithoutAt(pool, i), tx)
    ensures FromPool(env, main, pool, tx)
  {
    var t :| t in WithoutAt(pool, i) && Admissible(env, main, t) && SamePayment(tx, t);
    assert t in pool;
  }

  /** From any place of the loop on: what is added are payments of the pool, each in its turn, and what stays in the
      pool was there. */
  lemma {:induction false} PackedFrom(env: Env, main: Tables, pool: seq<Transaction>, i: nat, p: Packed)
    requires i <= |pool| && NamesOwn(main, p)
    ensures var r := PackFrom(env, main, pool, i, p);
      && NamesOwn(main, r.0) && p.trans <= r.0.trans
      && (forall k :: |p.trans| <= k < |r.0.trans| ==> FromPool(env, main, pool, r.0.trans[k]))
      && multiset(r.1) <= multiset(pool)
    decreases |pool| - i
  {
    hide Payable, Admissible, ByOutputs, ByChange, NamesOwn, FromPool;
    if i < |pool| {
      PayableExactly(env, main, pool[i]);
      var tx, rest := pool[i], WithoutAt(pool, i);
      var c := FindChange(p.changes, tx.sender);
      assert pool == pool[..i] + [tx] + pool[i + 1..];
      if !Payable(env, main, tx) {
        if i < |pool| - 1 { Smaller(env, main, pool, i, i + 1, p); }
      } else if c >= 0 && p.changes[c].change >= tx.value {
        ChangeStep(env, main, tx, c, p);
        Packs(env, main, pool, i, p, ByChange(tx, c, p));
      } else {
        OutputStep(env, main, tx, c, p);
        match ByOutputs(env, main, tx, c, p)
        case Uncovered => Smaller(env, main, pool, i, i, p);
        case Invalid(q) => if i < |pool| - 1 { Smaller(env, main, pool, i, i + 1, q); }
        case Paid(q) => Packs(env, main, pool, i, p, q);
      }
    }
  }

  /** One transaction less in the pool. */
  lemma Smaller(env: Env, main: Tables, pool: seq<Transaction>, i: nat, next: nat, p: Packed)
    requires i < |pool| && i <= next <= |pool| - 1 && NamesOwn(main, p)
    ensures var r := PackFrom(env, main, WithoutAt(pool, i), next, p);
      && NamesOwn(main, r.0) && p.trans <= r.0.trans
      && (forall k :: |p.trans| <= k < |r.0.trans| ==> FromPool(env, main, pool, r.0.trans[k]))
      && multiset(r.1) <= multiset(pool)
    decreases |pool| - i, 0
  {
    hide PackFrom, NamesOwn, FromPool;
    var rest := WithoutAt(pool, i);
    var r := PackFrom(env, main, rest, next, p);
    PackedFrom(env, main, rest, next, p);
    assert pool == pool[..i] + [pool[i]] + pool[i + 1..];
    forall k | |p.trans| <= k < |r.0.trans| ensures FromPool(env, main, pool, r.0.trans[k]) {
      FromSmallerPool(env, main, pool, i, r.0.trans[k]);
    }
  }

  /** One payment more in the block. */
  lemma Packs(env: Env, main: Tables, pool: seq<Transaction>, i: nat, p: Packed, q: Packed)
    requires i < |pool| && NamesOwn(main, q) && Admissible(env, main, pool[i])
    requires |q.trans| == |p.trans| + 1 && q.trans[..|p.trans|] == p.trans && SamePayment(q.trans[|p.trans|], pool[i])
    ensures var r := PackFrom(env, main, pool, i + 1, q);
      && NamesOwn(main, r.0) && p.trans <= r.0.trans
      && (forall k :: |p.trans| <= k < |r.0.trans| ==> FromPool(env, main, pool, r.0.trans[k]))
      && multiset(r.1) <= multiset(pool)
    decreases |pool| - i, 0
  {
    hide PackFrom, NamesOwn, Admissible;
    var r := PackFrom(env, main, pool, i + 1, q);
    PackedFrom(env, main, pool, i + 1, q);
    assert r.0.trans[|p.trans|] == q.trans[|p.trans|];
    assert FromPool(env, main, pool, q.trans[|p.trans|]) by { assert pool[i] in pool; }
    assert p.trans == r.0.trans[..|p.trans|];
  }

  lemma EmittedAt(changes: seq<Change>, temp: Transaction, changeHash: string -> string, i: nat)
    requires i < |changes|
    ensures |Emitted(changes, temp, changeHash)| == |changes|
    ensures var c, tx := changes[i], Emitted(changes, temp, changeHash)[i];
      tx.sender == tx.recipient == c.key && tx.value == c.change && tx.inputs == c.inputs
      && tx.numOfInputs == |c.inputs|
      && tx.hash == changeHash(c.key) && tx.timestamp == temp.timestamp
    decreases |changes|
  {
    var n := |changes| - 1;
    if n > 0 { EmittedAt(changes[..n], temp, changeHash, if i < n then i else 0); }
  }

  lemma EmittedLength(changes: seq<Change>, temp: Transaction, changeHash: string -> string)
    ensures |Emitted(changes, temp, changeHash)| == |changes|
  {
    if changes != [] { EmittedAt(changes, temp, changeHash, 0); }
  }

  /** A packed block consists of payments of the pool, each signed, positive and unknown to main, and of positive
      payments of change by a sender to itself. All of them name unspent outputs of their own senders only, and the
      pool is left with transactions that were in it. */
  lemma BlockIsOfPayments(env: Env, main: Tables, pool: seq<Transaction>, changeHash: string -> string)
    requires UniqueUtxos(main)
    requires GoodChanges(PackFrom(env, main, pool, 0, Packed([], [], [], NO_TRANSACTION)).0.changes)
    ensures var r := PackFrom(env, main, pool, 0, Packed([], [], [], NO_TRANSACTION));
      var trans := r.0.trans + Emitted(r.0.changes, r.0.temp, changeHash);
      && (forall k :: 0 <= k < |trans| ==> OwnInputs(main, trans[k].sender, trans[k].inputs))
      && (forall k :: 0 <= k < |r.0.trans| ==> FromPool(env, main, pool, trans[k]))
      && (forall k :: |r.0.trans| <= k < |trans| ==> trans[k].sender == trans[k].recipient && trans[k].value > 0)
      && multiset(r.1) <= multiset(pool)
  {
    hide PackFrom, Emitted, OwnInputs, FromPool, UniqueUtxos;
    var r := PackFrom(env, main, pool, 0, Packed([], [], [], NO_TRANSACTION));
    PackedFrom(env, main, pool, 0, Packed([], [], [], NO_TRANSACTION));
    var out := Emitted(r.0.changes, r.0.temp, changeHash);
    var trans := r.0.trans + out;
    EmittedLength(r.0.changes, r.0.temp, changeHash);
    forall k | |r.0.trans| <= k < |trans|
      ensures trans[k].sender == trans[k].recipient && trans[k].value > 0
        && OwnInputs(main, trans[k].sender, trans[k].inputs)
    {
      var i := k - |r.0.trans|;
      EmittedAt(r.0.changes, r.0.temp, changeHash, i);
      assert trans[k] == out[i] && r.0.changes[i] in r.0.changes;
    }
    forall k | 0 <= k < |r.0.trans| ensures OwnInputs(main, trans[k].sender, trans[k].inputs) {
      assert trans[k] in r.0.trans;
    }
  }
}
