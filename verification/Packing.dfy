/** Packing waiting transactions into a block: which unspent outputs are charged, and what the change is. */
module Packing {
  import opened Ledger
  import opened ForkView
  import opened Queries
  import opened Verification
  import opened ForkChoice

  datatype Utxo = Utxo(hash: string, value: int)

  /** Change of one sender that later transactions of the same block may still spend. */
  datatype Change = Change(key: string, change: int, inputs: seq<string>)

  /** An unspent output that was counted towards a payment of its owner. */
  datatype Charge = Charge(owner: string, utxo: Utxo)

  // ------------------------------------------------------------------- getUTXO

  predicate SpentUpTo(ins: seq<InputRow>, hash: string, last: int) {
    exists q :: q in ins && q.hash == hash && q.block <= last
  }

  function Received(rows: seq<TxData>, ins: seq<InputRow>, key: string, last: int): seq<Utxo> {
    if rows == [] then []
    else if rows[0].block <= last && rows[0].recipient == key && !SpentUpTo(ins, rows[0].hash, last) then
      [Utxo(rows[0].hash, rows[0].value)] + Received(rows[1..], ins, key, last)
    else Received(rows[1..], ins, key, last)
  }

  /** SELECT DISTINCT. */
  function Distinct(us: seq<Utxo>): seq<Utxo> {
    if us == [] then []
    else if us[0] in us[1..] then Distinct(us[1..])
    else [us[0]] + Distinct(us[1..])
  }

  function Utxos(main: Tables, key: string): seq<Utxo> {
    Distinct(Received(Rows(main), main.inputs, key, LastIndex(main)))
  }

  lemma {:induction false} ReceivedExactly(rows: seq<TxData>, ins: seq<InputRow>, key: string, last: int, u: Utxo)
    ensures u in Received(rows, ins, key, last) <==>
      && (exists d :: d in rows && d.block <= last && d.recipient == key && d.hash == u.hash && d.value == u.value)
      && !exists q :: q in ins && q.block <= last && q.hash == u.hash
  {
    if rows != [] {
      ReceivedExactly(rows[1..], ins, key, last, u);
      assert rows == [rows[0]] + rows[1..];
      assert rows[0] in rows;
      assert forall d :: d in rows <==> d == rows[0] || d in rows[1..];
    }
  }

  lemma DistinctContents(us: seq<Utxo>, u: Utxo)
    ensures u in Distinct(us) <==> u in us
  {}

  /** An output that is listed is named by no input of main. */
  lemma ListedIsUnspent(main: Tables, key: string, u: Utxo)
    requires u in Utxos(main, key)
    ensures forall q :: q in main.inputs && q.block <= LastIndex(main) ==> q.hash != u.hash
  {
    hide Rows, LastIndex, Received, Distinct;
    ReceivedExactly(Rows(main), main.inputs, key, LastIndex(main), u);
    DistinctContents(Received(Rows(main), main.inputs, key, LastIndex(main)), u);
  }

  lemma ChargedIsUnspent(main: Tables, charges: seq<Charge>, used: seq<string>)
    requires GoodCharges(main, charges, used)
    ensures forall c, q :: c in charges && q in main.inputs && q.block <= LastIndex(main) ==> q.hash != c.utxo.hash
  {
    hide Utxos, LastIndex;
    forall c | c in charges
      ensures forall q :: q in main.inputs && q.block <= LastIndex(main) ==> q.hash != c.utxo.hash
    {
      ListedIsUnspent(main, c.owner, c.utxo);
    }
  }

  /** getTransactionValueByHash: the value of the first row with this hash, 0 without one. */
  function ValueByHash(rows: seq<TxData>, hash: string): int {
    if rows == [] then 0 else if rows[0].hash == hash then rows[0].value else ValueByHash(rows[1..], hash)
  }

  ghost predicate UniqueHashes(us: seq<Utxo>) {
    forall i, j :: 0 <= i < j < |us| ==> us[i].hash != us[j].hash
  }

  ghost predicate UniqueUtxos(main: Tables) {
    forall key :: UniqueHashes(Utxos(main, key))
  }

  // ---------------------------------------------------------------------- sums

  function Spent(txs: seq<Transaction>, key: string): int {
    if txs == [] then 0
    else Spent(txs[..|txs| - 1], key) + if txs[|txs| - 1].sender == key then txs[|txs| - 1].value else 0
  }

  function Pending(cs: seq<Change>, key: string): int {
    if cs == [] then 0 else (if cs[0].key == key then cs[0].change else 0) + Pending(cs[1..], key)
  }

  function Charged(cs: seq<Charge>, key: string): int {
    if cs == [] then 0
    else Charged(cs[..|cs| - 1], key) + if cs[|cs| - 1].owner == key then cs[|cs| - 1].utxo.value else 0
  }

  function Total(us: seq<Utxo>): int {
    if us == [] then 0 else us[0].value + Total(us[1..])
  }

  lemma SpentAppend(txs: seq<Transaction>, tx: Transaction, key: string)
    ensures Spent(txs + [tx], key) == Spent(txs, key) + if tx.sender == key then tx.value else 0
  {
    assert (txs + [tx])[..|txs|] == txs;
  }

  lemma ChargedAppend(cs: seq<Charge>, c: Charge, key: string)
    ensures Charged(cs + [c], key) == Charged(cs, key) + if c.owner == key then c.utxo.value else 0
  {
    assert (cs + [c])[..|cs|] == cs;
  }

  lemma {:induction false} ChargedConcat(a: seq<Charge>, b: seq<Charge>, key: string)
    ensures Charged(a + b, key) == Charged(a, key) + Charged(b, key)
  {
    if b == [] {
      assert a + b == a;
    } else {
      var n := |b| - 1;
      ChargedConcat(a, b[..n], key);
      ChargedAppend(a + b[..n], b[n], key);
      assert b == b[..n] + [b[n]];
      assert a + b == a + b[..n] + [b[n]];
    }
  }

  lemma {:induction false} PendingConcat(a: seq<Change>, b: seq<Change>, key: string)
    ensures Pending(a + b, key) == Pending(a, key) + Pending(b, key)
  {
    if a == [] {
      assert a + b == b;
    } else {
      assert (a + b)[1..] == a[1..] + b;
      PendingConcat(a[1..], b, key);
    }
  }

  /** Taking one entry out of the change list. */
  lemma PendingRemove(cs: seq<Change>, i: nat, key: string)
    requires i < |cs|
    ensures Pending(cs, key) == Pending(cs[..i] + cs[i + 1..], key) + if cs[i].key == key then cs[i].change else 0
  {
    assert cs == cs[..i] + [cs[i]] + cs[i + 1..];
    PendingConcat(cs[..i] + [cs[i]], cs[i + 1..], key);
    PendingConcat(cs[..i], [cs[i]], key);
    PendingConcat(cs[..i], cs[i + 1..], key);
    assert [cs[i]][1..] == [];
  }

  // ---------------------------------------------------------------- invariants

  /** At most one entry per sender, always positive, never the same input twice. */
  ghost predicate GoodChanges(cs: seq<Change>) {
    && (forall i, j :: 0 <= i < j < |cs| ==> cs[i].key != cs[j].key)
    && (forall i :: 0 <= i < |cs| ==> cs[i].change > 0 && DistinctStrings(cs[i].inputs))
  }

  ghost predicate DistinctStrings(s: seq<string>) {
    forall i, j :: 0 <= i < j < |s| ==> s[i] != s[j]
  }

  /** No hash is charged twice, every charge is an unspent output of its owner, and the used list names exactly the
      charged hashes. */
  ghost predicate GoodCharges(main: Tables, charges: seq<Charge>, used: seq<string>) {
    && (forall i, j :: 0 <= i < j < |charges| ==> charges[i].utxo.hash != charges[j].utxo.hash)
    && (forall c :: c in charges ==> c.utxo in Utxos(main, c.owner) && c.utxo.hash in used)
    && (forall h :: h in used ==> exists c :: c in charges && c.utxo.hash == h)
  }

  /** Nothing is created or lost: what a sender pays in the block plus its pending change is what was charged to it. */
  ghost predicate Balanced(txs: seq<Transaction>, changes: seq<Change>, charges: seq<Charge>) {
    forall key :: Spent(txs, key) + Pending(changes, key) == Charged(charges, key)
  }

  lemma PayFromChange(txs: seq<Transaction>, changes: seq<Change>, charges: seq<Charge>, c: nat, tx: Transaction)
    returns (changes': seq<Change>)
    requires Balanced(txs, changes, charges) && GoodChanges(changes)
    requires c < |changes| && changes[c].key == tx.sender && 0 < tx.value <= changes[c].change
    ensures var left := changes[c].change - tx.value;
      changes' == if left == 0 then changes[..c] + changes[c + 1..] else changes[c := changes[c].(change := left)]
    ensures Balanced(txs + [tx], changes', charges) && GoodChanges(changes')
  {
    var left := changes[c].change - tx.value;
    var updated := changes[c := changes[c].(change := left)];
    changes' := if left == 0 then changes[..c] + changes[c + 1..] else updated;
    forall key ensures Spent(txs + [tx], key) + Pending(changes', key) == Charged(charges, key) {
      SpentAppend(txs, tx, key);
      PendingRemove(changes, c, key);
      PendingRemove(updated, c, key);
      assert updated[..c] + updated[c + 1..] == changes[..c] + changes[c + 1..];
    }
  }

  lemma PayFromUtxos(txs: seq<Transaction>, changes: seq<Change>, charges: seq<Charge>, fresh_: seq<Charge>,
                     changes1: seq<Change>, tx: Transaction, sum: int, inputs: seq<string>)
    returns (changes': seq<Change>)
    requires Balanced(txs, changes, charges)
    requires forall key ::
      Pending(changes1, key)
      == Pending(changes, key) - (if key == tx.sender then sum - Charged(fresh_, key) else 0)
    requires forall key :: key != tx.sender ==> Charged(fresh_, key) == 0
    requires GoodChanges(changes1) && (forall x :: x in changes1 ==> x.key != tx.sender)
    requires sum >= tx.value && DistinctStrings(inputs)
    ensures changes' == changes1 + if sum - tx.value != 0 then [Change(tx.sender, sum - tx.value, inputs)] else []
    ensures Balanced(txs + [tx], changes', charges + fresh_) && GoodChanges(changes')
  {
    hide Spent, Pending, Charged;
    var change := Change(tx.sender, sum - tx.value, inputs);
    var added := if sum - tx.value != 0 then [change] else [];
    changes' := changes1 + added;
    forall key ensures Spent(txs + [tx], key) + Pending(changes', key) == Charged(charges + fresh_, key) {
      SpentAppend(txs, tx, key);
      PendingConcat(changes1, added, key);
      ChargedConcat(charges, fresh_, key);
      PendingOne(change, key);
    }
  }

  lemma PendingOne(c: Change, key: string)
    ensures Pending([c], key) == (if c.key == key then c.change else 0) && Pending([], key) == 0
  {
    assert |[c][1..]| == 0;
  }

  /** The change list without one sender's entry. */
  lemma DropChange(changes: seq<Change>, c: nat) returns (changes': seq<Change>)
    requires GoodChanges(changes) && c < |changes|
    ensures changes' == changes[..c] + changes[c + 1..] && GoodChanges(changes')
    ensures forall x :: x in changes' ==> x.key != changes[c].key
    ensures forall key ::
      Pending(changes', key)
      == Pending(changes, key) - if key == changes[c].key then changes[c].change else 0
  {
    changes' := changes[..c] + changes[c + 1..];
    forall key ensures Pending(changes', key)
        == Pending(changes, key) - if key == changes[c].key then changes[c].change else 0 {
      PendingRemove(changes, c, key);
    }
    forall x | x in changes' ensures x.key != changes[c].key {
      var i :| 0 <= i < |changes'| && changes'[i] == x;
    }
  }

  // ------------------------------------------------- picking outputs for a payment

  /** `picked` are the outputs of `seen` that are not used yet, once each; `input` lists the hashes of all of `seen`. */
  ghost predicate Picked(seen: seq<Utxo>, used: seq<string>, input: seq<string>, picked: seq<Charge>, owner: string) {
    && |input| == |seen| && (forall i :: 0 <= i < |seen| ==> input[i] == seen[i].hash)
    && (forall c :: c in picked ==> c.owner == owner && c.utxo in seen && c.utxo.hash !in used)
    && (forall u :: u in seen ==> u.hash in used || exists c :: c in picked && c.utxo == u)
    && (UniqueHashes(seen) ==> forall i, j :: 0 <= i < j < |picked| ==> picked[i].utxo.hash != picked[j].utxo.hash)
  }

  lemma PickOne(seen: seq<Utxo>, used: seq<string>, input: seq<string>, picked: seq<Charge>, owner: string, u: Utxo)
    requires Picked(seen, used, input, picked, owner)
    ensures var picked' := if u.hash in used then picked else picked + [Charge(owner, u)];
      Picked(seen + [u], used, input + [u.hash], picked', owner)
      && forall key :: Charged(picked', key) == Charged(picked, key) + if u.hash !in used && owner == key then u.value
        else 0
  {
    hide Charged;
    var c := Charge(owner, u);
    var picked' := if u.hash in used then picked else picked + [c];
    forall key ensures Charged(picked', key) == Charged(picked, key) + if u.hash !in used && owner == key then u.value
        else 0 {
      ChargedAppend(picked, c, key);
    }
    var seen' := seen + [u];
    if UniqueHashes(seen') {
      UniquePrefix(seen, u);
      forall i | 0 <= i < |picked| ensures picked[i].utxo.hash != u.hash {
        assert picked[i] in picked;
      }
    }
    forall v | v in seen' ensures v.hash in used || exists d :: d in picked' && d.utxo == v {
      if v in seen && v.hash !in used {
        var d :| d in picked && d.utxo == v;
        assert d in picked';
      } else if v.hash !in used {
        assert c in picked';
      }
    }
  }

  lemma UniquePrefix(seen: seq<Utxo>, u: Utxo)
    requires UniqueHashes(seen + [u])
    ensures UniqueHashes(seen) && forall v :: v in seen ==> v.hash != u.hash
  {
    var all := seen + [u];
    forall i, j | 0 <= i < j < |seen| ensures seen[i].hash != seen[j].hash {
      assert all[i].hash != all[j].hash;
    }
    forall v | v in seen ensures v.hash != u.hash {
      var i :| 0 <= i < |seen| && seen[i] == v;
      assert all[i].hash != all[|seen|].hash;
    }
  }

  /** The hashes listed as inputs for a payment, and the sum that is reached with what was there before. */
  function Pick(utxo: seq<Utxo>, used: seq<string>, sum: int, value: int): (seq<string>, int) {
    if utxo == [] then ([], sum)
    else
      var total := if utxo[0].hash in used then sum else sum + utxo[0].value;
      if total >= value then ([utxo[0].hash], total)
      else
        var rest := Pick(utxo[1..], used, total, value);
        ([utxo[0].hash] + rest.0, rest.1)
  }

  /** Collects outputs until the payment is covered. Outputs already used are listed again as inputs but not counted. */
  method PickOutputs(utxo: seq<Utxo>, used: seq<string>, start: int, value: int, ghost owner: string)
    returns (input: seq<string>, sum: int, ghost picked: seq<Charge>)
    ensures (input, sum) == Pick(utxo, used, start, value)
    ensures sum == start + Charged(picked, owner)
    ensures forall key :: key != owner ==> Charged(picked, key) == 0
    ensures |input| <= |utxo| && Picked(utxo[..|input|], used, input, picked, owner)
    ensures sum < value ==> |input| == |utxo|
  {
    hide Picked, Charged;
    input, sum, picked := [], start, [];
    PickNone(used, owner);
    ghost var all := Pick(utxo, used, start, value);
    assert utxo[..0] == [] && utxo[0..] == utxo && [] + all.0 == all.0;
    var j := 0;
    while j < |utxo|
      invariant j <= |utxo| && |input| == j
      invariant var rest := Pick(utxo[j..], used, sum, value);
        Pick(utxo, used, start, value) == (input + rest.0, rest.1)
      invariant sum == start + Charged(picked, owner)
      invariant forall key :: key != owner ==> Charged(picked, key) == 0
      invariant Picked(utxo[..j], used, input, picked, owner)
    {
      PickOne(utxo[..j], used, input, picked, owner, utxo[j]);
      PickForward(utxo, j, used, sum, value, input);
      assert utxo[..j] + [utxo[j]] == utxo[..j + 1];
      ghost var picked' := if utxo[j].hash in used then picked else picked + [Charge(owner, utxo[j])];
      assert forall key ::
        Charged(picked', key)
        == Charged(picked, key) + if utxo[j].hash !in used && owner == key then utxo[j].value else 0;
      if utxo[j].hash !in used {
        sum := sum + utxo[j].value;
      }
      picked := picked';
      input := input + [utxo[j].hash];
      j := j + 1;
      if sum >= value {
        return;
      }
    }
    assert utxo[j..] == [] && input + [] == input;
  }

  lemma PickForward(utxo: seq<Utxo>, j: nat, used: seq<string>, sum: int, value: int, input: seq<string>)
    requires j < |utxo|
    ensures var total := if utxo[j].hash in used then sum else sum + utxo[j].value;
      var r := Pick(utxo[j..], used, sum, value);
      if total >= value then r == ([utxo[j].hash], total)
      else
        input + r.0 == (input + [utxo[j].hash]) + Pick(utxo[j + 1..], used, total, value).0
        && r.1 == Pick(utxo[j + 1..], used, total, value).1
  {
    assert utxo[j..][1..] == utxo[j + 1..];
  }

  lemma PickNone(used: seq<string>, owner: string)
    ensures Picked([], used, [], [], owner) && forall key :: Charged([], key) == 0
  {}

  lemma CommitCharges(main: Tables, charges: seq<Charge>, used: seq<string>, picked: seq<Charge>, input: seq<string>,
                      owner: string, n: nat)
    requires GoodCharges(main, charges, used) && n <= |Utxos(main, owner)| && UniqueHashes(Utxos(main, owner))
    requires Picked(Utxos(main, owner)[..n], used, input, picked, owner)
    ensures GoodCharges(main, charges + picked, used + input) && DistinctStrings(input)
  {
    hide Utxos;
    var all, used', seen := charges + picked, used + input, Utxos(main, owner)[..n];
    assert UniqueHashes(seen);
    forall i, j | 0 <= i < j < |all| ensures all[i].utxo.hash != all[j].utxo.hash {
      if i < |charges| <= j {
        assert charges[i] in charges && picked[j - |charges|] in picked;
      }
    }
    forall c | c in picked ensures c.utxo.hash in input {
      var i :| 0 <= i < |seen| && seen[i] == c.utxo;
      assert input[i] in input;
    }
    forall h | h in used' ensures exists c :: c in all && c.utxo.hash == h {
      if h in used {
        var c :| c in charges && c.utxo.hash == h;
        assert c in all;
      } else {
        var i :| 0 <= i < |input| && input[i] == h;
        assert seen[i] in seen;
        var c :| c in picked && c.utxo == seen[i];
        assert c in all;
      }
    }
  }

  // -------------------------------------------------------------- the packing loop

  function WithInput(tx: Transaction, input: seq<string>): Transaction {
    tx.(inputs := input, numOfInputs := tx.numOfInputs + |input|)
  }

  function FindChange(changes: seq<Change>, key: string): (c: int)
    ensures -1 <= c < |changes|
    ensures c >= 0 ==> changes[c].key == key
    ensures c < 0 ==> forall x :: x in changes ==> x.key != key
  {
    if changes == [] then -1
    else if changes[0].key == key then 0
    else
      var rest := FindChange(changes[1..], key);
      if rest < 0 then -1 else rest + 1
  }

  /** What the packing loop carries: the payments so far, the change, the outputs used, and the last payment it
      prepared. */
  datatype Packed = Packed(trans: seq<Transaction>, changes: seq<Change>, used: seq<string>, temp: Transaction)

  function WithoutAt<T>(s: seq<T>, i: nat): seq<T>
    requires i < |s|
  {
    s[..i] + s[i + 1..]
  }

  function ByChange(tx: Transaction, c: nat, p: Packed): Packed
    requires c < |p.changes|
  {
    var temp, left := WithInput(tx, p.changes[c].inputs), p.changes[c].change - tx.value;
    p.(trans := p.trans + [temp], temp := temp,
       changes := if left == 0 then WithoutAt(p.changes, c) else p.changes[c := p.changes[c].(change := left)])
  }

  datatype Attempt = Uncovered | Invalid(p: Packed) | Paid(p: Packed)

  /** A payment from outputs and, when there is some, the sender's change, whose inputs then replace the listed ones. */
  function ByOutputs(env: Env, main: Tables, tx: Transaction, changeNum: int, p: Packed): Attempt
    requires -1 <= changeNum < |p.changes|
  {
    var r := Pick(Utxos(main, tx.sender), p.used, if changeNum >= 0 then p.changes[changeNum].change else 0, tx.value);
    if r.1 < tx.value then Uncovered
    else
      var listed := WithInput(tx, r.0);
      var temp := if changeNum >= 0 then WithInput(listed, p.changes[changeNum].inputs) else listed;
      var q := p.(used := p.used + r.0, temp := temp,
                  changes := if changeNum >= 0 then WithoutAt(p.changes, changeNum) else p.changes);
      if !ValidTransaction(env, temp) then Invalid(q)
      else
        Paid(q.(trans := p.trans + [temp],
                changes := q.changes + if r.1 - tx.value != 0 then [Change(tx.sender, r.1 - tx.value, r.0)] else []))
  }

  predicate Payable(env: Env, main: Tables, tx: Transaction) {
    env.signed(tx.hash, tx.sender, tx.recipient, tx.value, tx.timestamp) && tx.value > 0
      && ValueByHash(Rows(main), tx.hash) == 0
  }

  /** The loop from one place of the pool on: what it packs, and what it leaves in the pool. */
  function PackFrom(env: Env, main: Tables, pool: seq<Transaction>, i: nat, p: Packed): (Packed, seq<Transaction>)
    decreases |pool| - i
  {
    if i >= |pool| then (p, pool)
    else if !Payable(env, main, pool[i]) then PackFrom(env, main, WithoutAt(pool, i), i + 1, p)
    else
      var c := FindChange(p.changes, pool[i].sender);
      if c >= 0 && p.changes[c].change >= pool[i].value then PackFrom(env, main, pool, i + 1, ByChange(pool[i], c, p))
      else match ByOutputs(env, main, pool[i], c, p)
        case Uncovered => PackFrom(env, main, WithoutAt(pool, i), i, p)
        case Invalid(q) => PackFrom(env, main, WithoutAt(pool, i), i + 1, q)
        case Paid(q) => PackFrom(env, main, pool, i + 1, q)
  }

  /** Every change left over as a payment of its key to itself. */
  function Emitted(changes: seq<Change>, temp: Transaction, changeHash: string -> string): seq<Transaction> {
    if changes == [] then []
    else
      var n := |changes| - 1;
      var c := changes[n];
      Emitted(changes[..n], temp, changeHash)
        + [Transaction(c.key, c.key, c.change, changeHash(c.key), temp.timestamp, |c.inputs|, c.inputs)]
  }

  /** The invariant of the packing loop, for a main chain whose unspent outputs have unique hashes. */
  ghost predicate Books(main: Tables, trans: seq<Transaction>, changes: seq<Change>, charges: seq<Charge>,
                        used: seq<string>) {
    UniqueUtxos(main) ==> Balanced(trans, changes, charges) && GoodChanges(changes) && GoodCharges(main, charges, used)
  }

  lemma BooksEmpty(main: Tables)
    ensures Books(main, [], [], [], [])
  {}

  lemma BooksMeaning(main: Tables, trans: seq<Transaction>, changes: seq<Change>, charges: seq<Charge>,
                     used: seq<string>)
    requires Books(main, trans, changes, charges, used)
    ensures UniqueUtxos(main) ==>
      Balanced(trans, changes, charges) && GoodChanges(changes) && GoodCharges(main, charges, used)
  {}

  /** The sender's change covers the payment. */
  method PayByChange(main: Tables, tx: Transaction, c: nat, p: Packed, ghost charges: seq<Charge>) returns (q: Packed)
    requires Books(main, p.trans, p.changes, charges, p.used)
    requires c < |p.changes| && p.changes[c].key == tx.sender && 0 < tx.value <= p.changes[c].change
    ensures Books(main, q.trans, q.changes, charges, q.used)
    ensures q == ByChange(tx, c, p)
  {
    hide Balanced, GoodCharges;
    var temp := WithInput(tx, p.changes[c].inputs);
    if UniqueUtxos(main) {
      ghost var _ := PayFromChange(p.trans, p.changes, charges, c, temp);
    }
    var changes := p.changes[c := p.changes[c].(change := p.changes[c].change - tx.value)];
    if changes[c].change == 0 {
      changes := changes[..c] + changes[c + 1..];
      assert changes == WithoutAt(p.changes, c);
    }
    q := p.(trans := p.trans + [temp], changes := changes, temp := temp);
  }

  /** The payment needs outputs, on top of the sender's change entry `changeNum` if that is not -1. */
  method PayByOutputs(env: Env, main: Tables, tx: Transaction, changeNum: int, p: Packed, ghost charges: seq<Charge>)
    returns (a: Attempt, ghost charges': seq<Charge>)
    requires Books(main, p.trans, p.changes, charges, p.used)
    requires env.signed(tx.hash, tx.sender, tx.recipient, tx.value, tx.timestamp) && tx.value > 0
    requires -1 <= changeNum < |p.changes|
    requires changeNum >= 0 ==> p.changes[changeNum].key == tx.sender
    requires changeNum < 0 ==> forall x :: x in p.changes ==> x.key != tx.sender
    ensures a == ByOutputs(env, main, tx, changeNum, p)
    ensures UniqueUtxos(main) ==> !a.Invalid?
    ensures if a.Uncovered? then charges' == charges else Books(main, a.p.trans, a.p.changes, charges', a.p.used)
  {
    hide GoodCharges, Balanced, Picked, Spent, Charged, Pending, Utxos, Pick;
    charges' := charges;
    var sum := if changeNum >= 0 then p.changes[changeNum].change else 0;
    var utxo := Utxos(main, tx.sender);
    var input, total, picked := PickOutputs(utxo, p.used, sum, tx.value, tx.sender);
    if total < tx.value {
      return Uncovered, charges;
    }
    var temp, changes := WithInput(tx, input), p.changes;
    if changeNum > -1 {
      temp := WithInput(temp, p.changes[changeNum].inputs);
      if UniqueUtxos(main) {
        ghost var _ := DropChange(p.changes, changeNum);
      }
      changes := p.changes[..changeNum] + p.changes[changeNum + 1..];
    }
    if UniqueUtxos(main) {
      assert UniqueHashes(utxo);
      CommitCharges(main, charges, p.used, picked, input, tx.sender, |input|);
    }
    var q := p.(used := p.used + input, temp := temp, changes := changes);
    if !ValidTransaction(env, temp) {
      return Invalid(q), charges;
    }
    if UniqueUtxos(main) {
      ghost var _ := PayFromUtxos(p.trans, p.changes, charges, picked, changes, temp, total, input);
    }
    charges' := charges + picked;
    var rest := if total - tx.value != 0 then [Change(tx.sender, total - tx.value, input)] else [];
    a := Paid(q.(trans := p.trans + [temp], changes := changes + rest));
  }

  /** The waiting transactions, shared with the network side. */
  class Mempool {
    var pending: seq<Transaction>

    /** `changeHash` gives the hash of a change transaction to a key. */
    method PutTxInBlock(env: Env, main: Tables, changeHash: string -> string)
      returns (trans: seq<Transaction>, ghost charges: seq<Charge>)
      modifies `pending
      ensures var r := PackFrom(env, main, old(pending), 0, Packed([], [], [], NO_TRANSACTION));
        trans == r.0.trans + Emitted(r.0.changes, r.0.temp, changeHash) && pending == r.1
      ensures UniqueUtxos(main) ==>
        && (exists used :: GoodCharges(main, charges, used))
        && (forall c, q :: c in charges && q in main.inputs && q.block <= LastIndex(main) ==> q.hash != c.utxo.hash)
        && (forall key :: Spent(trans, key) == Charged(charges, key))
        && GoodChanges(PackFrom(env, main, old(pending), 0, Packed([], [], [], NO_TRANSACTION)).0.changes)
    {
      hide Books, GoodCharges, Balanced, GoodChanges, Charged, Spent, ValidTransaction, ValueByHash, ByOutputs,
           ByChange, Emitted;
      charges := [];
      var p := Packed([], [], [], NO_TRANSACTION);
      BooksEmpty(main);
      var i := 0;
      while i < |pending|
        invariant 0 <= i
        invariant Books(main, p.trans, p.changes, charges, p.used)
        invariant PackFrom(env, main, pending, i, p)
          == PackFrom(env, main, old(pending), 0, Packed([], [], [], NO_TRANSACTION))
        decreases |pending| - i
      {
        var tx := pending[i];
        if Payable(env, main, tx) {
          var changeNum := FindChange(p.changes, tx.sender);
          var sum := if changeNum >= 0 then p.changes[changeNum].change else 0;
          if sum >= tx.value {
            p := PayByChange(main, tx, changeNum, p, charges);
            i := i + 1;
            continue;
          }
          var a: Attempt;
          a, charges := PayByOutputs(env, main, tx, changeNum, p, charges);
          if a.Uncovered? {
            pending := pending[..i] + pending[i + 1..];   // dropped, and the index stays
            continue;
          }
          p := a.p;
          if a.Invalid? {
            pending := pending[..i] + pending[i + 1..];
          }
        } else {
          pending := pending[..i] + pending[i + 1..];
        }
        i := i + 1;
      }
      BooksMeaning(main, p.trans, p.changes, charges, p.used);
      if UniqueUtxos(main) { ChargedIsUnspent(main, charges, p.used); }
      trans := EmitChanges(p, charges, changeHash, main);
    }

    /** Every change left over becomes a transaction of the sender to itself. */
    method EmitChanges(p: Packed, ghost charges: seq<Charge>, changeHash: string -> string, ghost main: Tables)
      returns (out: seq<Transaction>)
      requires UniqueUtxos(main) ==> Balanced(p.trans, p.changes, charges)
      ensures out == p.trans + Emitted(p.changes, p.temp, changeHash)
      ensures UniqueUtxos(main) ==> forall key :: Spent(out, key) == Charged(charges, key)
    {
      out := p.trans;
      for i := 0 to |p.changes|
        invariant out == p.trans + Emitted(p.changes[..i], p.temp, changeHash)
        invariant UniqueUtxos(main) ==> Balanced(out, p.changes[i..], charges)
      {
        var c := p.changes[i];
        var tx := Transaction(c.key, c.key, c.change, changeHash(c.key), p.temp.timestamp, |c.inputs|, c.inputs);
        if UniqueUtxos(main) {
          forall key ensures Spent(out + [tx], key) + Pending(p.changes[i + 1..], key) == Charged(charges, key) {
            SpentAppend(out, tx, key);
            assert p.changes[i..][1..] == p.changes[i + 1..];
          }
        }
        assert p.changes[..i + 1][..i] == p.changes[..i];
        out := out + [tx];
      }
      assert p.changes[..|p.changes|] == p.changes;
    }
  }

  /** The transaction object before anything is assigned to it. */
  const NO_TRANSACTION := Transaction("", "", 0, "", 0, 0, [])

  // ------------------------------------------------------------ consequences

  /** Outputs of one owner, without repetition, never add up to more than all its outputs when none is negative. */
  lemma {:induction false} ChargedAtMostTotal(charges: seq<Charge>, us: seq<Utxo>, key: string)
    requires forall i, j :: 0 <= i < j < |charges| ==> charges[i].utxo.hash != charges[j].utxo.hash
    requires forall c :: c in charges && c.owner == key ==> c.utxo in us
    requires forall u :: u in us ==> u.value >= 0
    ensures Charged(charges, key) <= Total(us)
  {
    if charges == [] {
      TotalNonnegative(us);
    } else {
      var n := |charges| - 1;
      var c := charges[n];
      if c.owner == key {
        assert c in charges;
        var i :| 0 <= i < |us| && us[i] == c.utxo;
        var rest := us[..i] + us[i + 1..];
        TotalRemove(us, i);
        forall d | d in charges[..n] && d.owner == key ensures d.utxo in rest {
          var k :| 0 <= k < n && charges[k] == d;
          assert charges[k].utxo.hash != charges[n].utxo.hash;
          assert d in charges;
          var j :| 0 <= j < |us| && us[j] == d.utxo;
          assert j != i;
          assert us[j] == if j < i then rest[j] else rest[j - 1];
        }
        ChargedAtMostTotal(charges[..n], rest, key);
      } else {
        ChargedAtMostTotal(charges[..n], us, key);
      }
    }
  }

  lemma TotalNonnegative(us: seq<Utxo>)
    requires forall u :: u in us ==> u.value >= 0
    ensures Total(us) >= 0
  {
    if us != [] {
      assert us[0] in us;
      TotalNonnegative(us[1..]);
    }
  }

  lemma {:induction false} TotalConcat(a: seq<Utxo>, b: seq<Utxo>)
    ensures Total(a + b) == Total(a) + Total(b)
  {
    if a == [] {
      assert a + b == b;
    } else {
      assert (a + b)[1..] == a[1..] + b;
      TotalConcat(a[1..], b);
    }
  }

  lemma TotalRemove(us: seq<Utxo>, i: nat)
    requires i < |us|
    ensures Total(us) == us[i].value + Total(us[..i] + us[i + 1..])
  {
    assert us == us[..i] + us[i..];
    assert us[i..] == [us[i]] + us[i + 1..];
    TotalConcat(us[..i], us[i..]);
    TotalConcat(us[..i], us[i + 1..]);
  }

  /** In a packed block no sender pays more than the total of its unspent outputs. */
  lemma NoOverspending(main: Tables, trans: seq<Transaction>, charges: seq<Charge>, used: seq<string>, key: string)
    requires GoodCharges(main, charges, used) && Spent(trans, key) == Charged(charges, key)
    requires forall u :: u in Utxos(main, key) ==> u.value >= 0
    ensures Spent(trans, key) <= Total(Utxos(main, key))
  {
    ChargedAtMostTotal(charges, Utxos(main, key), key);
  }

  // --------------------------------------------------- transactions passed over

  ghost predicate DistinctInputs(changes: seq<Change>) {
    forall c :: c in changes ==> DistinctStrings(c.inputs)
  }

  lemma PickIsPrefix(utxo: seq<Utxo>, used: seq<string>, sum: int, value: int)
    ensures var input := Pick(utxo, used, sum, value).0;
      |input| <= |utxo| && forall i :: 0 <= i < |input| ==> input[i] == utxo[i].hash
  {}

  /** With unique output hashes a signed payment from outputs is never refused for a repeated input. */
  lemma NeverInvalid(env: Env, main: Tables, tx: Transaction, changeNum: int, p: Packed)
    requires UniqueUtxos(main) && DistinctInputs(p.changes) && -1 <= changeNum < |p.changes|
    requires Payable(env, main, tx)
    ensures var a := ByOutputs(env, main, tx, changeNum, p);
      !a.Invalid? && (a.Paid? ==> DistinctInputs(a.p.changes) && |a.p.trans| == |p.trans| + 1
                                  && a.p.trans[..|p.trans|] == p.trans && a.p.trans[|p.trans|].hash == tx.hash)
  {
    hide Utxos, Pick;
    var sum := if changeNum >= 0 then p.changes[changeNum].change else 0;
    PickIsPrefix(Utxos(main, tx.sender), p.used, sum, tx.value);
    assert UniqueHashes(Utxos(main, tx.sender));
  }

  lemma ChangeKeepsInputs(tx: Transaction, c: nat, p: Packed)
    requires DistinctInputs(p.changes) && c < |p.changes|
    ensures DistinctInputs(ByChange(tx, c, p).changes)
    ensures |ByChange(tx, c, p).trans| == |p.trans| + 1
    ensures ByChange(tx, c, p).trans[..|p.trans|] == p.trans && ByChange(tx, c, p).trans[|p.trans|].hash == tx.hash
  {
    assert p.changes[c] in p.changes;
  }

  lemma {:induction false} PassedOverFrom(env: Env, main: Tables, pool: seq<Transaction>, i: nat, p: Packed)
    requires UniqueUtxos(main) && DistinctInputs(p.changes) && i <= |pool|
    ensures var r := PackFrom(env, main, pool, i, p);
      && |r.1| - |r.0.trans| >= i - |p.trans|
      && (|r.1| - |r.0.trans| == i - |p.trans| <==> forall k :: i <= k < |pool| - 1 ==> Payable(env, main, pool[k]))
    decreases |pool| - i
  {
    hide Payable, ByOutputs, ByChange, UniqueUtxos, DistinctInputs;
    if i < |pool| {
      var tx, rest := pool[i], WithoutAt(pool, i);
      var c := FindChange(p.changes, tx.sender);
      if !Payable(env, main, tx) {
        if i < |pool| - 1 { PassedOverFrom(env, main, rest, i + 1, p); }
      } else if c >= 0 && p.changes[c].change >= tx.value {
        ChangeKeepsInputs(tx, c, p);
        PassedOverFrom(env, main, pool, i + 1, ByChange(tx, c, p));
      } else {
        NeverInvalid(env, main, tx, c, p);
        match ByOutputs(env, main, tx, c, p)
        case Uncovered =>
          PassedOverFrom(env, main, rest, i, p);
          assert forall k :: i <= k < |rest| - 1 ==> rest[k] == pool[k + 1];
          assert forall k :: i + 1 <= k < |pool| - 1 ==> pool[k] == rest[k - 1];
        case Paid(q) => PassedOverFrom(env, main, pool, i + 1, q);
        case Invalid(q) => assert false;
      }
    }
  }

  ghost predicate SameHashes(trans: seq<Transaction>, pool: seq<Transaction>) {
    |trans| == |pool| && forall k :: 0 <= k < |pool| ==> trans[k].hash == pool[k].hash
  }

  lemma {:induction false} PackedInOrder(env: Env, main: Tables, pool: seq<Transaction>, i: nat, p: Packed)
    requires UniqueUtxos(main) && DistinctInputs(p.changes) && i <= |pool|
    requires forall k :: i <= k < |pool| - 1 ==> Payable(env, main, pool[k])
    requires SameHashes(p.trans, pool[..i])
    ensures var r := PackFrom(env, main, pool, i, p); SameHashes(r.0.trans, r.1)
    decreases |pool| - i
  {
    hide Payable, ByOutputs, ByChange, UniqueUtxos, DistinctInputs;
    if i < |pool| {
      var tx, rest := pool[i], WithoutAt(pool, i);
      var c := FindChange(p.changes, tx.sender);
      assert rest[..i] == pool[..i];
      if Payable(env, main, tx) {
        if c >= 0 && p.changes[c].change >= tx.value {
          ChangeKeepsInputs(tx, c, p);
          OneMore(p.trans, ByChange(tx, c, p).trans, pool, i);
          PackedInOrder(env, main, pool, i + 1, ByChange(tx, c, p));
        } else {
          NeverInvalid(env, main, tx, c, p);
          match ByOutputs(env, main, tx, c, p)
          case Uncovered =>
            assert forall k :: i <= k < |rest| ==> rest[k] == pool[k + 1];
            PackedInOrder(env, main, rest, i, p);
          case Paid(q) =>
            OneMore(p.trans, q.trans, pool, i);
            PackedInOrder(env, main, pool, i + 1, q);
          case Invalid(q) => assert false;
        }
      } else {
        assert i == |pool| - 1 && rest == pool[..i];
      }
    } else {
      assert pool[..i] == pool;
    }
  }

  lemma OneMore(trans: seq<Transaction>, trans': seq<Transaction>, pool: seq<Transaction>, i: nat)
    requires i < |pool| && SameHashes(trans, pool[..i])
    requires |trans'| == i + 1 && trans'[..i] == trans && trans'[i].hash == pool[i].hash
    ensures SameHashes(trans', pool[..i + 1])
  {
    forall k | 0 <= k < i + 1 ensures trans'[k].hash == pool[..i + 1][k].hash {
      if k < i { assert trans'[k] == trans[k] && pool[..i][k] == pool[k]; }
    }
  }

  /** The block holds exactly the transactions that packing leaves in the pool, in their order, if and only if no
      transaction of the pool but the last was unpayable: behind each of those the next one is passed over. */
  lemma PassedOverExactly(env: Env, main: Tables, pool: seq<Transaction>)
    requires UniqueUtxos(main)
    ensures var r := PackFrom(env, main, pool, 0, Packed([], [], [], NO_TRANSACTION));
      && |r.0.trans| <= |r.1|
      && (|r.0.trans| == |r.1| <==> forall k :: 0 <= k < |pool| - 1 ==> Payable(env, main, pool[k]))
      && (SameHashes(r.0.trans, r.1) <==> forall k :: 0 <= k < |pool| - 1 ==> Payable(env, main, pool[k]))
  {
    hide UniqueUtxos, Payable, PackFrom;
    PassedOverFrom(env, main, pool, 0, Packed([], [], [], NO_TRANSACTION));
    if forall k :: 0 <= k < |pool| - 1 ==> Payable(env, main, pool[k]) {
      PackedInOrder(env, main, pool, 0, Packed([], [], [], NO_TRANSACTION));
    }
  }

  /** Block 1 pays 5 to "a". */
  function OneCoin(): Tables {
    Tables(map[1 := Header("h", "", "m", 1.0, 1, "")], [TxRow(1, TxData("c", 1, "", "a", 5, 0, 1))], [])
  }

  lemma OneCoinOutputs()
    ensures Utxos(OneCoin(), "a") == [Utxo("c", 5)] && UniqueUtxos(OneCoin())
    ensures forall h :: h != "c" ==> ValueByHash(Rows(OneCoin()), h) == 0
  {
    var rows := Rows(OneCoin());
    assert rows == [TxData("c", 1, "", "a", 5, 0, 1)] && rows[1..] == [];
    assert OneCoin().blocks.Keys == {1};
    assert LastIndex(OneCoin()) == 1;
    forall key ensures |Utxos(OneCoin(), key)| <= 1 {
      assert Received(rows[1..], [], key, 1) == [];
    }
    assert Received(rows, [], "a", 1) == [Utxo("c", 5)];
    assert [Utxo("c", 5)][1..] == [];
  }

  /** A payment that would be packed on its own stays behind when the one before it is not signed. */
  lemma UnsignedHidesTheNext(env: Env, bad: Transaction, good: Transaction)
    requires !env.signed(bad.hash, bad.sender, bad.recipient, bad.value, bad.timestamp)
    requires env.signed(good.hash, good.sender, good.recipient, good.value, good.timestamp)
    requires good.sender == "a" && 0 < good.value <= 5 && good.hash != "c"
    ensures var start := Packed([], [], [], NO_TRANSACTION);
      && PackFrom(env, OneCoin(), [bad, good], 0, start) == (start, [good])
      && PackFrom(env, OneCoin(), [good], 0, start).0.trans == [WithInput(good, ["c"])]
  {
    hide Utxos, OneCoin, UniqueUtxos;
    OneCoinOutputs();
    var start := Packed([], [], [], NO_TRANSACTION);
    assert WithoutAt([bad, good], 0) == [good];
    assert Pick([Utxo("c", 5)], [], 0, good.value) == (["c"], 5);
  }
}
