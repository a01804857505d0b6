/** Issuing proofs of luck in the enclave, as a protocol between any number of instances that share
    one monotonic counter and one trusted clock.

    An instance increments the counter, draws its lucky number, waits, and reads the counter back.
    It issues a proof only if it reads the value its own increment returned. Every call into the
    platform may fail, and between any two steps of one instance the others may run. */
module Enclave {

  const MAX_WAITING_TIME := 30
  const UINT64_MAX := 0xFFFF_FFFF_FFFF_FFFF
  const COUNTER_MAX := 0xFFFF_FFFF

  // --------------------------------------------------------- the waiting period

  /** Down below one half, up from one half on. */
  function Round(number: real): int {
    var whole := number.Floor;
    if number - whole as real < 0.5 then whole else whole + 1
  }

  function LuckyNumber(random: nat): real { random as real / UINT64_MAX as real }

  function WaitingPeriod(random: nat): int {
    Round(MAX_WAITING_TIME as real - LuckyNumber(random) * MAX_WAITING_TIME as real)
  }

  lemma RoundMonotone(x: real, y: real)
    requires x <= y
    ensures Round(x) <= Round(y)
  {}

  /** The wait is between 0 and 30 seconds, and a larger lucky number never waits longer. */
  lemma LuckierWaitsNoLonger(a: nat, b: nat)
    requires a <= b <= UINT64_MAX
    ensures 0 <= WaitingPeriod(b) <= WaitingPeriod(a) <= MAX_WAITING_TIME
    ensures LuckyNumber(a) <= LuckyNumber(b)
  {
    var u, m := UINT64_MAX as real, MAX_WAITING_TIME as real;
    assert a as real / u <= b as real / u <= 1.0;
    RoundMonotone(m - LuckyNumber(b) * m, m - LuckyNumber(a) * m);
    RoundMonotone(0.0, m - LuckyNumber(b) * m);
    RoundMonotone(m - LuckyNumber(a) * m, m);
  }

  /** The wait is 30 seconds less 30 for the lucky number as a fraction, to the nearest second and up from a half.
      So the unluckiest draw waits 30 seconds and the luckiest none. */
  lemma WaitIsTheRest(random: nat)
    requires random <= UINT64_MAX
    ensures var rest := 30.0 - 30.0 * (random as real / UINT64_MAX as real);
      WaitingPeriod(random) as real - 0.5 <= rest < WaitingPeriod(random) as real + 0.5
    ensures random == 0 ==> WaitingPeriod(random) == 30
    ensures random == UINT64_MAX ==> WaitingPeriod(random) == 0
  {
    hide LuckyNumber;
    assert LuckyNumber(random) == random as real / UINT64_MAX as real by { LuckIsFraction(random); }
    RoundIsNearest(30.0 - LuckyNumber(random) * 30.0);
  }

  lemma LuckIsFraction(random: nat)
    ensures LuckyNumber(random) == random as real / UINT64_MAX as real
  {}

  lemma RoundIsNearest(x: real)
    ensures Round(x) as real - 0.5 <= x < Round(x) as real + 0.5
  {}

  // ------------------------------------------------------------------ the state

  /** A reading of the trusted clock. Readings compare only under the same nonce. `at` is when it was taken. */
  datatype Reading = Reading(time: nat, nonce: nat, at: nat)

  /** Where an instance stands, with the counter value its increment returned, and when that happened. */
  datatype Pc =
    | Idle
    | Opened
    | Counted(own: nat, since: Moment)
    | Drawn(own: nat, since: Moment, random: nat)
    | Started(own: nat, since: Moment, random: nat, start: Reading)
    | Looping(own: nat, since: Moment, random: nat, start: Reading, current: Reading)
    | Tested(own: nat, since: Moment, random: nat, start: Reading, current: Reading)
    | Waited(own: nat, since: Moment, random: nat, start: Reading, current: Reading)

  /** A point of the run: its true time, and its number among all steps. */
  datatype Moment = Moment(time: nat, step: nat)

  datatype Proof = Proof(own: nat, random: nat, counted: Moment, readBack: Moment, start: Reading, current: Reading)

  /** `offset` turns true time into trusted time and is fixed within an epoch. `proofs` lists the issued proofs in
      order. */
  datatype State = State(counter: nat, time: nat, step: nat, epoch: nat, offset: int, pcs: seq<Pc>, proofs: seq<Proof>)

  predicate Init(s: State) {
    s.proofs == [] && forall i :: 0 <= i < |s.pcs| ==> s.pcs[i] == Idle
  }

  // ------------------------------------------------------------------ the steps

  datatype Step =
    | Pass(seconds: nat)            // time goes by: sleeping, waiting for a busy service, other work
    | NewEpoch(offset: int)         // the trusted time source restarts with a new nonce
    | OpenSession(i: nat)
    | Increment(i: nat)
    | Draw(i: nat, random: nat)
    | ReadFirst(i: nat)             // the first of the two readings at the start of wait
    | ReadSecond(i: nat)
    | SleepAndRead(i: nat)          // the loop body when the nonces agree
    | Test(i: nat)                  // the loop condition and, when it ends the loop, the second nonce check
    | Restart(i: nat)               // the loop body when the nonces differ
    | ReadBack(i: nat)
    | Fail(i: nat)                  // any call that returns an error ends the request

  function Now(s: State): Moment { Moment(s.time, s.step) }

  predicate Readable(s: State) { 0 <= s.time + s.offset <= UINT64_MAX }

  function ReadClock(s: State): Reading
    requires Readable(s)
  {
    Reading(s.time + s.offset, s.epoch, s.time)
  }

  function Elapsed(start: Reading, current: Reading): int {
    (current.time - start.time) % (UINT64_MAX + 1)
  }

  function Put(s: State, i: nat, pc: Pc): State
    requires i < |s.pcs|
  {
    s.(pcs := s.pcs[i := pc], step := s.step + 1)
  }

  predicate Next(s: State, step: Step, s': State) {
    match step
    case Pass(seconds) => s' == s.(time := s.time + seconds, step := s.step + 1)
    case NewEpoch(offset) => s' == s.(epoch := s.epoch + 1, offset := offset, step := s.step + 1)
    case OpenSession(i) => i < |s.pcs| && s.pcs[i].Idle? && s' == Put(s, i, Opened)
    case Increment(i) =>
      && i < |s.pcs| && s.pcs[i].Opened? && s.counter < COUNTER_MAX
      && s' == Put(s, i, Counted(s.counter + 1, Now(s))).(counter := s.counter + 1)
    case Draw(i, random) =>
      && i < |s.pcs| && s.pcs[i].Counted? && random <= UINT64_MAX
      && s' == Put(s, i, Drawn(s.pcs[i].own, s.pcs[i].since, random))
    case ReadFirst(i) =>
      && i < |s.pcs| && s.pcs[i].Drawn? && Readable(s)
      && s' == Put(s, i, Started(s.pcs[i].own, s.pcs[i].since, s.pcs[i].random, ReadClock(s)))
    case ReadSecond(i) =>
      && i < |s.pcs| && s.pcs[i].Started? && Readable(s)
      && s' == Put(s, i, Looping(s.pcs[i].own, s.pcs[i].since, s.pcs[i].random, s.pcs[i].start, ReadClock(s)))
    case SleepAndRead(i) =>
      && i < |s.pcs| && s.pcs[i].Looping? && s.pcs[i].start.nonce == s.pcs[i].current.nonce && Readable(s)
      && s' == Put(s, i, Tested(s.pcs[i].own, s.pcs[i].since, s.pcs[i].random, s.pcs[i].start, ReadClock(s)))
    case Test(i) =>
      && i < |s.pcs| && s.pcs[i].Tested?
      && var p := s.pcs[i];
         s' == Put(s, i,
           if Elapsed(p.start, p.current) < WaitingPeriod(p.random) then Looping(p.own, p.since, p.random, p.start,
               p.current)
           else if p.start.nonce != p.current.nonce then Drawn(p.own, p.since, p.random)
           else Waited(p.own, p.since, p.random, p.start, p.current))
    case Restart(i) =>
      && i < |s.pcs| && s.pcs[i].Looping? && s.pcs[i].start.nonce != s.pcs[i].current.nonce
      && s' == Put(s, i, Drawn(s.pcs[i].own, s.pcs[i].since, s.pcs[i].random))
    case ReadBack(i) =>
      && i < |s.pcs| && s.pcs[i].Waited?
      && var p := s.pcs[i];
         s' == Put(s, i, Idle).(proofs :=
           if s.counter == p.own then s.proofs + [Proof(p.own, p.random, p.since, Now(s), p.start, p.current)]
             else s.proofs)
    case Fail(i) => i < |s.pcs| && s' == Put(s, i, Idle)
  }

  predicate IsRun(states: seq<State>, steps: seq<Step>) {
    && |states| == |steps| + 1 && Init(states[0])
    && forall k :: 0 <= k < |steps| ==> Next(states[k], steps[k], states[k + 1])
  }

  // ------------------------------------------------------------- the invariant

  predicate InFlight(pc: Pc) { !pc.Idle? && !pc.Opened? }

  predicate Earlier(a: Moment, b: Moment) { a.time <= b.time && a.step < b.step }

  /** A reading was taken in the past, and in the current epoch it still matches the clock. */
  predicate GoodReading(s: State, since: Moment, r: Reading) {
    since.time <= r.at <= s.time && r.nonce <= s.epoch && r.time <= UINT64_MAX
    && (r.nonce == s.epoch ==> r.time == r.at + s.offset)
  }

  /** Readings under one nonce differ by the true time between them. */
  predicate Comparable(a: Reading, b: Reading) {
    a.at <= b.at && a.nonce <= b.nonce && (a.nonce == b.nonce ==> b.time - a.time == b.at - a.at)
  }

  predicate GoodPc(s: State, pc: Pc) {
    InFlight(pc) ==>
      && pc.own <= s.counter && Earlier(pc.since, Now(s))
      && (pc.Counted? || pc.random <= UINT64_MAX)
      && (pc.Started? || pc.Looping? || pc.Tested? || pc.Waited? ==> GoodReading(s, pc.since, pc.start))
      && (pc.Looping? || pc.Tested? || pc.Waited?
        ==> GoodReading(s, pc.since, pc.current) && Comparable(pc.start, pc.current))
      && (pc.Waited? ==> pc.start.nonce == pc.current.nonce && pc.current.at - pc.start.at >= WaitingPeriod(pc.random))
      // whoever still holds the latest counter value started after every proof issued so far
      && (pc.own == s.counter ==> forall k :: 0 <= k < |s.proofs| ==> Earlier(s.proofs[k].readBack, pc.since))
  }

  /** A proof lasted at least its waiting period, measured inside one epoch between increment and read-back. */
  predicate GoodProof(s: State, p: Proof) {
    && p.own <= s.counter && p.random <= UINT64_MAX
    && Earlier(p.counted, p.readBack) && p.readBack.time <= s.time && p.readBack.step < s.step
    && p.start.nonce == p.current.nonce
    && p.counted.time <= p.start.at && p.start.at + WaitingPeriod(p.random) <= p.current.at <= p.readBack.time
  }

  predicate Inv(s: State) {
    && (forall i :: 0 <= i < |s.pcs| ==> GoodPc(s, s.pcs[i]))
    && OwnersDiffer(s)
    && (forall k :: 0 <= k < |s.proofs| ==> GoodProof(s, s.proofs[k]))
    && (forall j, k :: 0 <= j < k < |s.proofs| ==> Earlier(s.proofs[j].readBack, s.proofs[k].counted))
  }

  /** The instance a step belongs to. */
  predicate ActsOn(step: Step, i: nat) {
    !step.Pass? && !step.NewEpoch? && step.i == i
  }

  /** What holds of an instance keeps holding while others act. */
  lemma OthersKeepPc(s: State, step: Step, s': State, pc: Pc)
    requires GoodPc(s, pc) && Next(s, step, s') && InFlight(pc)
    requires step.ReadBack? ==> s.pcs[step.i].own != pc.own
    ensures GoodPc(s', pc)
  {
    hide WaitingPeriod, Elapsed;
  }

  lemma ActorKeepsPc(s: State, step: Step, s': State, i: nat)
    requires Inv(s) && Next(s, step, s') && ActsOn(step, i)
    ensures GoodPc(s', s'.pcs[i])
  {
    hide WaitingPeriod;
    assert GoodPc(s, s.pcs[i]);
    if step.Increment? {
      forall k | 0 <= k < |s.proofs| ensures Earlier(s.proofs[k].readBack, Now(s)) { assert GoodProof(s, s.proofs[k]); }
    }
    hide Inv, GoodProof;
  }

  lemma StepKeepsPc(s: State, step: Step, s': State, i: nat)
    requires Inv(s) && Next(s, step, s') && i < |s'.pcs|
    ensures GoodPc(s', s'.pcs[i])
  {
    hide WaitingPeriod, Elapsed, GoodPc, GoodProof;
    if ActsOn(step, i) {
      ActorKeepsPc(s, step, s', i);
    } else if InFlight(s.pcs[i]) {
      assert s'.pcs[i] == s.pcs[i];
      OthersKeepPc(s, step, s', s.pcs[i]);
    } else {
      assert s'.pcs[i] == s.pcs[i];
      IdleIsGood(s', s'.pcs[i]);
    }
  }

  lemma IdleIsGood(s: State, pc: Pc)
    requires !InFlight(pc)
    ensures GoodPc(s, pc)
  {}

  lemma StepKeepsProofs(s: State, step: Step, s': State)
    requires Inv(s) && Next(s, step, s')
    ensures forall k :: 0 <= k < |s'.proofs| ==> GoodProof(s', s'.proofs[k])
    ensures forall j, k :: 0 <= j < k < |s'.proofs| ==> Earlier(s'.proofs[j].readBack, s'.proofs[k].counted)
  {
    hide WaitingPeriod;
    forall k | 0 <= k < |s'.proofs| ensures GoodProof(s', s'.proofs[k]) {
      if k < |s.proofs| {
        assert GoodProof(s, s.proofs[k]);
      } else {
        assert step.ReadBack? && GoodPc(s, s.pcs[step.i]);
      }
    }
    if step.ReadBack? { assert GoodPc(s, s.pcs[step.i]); }
  }

  predicate OwnBounded(s: State) {
    && (forall i :: 0 <= i < |s.pcs| && InFlight(s.pcs[i]) ==> s.pcs[i].own <= s.counter)
    && (forall k :: 0 <= k < |s.proofs| ==> s.proofs[k].own <= s.counter)
  }

  lemma InvBoundsOwn(s: State)
    requires Inv(s)
    ensures OwnBounded(s)
  {
    hide WaitingPeriod, GoodReading, Comparable, Earlier;
    forall i | 0 <= i < |s.pcs| && InFlight(s.pcs[i]) ensures s.pcs[i].own <= s.counter { assert GoodPc(s, s.pcs[i]); }
    forall k | 0 <= k < |s.proofs| ensures s.proofs[k].own <= s.counter { assert GoodProof(s, s.proofs[k]); }
  }

  predicate OwnersDiffer(s: State) {
    && (forall i, j :: 0 <= i < j < |s.pcs| && InFlight(s.pcs[i]) && InFlight(s.pcs[j]) ==>
      s.pcs[i].own != s.pcs[j].own)
    && (forall i, k :: 0 <= i < |s.pcs| && 0 <= k < |s.proofs| && InFlight(s.pcs[i]) ==>
      s.pcs[i].own != s.proofs[k].own)
  }

  lemma StepKeepsOwners(s: State, step: Step, s': State)
    requires OwnersDiffer(s) && OwnBounded(s) && Next(s, step, s')
    ensures OwnersDiffer(s')
  {
    hide WaitingPeriod, Elapsed, Readable, Next, OwnersDiffer, OwnBounded;
    forall i, j | 0 <= i < j < |s'.pcs| && InFlight(s'.pcs[i]) && InFlight(s'.pcs[j])
      ensures s'.pcs[i].own != s'.pcs[j].own {
      PairDiffers(s, step, s', i, j);
    }
    forall i, k | 0 <= i < |s'.pcs| && 0 <= k < |s'.proofs| && InFlight(s'.pcs[i])
      ensures s'.pcs[i].own != s'.proofs[k].own {
      ProofDiffers(s, step, s', i, k);
    }
    OwnersAreDifferent(s');
  }

  lemma OwnersAreDifferent(s: State)
    requires forall i, j :: 0 <= i < j < |s.pcs| && InFlight(s.pcs[i]) && InFlight(s.pcs[j]) ==>
      s.pcs[i].own != s.pcs[j].own
    requires forall i, k :: 0 <= i < |s.pcs| && 0 <= k < |s.proofs| && InFlight(s.pcs[i]) ==>
      s.pcs[i].own != s.proofs[k].own
    ensures OwnersDiffer(s)
  {}

  lemma PairDiffers(s: State, step: Step, s': State, i: nat, j: nat)
    requires OwnersDiffer(s) && OwnBounded(s) && Next(s, step, s')
    requires i < j < |s'.pcs| && InFlight(s'.pcs[i]) && InFlight(s'.pcs[j])
    ensures s'.pcs[i].own != s'.pcs[j].own
  {
    hide WaitingPeriod, Elapsed, Readable;
  }

  lemma ProofDiffers(s: State, step: Step, s': State, i: nat, k: nat)
    requires OwnersDiffer(s) && OwnBounded(s) && Next(s, step, s')
    requires i < |s'.pcs| && k < |s'.proofs| && InFlight(s'.pcs[i])
    ensures s'.pcs[i].own != s'.proofs[k].own
  {
    hide WaitingPeriod, Elapsed, Readable;
  }

  lemma StepKeepsInv(s: State, step: Step, s': State)
    requires Inv(s) && Next(s, step, s')
    ensures Inv(s')
  {
    hide GoodPc, Next, GoodProof, Earlier, OwnersDiffer, OwnBounded;
    StepKeepsProofs(s, step, s');
    InvBoundsOwn(s);
    StepKeepsOwners(s, step, s');
    forall i | 0 <= i < |s'.pcs| ensures GoodPc(s', s'.pcs[i]) {
      StepKeepsPc(s, step, s', i);
    }
  }

  lemma {:induction false} RunKeepsInv(states: seq<State>, steps: seq<Step>, k: nat)
    requires IsRun(states, steps) && k < |states|
    ensures Inv(states[k])
  {
    hide Inv, Next;
    if k == 0 {
      InitInv(states[0]);
    } else {
      RunKeepsInv(states, steps, k - 1);
      StepKeepsInv(states[k - 1], steps[k - 1], states[k]);
    }
  }

  lemma InitInv(s: State)
    requires Init(s)
    ensures Inv(s)
  {}

  // ---------------------------------------------------------------- the claims

  /** Between increment and read-back a proof spans at least its waiting period, measured by one epoch of the clock. */
  ghost predicate WaitedItsPeriod(p: Proof) {
    && Earlier(p.counted, p.readBack)
    && p.start.nonce == p.current.nonce && p.counted.time <= p.start.at
    && p.start.at + WaitingPeriod(p.random) <= p.current.at <= p.readBack.time
  }

  /** In every run each issued proof, an only one too, has waited. */
  lemma EveryProofWaited(states: seq<State>, steps: seq<Step>, n: nat, j: nat)
    requires IsRun(states, steps) && n < |states| && j < |states[n].proofs|
    ensures WaitedItsPeriod(states[n].proofs[j])
  {
    hide WaitingPeriod;
    RunKeepsInv(states, steps, n);
    assert GoodProof(states[n], states[n].proofs[j]);
  }

  /** In every run the intervals from increment to read-back of any two issued proofs are disjoint, and both
      have waited. */
  lemma ProofsDoNotOverlap(states: seq<State>, steps: seq<Step>, n: nat, j: nat, k: nat)
    requires IsRun(states, steps) && n < |states| && j < k < |states[n].proofs|
    ensures var p, q := states[n].proofs[j], states[n].proofs[k];
      && WaitedItsPeriod(p) && Earlier(p.readBack, q.counted) && WaitedItsPeriod(q)
      && p.own != q.own
  {
    hide WaitingPeriod;
    RunKeepsInv(states, steps, n);
    EveryProofWaited(states, steps, n, j);
    EveryProofWaited(states, steps, n, k);
    var s := states[n];
    assert GoodProof(s, s.proofs[j]) && GoodProof(s, s.proofs[k]);
    OwnValuesDiffer(states, steps, n, j, k);
  }

  /** Two proofs never carry the same counter value. */
  lemma {:induction false} OwnValuesDiffer(states: seq<State>, steps: seq<Step>, n: nat, j: nat, k: nat)
    requires IsRun(states, steps) && n < |states| && j < k < |states[n].proofs|
    ensures states[n].proofs[j].own != states[n].proofs[k].own
    decreases n
  {
    hide Inv;
    assert n > 0;
    RunKeepsInv(states, steps, n - 1);
    var s, s' := states[n - 1], states[n];
    assert Next(s, steps[n - 1], s');
    if k < |s.proofs| {
      OwnValuesDiffer(states, steps, n - 1, j, k);
    } else {
      LastProofIsNew(s, steps[n - 1], s', j);
    }
  }

  lemma LastProofIsNew(s: State, step: Step, s': State, j: nat)
    requires Inv(s) && Next(s, step, s') && j < |s.proofs| && |s'.proofs| > |s.proofs|
    ensures |s'.proofs| == |s.proofs| + 1 && s'.proofs[..|s.proofs|] == s.proofs
    ensures s'.proofs[|s.proofs|].own != s.proofs[j].own
  {}

  // ------------------------------------------------------------ who gets a proof

  lemma StepsAreCounted(s: State, step: Step, s': State)
    requires Next(s, step, s')
    ensures s'.step == s.step + 1 && |s'.pcs| == |s.pcs|
    ensures s'.counter == if step.Increment? then s.counter + 1 else s.counter
    ensures s.counter <= COUNTER_MAX ==> s'.counter <= COUNTER_MAX
  {
    hide WaitingPeriod, Elapsed;
  }

  /** The counter stands still exactly as long as nobody increments it. */
  lemma {:induction false} CounterStays(states: seq<State>, steps: seq<Step>, j: nat, n: nat)
    requires IsRun(states, steps) && j <= n < |states|
    ensures states[n].step == states[j].step + (n - j) && states[n].counter >= states[j].counter
    ensures states[n].counter == states[j].counter <==> forall k :: j <= k < n ==> !steps[k].Increment?
    decreases n - j
  {
    hide Next;
    if j < n {
      CounterStays(states, steps, j, n - 1);
      assert Next(states[n - 1], steps[n - 1], states[n]);
      StepsAreCounted(states[n - 1], steps[n - 1], states[n]);
    }
  }

  /** The request of an instance began when it last incremented, with the value that gave. */
  predicate BeganAt(states: seq<State>, steps: seq<Step>, n: nat, i: nat, j: int)
    requires |states| == |steps| + 1 && n < |states| && i < |states[n].pcs| && InFlight(states[n].pcs[i])
  {
    0 <= j < n && steps[j] == Increment(i) && states[n].pcs[i].own == states[j].counter + 1
    && states[n].pcs[i].since.step == states[j].step
  }

  lemma {:induction false} RequestBegan(states: seq<State>, steps: seq<Step>, n: nat, i: nat)
    requires IsRun(states, steps) && n < |states| && i < |states[n].pcs| && InFlight(states[n].pcs[i])
    ensures BeganAt(states, steps, n, i, states[n].pcs[i].since.step - states[0].step)
  {
    hide Next;
    if n > 0 {
      var s, step, s' := states[n - 1], steps[n - 1], states[n];
      assert Next(s, step, s');
      StepsAreCounted(s, step, s');
      CounterStays(states, steps, 0, n - 1);
      OwnIsKept(s, step, s', i);
      if step != Increment(i) { RequestBegan(states, steps, n - 1, i); }
    }
  }

  lemma OwnIsKept(s: State, step: Step, s': State, i: nat)
    requires Next(s, step, s') && i < |s.pcs| == |s'.pcs| && InFlight(s'.pcs[i])
    ensures if step == Increment(i) then s'.pcs[i].own == s.counter + 1 && s'.pcs[i].since.step == s.step
            else InFlight(s.pcs[i]) && s'.pcs[i].own == s.pcs[i].own && s'.pcs[i].since == s.pcs[i].since
  {
    hide WaitingPeriod, Elapsed;
  }

  /** An instance that has waited gets its proof exactly when no instance has incremented the counter since it did. */
  lemma ProofExactlyWhenAlone(states: seq<State>, steps: seq<Step>, n: nat, i: nat)
    requires IsRun(states, steps) && n < |steps| && steps[n] == ReadBack(i)
    ensures i < |states[n].pcs| && InFlight(states[n].pcs[i])
    ensures var j := states[n].pcs[i].since.step - states[0].step;
      && 0 <= j < n && steps[j] == Increment(i)
      && (|states[n + 1].proofs| == |states[n].proofs| + 1 <==> forall k :: j < k < n ==> !steps[k].Increment?)
      && (|states[n + 1].proofs| == |states[n].proofs| <==> exists k :: j < k < n && steps[k].Increment?)
  {
    hide WaitingPeriod, Elapsed;
    assert Next(states[n], steps[n], states[n + 1]);
    var j := states[n].pcs[i].since.step - states[0].step;
    RequestBegan(states, steps, n, i);
    assert Next(states[j], steps[j], states[j + 1]);
    StepsAreCounted(states[j], steps[j], states[j + 1]);
    CounterStays(states, steps, j + 1, n);
  }

  /** An instance leaves its waiting loop exactly when the clock shows that its period is over. */
  lemma WaitsExactly(s: State, i: nat, s': State)
    requires Next(s, Test(i), s')
    ensures var p := s.pcs[i];
      (s'.pcs[i].Looping? <==> Elapsed(p.start, p.current) < WaitingPeriod(p.random))
      && (s'.pcs[i].Waited? ==> p.start.nonce == p.current.nonce)
  {
    hide WaitingPeriod, Elapsed;
  }

  function TotalWait(proofs: seq<Proof>): int {
    if proofs == [] then 0 else TotalWait(proofs[..|proofs| - 1]) + WaitingPeriod(proofs[|proofs| - 1].random)
  }

  /** The waits of all issued proofs add up to no more than the time between the first increment and the last
      read-back. */
  lemma {:induction false} WaitsAddUp(s: State, n: nat)
    requires Inv(s) && 0 < n <= |s.proofs|
    ensures TotalWait(s.proofs[..n]) <= s.proofs[n - 1].readBack.time - s.proofs[0].counted.time
  {
    hide WaitingPeriod;
    assert GoodProof(s, s.proofs[n - 1]);
    assert s.proofs[..n][..n - 1] == s.proofs[..n - 1];
    if n > 1 {
      WaitsAddUp(s, n - 1);
      assert Earlier(s.proofs[n - 2].readBack, s.proofs[n - 1].counted);
    } else {
      assert s.proofs[..1][..0] == [];
    }
  }

  /** Over every interleaving, the time elapsed is at least the sum of the waits of all proofs issued. */
  lemma ElapsedCoversAllWaits(states: seq<State>, steps: seq<Step>, n: nat)
    requires IsRun(states, steps) && n < |states| && states[n].proofs != []
    ensures var s := states[n];
      TotalWait(s.proofs) <= s.proofs[|s.proofs| - 1].readBack.time - s.proofs[0].counted.time
                          <= s.time - s.proofs[0].counted.time
  {
    hide WaitingPeriod;
    RunKeepsInv(states, steps, n);
    var s := states[n];
    WaitsAddUp(s, |s.proofs|);
    assert s.proofs[..|s.proofs|] == s.proofs;
    assert GoodProof(s, s.proofs[|s.proofs| - 1]);
  }

  /** In its loop it sleeps and reads the clock again when both readings are of one clock, and begins anew otherwise. */
  lemma LoopsExactly(s: State, step: Step, i: nat, s': State)
    requires Next(s, step, s') && ActsOn(step, i) && !step.Fail? && s.pcs[i].Looping?
    ensures var p := s.pcs[i];
      if p.start.nonce == p.current.nonce then
        step.SleepAndRead? && Readable(s) && s'.pcs[i] == Tested(p.own, p.since, p.random, p.start, ReadClock(s))
      else step.Restart? && s'.pcs[i] == Drawn(p.own, p.since, p.random)
  {
    hide WaitingPeriod, Elapsed;
  }

  /** Readings are subtracted as unsigned numbers of 64 bits. */
  lemma ElapsedExactly(start: Reading, current: Reading)
    requires start.time <= UINT64_MAX && current.time <= UINT64_MAX
    ensures Elapsed(start, current)
      == current.time - start.time + if current.time < start.time then 0x1_0000_0000_0000_0000 else 0
  {}

  /** What an instance does that nobody disturbs: it asks, waits out its period in the loop, and reads back. */
  function AloneSteps(random: nat): seq<Step>
    requires WaitingPeriod(random) >= 0
  {
    [OpenSession(0), Increment(0), Draw(0, random), ReadFirst(0), ReadSecond(0), Pass(WaitingPeriod(random)),
     SleepAndRead(0), Test(0), ReadBack(0)]
  }

  /** Whatever it draws and the clock shows, it then has a proof with that number. */
  lemma AloneGetsItsProof(random: nat, clock: nat) returns (states: seq<State>)
    requires random <= UINT64_MAX && clock + MAX_WAITING_TIME <= UINT64_MAX
    ensures WaitingPeriod(random) >= 0 && IsRun(states, AloneSteps(random))
    ensures states[0] == State(0, 0, 0, 0, clock, [Idle], [])
    ensures |states[9].proofs| == 1 && states[9].proofs[0].random == random && states[9].proofs[0].own == 1
  {
    hide WaitingPeriod;
    LuckierWaitsNoLonger(random, random);
    var wait: nat := WaitingPeriod(random);
    var since := Moment(0, 1);
    var start, current := Reading(clock, 0, 0), Reading(clock + wait, 0, wait);
    states := [
      State(0, 0, 0, 0, clock, [Idle], []),
      State(0, 0, 1, 0, clock, [Opened], []),
      State(1, 0, 2, 0, clock, [Counted(1, since)], []),
      State(1, 0, 3, 0, clock, [Drawn(1, since, random)], []),
      State(1, 0, 4, 0, clock, [Started(1, since, random, start)], []),
      State(1, 0, 5, 0, clock, [Looping(1, since, random, start, start)], []),
      State(1, wait, 6, 0, clock, [Looping(1, since, random, start, start)], []),
      State(1, wait, 7, 0, clock, [Tested(1, since, random, start, current)], []),
      State(1, wait, 8, 0, clock, [Waited(1, since, random, start, current)], []),
      State(1, wait, 9, 0, clock, [Idle], [Proof(1, random, since, Moment(wait, 8), start, current)])
    ];
    var steps := AloneSteps(random);
  }
}
