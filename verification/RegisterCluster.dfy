/** The replicated register as a protocol: any number of coordinator reads and writes, interleaved
    step by step over `n` replicas. Requests are served late, in any order, or never. A counted
    response comes from a replica that served the request, and replicas are never reset. */
module RegisterCluster {
  import opened Options
  import opened Register

  type OpId = nat

  datatype Kind = WriteOp | ReadOp

  datatype Phase =
    | Reading                      // collecting snapshots
    | Storing                      // waiting for acknowledgements
    | Finished(result: Snapshot)   // `None` is the "no value" answer of a read

  /** One coordinator operation. `responses` are the snapshots served so far, `outgoing` the value of
      its write requests and `served` the replicas that have processed one of them. */
  datatype Op = Op(
    kind: Kind,
    phase: Phase,
    responses: map<nat, Snapshot>,
    outgoing: Option<RegisterValue>,
    served: set<nat>)

  datatype State = State(replicas: seq<Snapshot>, ops: map<OpId, Op>)

  datatype Step =
    | InvokeWrite(id: OpId, v: RegisterValue)
    | InvokeRead(id: OpId)
    | ServeRead(id: OpId, replica: nat)
    | EndReadPhase(id: OpId, counted: set<nat>)
    | ServeWrite(id: OpId, replica: nat)
    | EndWritePhase(id: OpId, counted: set<nat>)

  function Quorum(n: nat): nat {
    n / 2 + 1
  }

  function Init(n: nat): State {
    State(seq(n, _ => None), map[])
  }

  /** The counted responses as `first_n` hands them over, in the order of the replicas. */
  function Counted(responses: map<nat, Snapshot>, counted: set<nat>, n: nat): seq<Snapshot>
    requires counted <= responses.Keys
  {
    if n == 0 then []
    else Counted(responses, counted, n - 1) + (if n - 1 in counted then [responses[n - 1]] else [])
  }

  ghost predicate Enabled(w: iset<RegisterValue>, s: State, step: Step) {
    match step
    case InvokeWrite(id, v) => id !in s.ops && v in w
    case InvokeRead(id) => id !in s.ops
    case ServeRead(id, i) =>
      id in s.ops && s.ops[id].phase == Reading && i < |s.replicas| && i !in s.ops[id].responses
    case EndReadPhase(id, q) =>
      id in s.ops && s.ops[id].phase == Reading && q <= s.ops[id].responses.Keys && |q| == Quorum(|s.replicas|)
    case ServeWrite(id, i) =>
      id in s.ops && s.ops[id].outgoing.Some? && i < |s.replicas| && i !in s.ops[id].served
    case EndWritePhase(id, q) =>
      id in s.ops && s.ops[id].phase == Storing && s.ops[id].outgoing.Some? &&
      q <= s.ops[id].served && |q| == Quorum(|s.replicas|)
  }

  /** The read phase answers at once when the quorum agrees and writes its choice back otherwise. */
  function AfterReadPhase(op: Op, snapshots: seq<Snapshot>): Op {
    var chosen := Fresh(snapshots);
    if IsConsistent(snapshots) then op.(phase := Finished(chosen))
    else op.(phase := Storing, outgoing := chosen)
  }

  ghost function Apply(w: iset<RegisterValue>, s: State, step: Step): State
    requires Enabled(w, s, step)
  {
    match step
    case InvokeWrite(id, v) => s.(ops := s.ops[id := Op(WriteOp, Storing, map[], Some(v), {})])
    case InvokeRead(id) => s.(ops := s.ops[id := Op(ReadOp, Reading, map[], None, {})])
    case ServeRead(id, i) =>
      var op := s.ops[id];
      s.(ops := s.ops[id := op.(responses := op.responses[i := s.replicas[i]])])
    case EndReadPhase(id, q) =>
      var op := s.ops[id];
      s.(ops := s.ops[id := AfterReadPhase(op, Counted(op.responses, q, |s.replicas|))])
    case ServeWrite(id, i) =>
      var op := s.ops[id];
      State(s.replicas[i := Stored(s.replicas[i], op.outgoing.value)],
            s.ops[id := op.(served := op.served + {i})])
    case EndWritePhase(id, q) =>
      var op := s.ops[id];
      s.(ops := s.ops[id := op.(phase := Finished(op.outgoing))])
  }

  ghost predicate Steps(w: iset<RegisterValue>, s: State, steps: seq<Step>, s': State)
    decreases |steps|
  {
    if steps == [] then s' == s
    else Enabled(w, s, steps[0]) && Steps(w, Apply(w, s, steps[0]), steps[1..], s')
  }

  /** `s'` comes after `s` in some run whose writes carry values from `w`. */
  ghost predicate Reaches(w: iset<RegisterValue>, s: State, s': State) {
    exists steps :: Steps(w, s, steps, s')
  }

  ghost predicate HasResult(s: State, id: OpId, v: RegisterValue) {
    id in s.ops && s.ops[id].phase == Finished(Some(v))
  }

  // ---------------------------------------------------------------- quorums

  function Below(n: nat): (r: set<nat>)
    ensures |r| == n
    ensures forall i :: i in r <==> 0 <= i < n
  {
    if n == 0 then {} else Below(n - 1) + {n - 1}
  }

  lemma SubsetSize<T>(a: set<T>, b: set<T>)
    requires a <= b
    ensures |a| <= |b|
  {
    assert b == a + (b - a);
  }

  lemma QuorumsMeet(n: nat, a: set<nat>, b: set<nat>) returns (i: nat)
    requires a <= Below(n) && b <= Below(n) && |a| == |b| == Quorum(n)
    ensures i in a && i in b
  {
    SubsetSize(a + b, Below(n));
    assert |a + b| == |a| + |b| - |a * b|;
    i :| i in a * b;
  }

  ghost predicate AllHold(s: State, q: set<nat>, t: nat) {
    forall i :: i in q ==> i < |s.replicas| && HoldsAtLeast(s.replicas[i], t)
  }

  ghost predicate MajorityHolds(s: State, t: nat) {
    exists q: set<nat> :: |q| == Quorum(|s.replicas|) && AllHold(s, q, t)
  }

  lemma AllHoldBelow(s: State, q: set<nat>, t: nat)
    requires AllHold(s, q, t)
    ensures q <= Below(|s.replicas|)
  {
  }

  // ---------------------------------------------------------------- what every state keeps

  ghost predicate OpInv(s: State, op: Op) {
    && (op.phase == Storing ==> op.outgoing.Some?)
    && (op.outgoing.Some? ==> AllHold(s, op.served, op.outgoing.value.timestamp))
    && (forall i :: i in op.responses ==> i < |s.replicas|)
    && (forall i, t :: i in op.responses && HoldsAtLeast(op.responses[i], t) ==> HoldsAtLeast(s.replicas[i], t))
    && (op.phase.Finished? && op.phase.result.Some? ==> MajorityHolds(s, op.phase.result.value.timestamp))
  }

  ghost predicate Inv(s: State) {
    forall id :: id in s.ops ==> OpInv(s, s.ops[id])
  }

  ghost predicate Grows(s: State, s': State) {
    && |s'.replicas| == |s.replicas|
    && forall i, t :: 0 <= i < |s.replicas| && HoldsAtLeast(s.replicas[i], t) ==> HoldsAtLeast(s'.replicas[i], t)
  }

  lemma GrowsKeepsMajority(s: State, s': State, t: nat)
    requires Grows(s, s') && MajorityHolds(s, t)
    ensures MajorityHolds(s', t)
  {
    var q: set<nat> :| |q| == Quorum(|s.replicas|) && AllHold(s, q, t);
    assert AllHold(s', q, t);
  }

  lemma GrowsKeepsOp(s: State, s': State, op: Op)
    requires Grows(s, s') && OpInv(s, op)
    ensures OpInv(s', op)
  {
    if op.phase.Finished? && op.phase.result.Some? {
      GrowsKeepsMajority(s, s', op.phase.result.value.timestamp);
    }
  }

  lemma {:induction false} CountedMembers(responses: map<nat, Snapshot>, q: set<nat>, n: nat)
    requires q <= responses.Keys
    ensures forall i :: 0 <= i < n && i in q ==> responses[i] in Counted(responses, q, n)
    ensures forall x :: x in Counted(responses, q, n) ==> exists i :: 0 <= i < n && i in q && x == responses[i]
  {
    if n != 0 {
      CountedMembers(responses, q, n - 1);
    }
  }

  lemma ReadPhaseKeepsOp(w: iset<RegisterValue>, s: State, id: OpId, q: set<nat>)
    requires Inv(s) && Enabled(w, s, EndReadPhase(id, q))
    requires s.ops[id].outgoing == None
    requires s.ops[id].served == {}
    ensures OpInv(s, Apply(w, s, EndReadPhase(id, q)).ops[id])
  {
    var op := s.ops[id];
    var snapshots := Counted(op.responses, q, |s.replicas|);
    CountedMembers(op.responses, q, |s.replicas|);
    FreshIsFirstLargestValue(snapshots);
    var chosen := Fresh(snapshots);
    if IsConsistent(snapshots) && chosen.Some? {
      forall i | i in q
        ensures i < |s.replicas| && HoldsAtLeast(s.replicas[i], chosen.value.timestamp)
      {
        assert op.responses[i] in snapshots;
        assert HoldsAtLeast(op.responses[i], chosen.value.timestamp);
      }
      assert AllHold(s, q, chosen.value.timestamp);
    }
  }

  /** Only a finished read phase has anything to write back. */
  ghost predicate ReadersSilent(s: State) {
    forall id :: id in s.ops && s.ops[id].phase == Reading ==>
      s.ops[id].outgoing == None && s.ops[id].served == {} && s.ops[id].kind == ReadOp
  }

  lemma StepKeepsInv(w: iset<RegisterValue>, s: State, step: Step)
    requires Inv(s) && ReadersSilent(s) && Enabled(w, s, step)
    ensures Inv(Apply(w, s, step)) && ReadersSilent(Apply(w, s, step)) && Grows(s, Apply(w, s, step))
  {
    var s' := Apply(w, s, step);
    assert Grows(s, s');
    forall id | id in s'.ops
      ensures OpInv(s', s'.ops[id])
    {
      if id in s.ops {
        GrowsKeepsOp(s, s', s.ops[id]);
      }
      if step.EndReadPhase? && id == step.id {
        ReadPhaseKeepsOp(w, s, id, step.counted);
        GrowsKeepsOp(s, s', s'.ops[id]);
      } else if step.EndWritePhase? && id == step.id {
        assert AllHold(s', step.counted, s.ops[id].outgoing.value.timestamp);
      }
    }
  }

  lemma {:induction false} RunKeepsInv(w: iset<RegisterValue>, s: State, steps: seq<Step>, s': State)
    requires Inv(s) && ReadersSilent(s) && Steps(w, s, steps, s')
    ensures Inv(s') && ReadersSilent(s') && Grows(s, s')
    ensures s.ops.Keys <= s'.ops.Keys
    decreases |steps|
  {
    if steps != [] {
      StepKeepsInv(w, s, steps[0]);
      RunKeepsInv(w, Apply(w, s, steps[0]), steps[1..], s');
    }
  }

  /** Once an operation finished with timestamp `t`, in every later state a majority of the replicas
      holds a timestamp of at least `t`. Nothing is assumed about the values written. */
  lemma CompletedOperationPersists(
    w: iset<RegisterValue>, n: nat, s1: State, s2: State, a: OpId, v: RegisterValue)
    requires Reaches(w, Init(n), s1) && Reaches(w, s1, s2) && HasResult(s1, a, v)
    ensures |s2.replicas| == n && MajorityHolds(s2, v.timestamp)
  {
    var before :| Steps(w, Init(n), before, s1);
    var after :| Steps(w, s1, after, s2);
    RunKeepsInv(w, Init(n), before, s1);
    RunKeepsInv(w, s1, after, s2);
    assert OpInv(s1, s1.ops[a]);
    GrowsKeepsMajority(s1, s2, v.timestamp);
  }

  // ---------------------------------------------------------------- operations that start later

  /** Whatever operation `b` collected from the replicas in `q` is at least as new as `t`. */
  ghost predicate CollectsAtLeast(s: State, b: OpId, q: set<nat>, t: nat) {
    b in s.ops ==> forall i :: i in q && i in s.ops[b].responses ==> HoldsAtLeast(s.ops[b].responses[i], t)
  }

  lemma {:induction false} LateReaderCollects(
    w: iset<RegisterValue>, s: State, steps: seq<Step>, s': State, b: OpId, q: set<nat>, t: nat)
    requires Inv(s) && ReadersSilent(s) && Steps(w, s, steps, s')
    requires AllHold(s, q, t) && CollectsAtLeast(s, b, q, t)
    ensures AllHold(s', q, t) && CollectsAtLeast(s', b, q, t)
    decreases |steps|
  {
    if steps != [] {
      StepKeepsInv(w, s, steps[0]);
      LateReaderCollects(w, Apply(w, s, steps[0]), steps[1..], s', b, q, t);
    }
  }

  /** Every quorum counted by a read that starts after a finished operation contains a snapshot at
      least as new, again for any values. */
  lemma LaterQuorumSeesCompleted(
    w: iset<RegisterValue>, n: nat, s1: State, s2: State, a: OpId, v: RegisterValue, b: OpId, counted: set<nat>)
    requires Reaches(w, Init(n), s1) && Reaches(w, s1, s2) && HasResult(s1, a, v)
    requires b !in s1.ops && Enabled(w, s2, EndReadPhase(b, counted))
    ensures exists i :: i in counted && HoldsAtLeast(s2.ops[b].responses[i], v.timestamp)
  {
    var before :| Steps(w, Init(n), before, s1);
    var after :| Steps(w, s1, after, s2);
    RunKeepsInv(w, Init(n), before, s1);
    RunKeepsInv(w, s1, after, s2);
    assert OpInv(s1, s1.ops[a]);
    var q: set<nat> :| |q| == Quorum(n) && AllHold(s1, q, v.timestamp);
    LateReaderCollects(w, s1, after, s2, b, q, v.timestamp);
    assert OpInv(s2, s2.ops[b]);
    AllHoldBelow(s1, q, v.timestamp);
    var i := QuorumsMeet(n, q, counted);
  }

  // ---------------------------------------------------------------- where values come from

  ghost predicate Invoked(s: State, v: RegisterValue) {
    exists id :: id in s.ops && s.ops[id].kind == WriteOp && s.ops[id].outgoing == Some(v)
  }

  ghost predicate OpCarriesInvoked(s: State, op: Op) {
    && (op.outgoing.Some? ==> Invoked(s, op.outgoing.value))
    && (forall i :: i in op.responses && op.responses[i].Some? ==> Invoked(s, op.responses[i].value))
    && (op.phase.Finished? && op.phase.result.Some? ==> Invoked(s, op.phase.result.value))
  }

  ghost predicate Carried(s: State) {
    && (forall i :: 0 <= i < |s.replicas| && s.replicas[i].Some? ==> Invoked(s, s.replicas[i].value))
    && (forall id :: id in s.ops ==> OpCarriesInvoked(s, s.ops[id]))
  }

  ghost predicate WritesFrom(s: State, w: iset<RegisterValue>) {
    forall v :: Invoked(s, v) ==> v in w
  }

  lemma StepKeepsInvoked(w: iset<RegisterValue>, s: State, step: Step, v: RegisterValue)
    requires ReadersSilent(s) && Enabled(w, s, step) && Invoked(s, v)
    ensures Invoked(Apply(w, s, step), v)
  {
    var id :| id in s.ops && s.ops[id].kind == WriteOp && s.ops[id].outgoing == Some(v);
    var s' := Apply(w, s, step);
    assert id in s'.ops && s'.ops[id].kind == WriteOp && s'.ops[id].outgoing == Some(v);
  }

  lemma FreshComesFrom(responses: map<nat, Snapshot>, q: set<nat>, n: nat)
    requires q <= responses.Keys
    ensures var r := Fresh(Counted(responses, q, n));
            r.Some? ==> exists i :: i in q && responses[i] == r
  {
    var snapshots := Counted(responses, q, n);
    CountedMembers(responses, q, n);
    FreshIsFirstLargestValue(snapshots);
    if Fresh(snapshots).Some? {
      assert Fresh(snapshots) in snapshots;
    }
  }

  lemma StepKeepsCarried(w: iset<RegisterValue>, s: State, step: Step)
    requires Carried(s) && ReadersSilent(s) && WritesFrom(s, w) && Enabled(w, s, step)
    ensures Carried(Apply(w, s, step)) && WritesFrom(Apply(w, s, step), w)
  {
    var s' := Apply(w, s, step);
    forall v | Invoked(s, v) ensures Invoked(s', v) {
      StepKeepsInvoked(w, s, step, v);
    }
    match step
    case InvokeWrite(id, v) =>
      assert s'.ops[id].outgoing == Some(v);
      assert Invoked(s', v);
    case EndReadPhase(id, q) =>
      FreshComesFrom(s.ops[id].responses, q, |s.replicas|);
    case _ =>
  }

  lemma {:induction false} RunKeepsCarried(w: iset<RegisterValue>, s: State, steps: seq<Step>, s': State)
    requires Carried(s) && Inv(s) && ReadersSilent(s) && WritesFrom(s, w) && Steps(w, s, steps, s')
    ensures Carried(s') && WritesFrom(s', w)
    decreases |steps|
  {
    if steps != [] {
      StepKeepsInv(w, s, steps[0]);
      StepKeepsCarried(w, s, steps[0]);
      RunKeepsCarried(w, Apply(w, s, steps[0]), steps[1..], s');
    }
  }

  /** Every result was carried by a write that had been invoked. */
  lemma ResultsWereWritten(w: iset<RegisterValue>, n: nat, s: State, id: OpId, v: RegisterValue)
    requires Reaches(w, Init(n), s) && HasResult(s, id, v)
    ensures Invoked(s, v) && v in w
  {
    var steps :| Steps(w, Init(n), steps, s);
    RunKeepsCarried(w, Init(n), steps, s);
    assert OpCarriesInvoked(s, s.ops[id]);
  }

  // ---------------------------------------------------------------- atomic reads

  /** A read that starts after an operation finished with timestamp t answers with at least t. */
  ghost predicate AtomicReads(n: nat, w: iset<RegisterValue>) {
    forall s1, s2, a, v, b ::
      Reaches(w, Init(n), s1) && Reaches(w, s1, s2) && HasResult(s1, a, v) &&
      b !in s1.ops && b in s2.ops && s2.ops[b].kind == ReadOp && s2.ops[b].phase.Finished?
      ==> HoldsAtLeast(s2.ops[b].phase.result, v.timestamp)
  }

  /** The read `b` has chosen, if it has chosen at all, a value no older than `t`. */
  ghost predicate ChosenAtLeast(s: State, b: OpId, t: nat) {
    b in s.ops && s.ops[b].kind == ReadOp ==>
      && (s.ops[b].phase == Storing ==> HoldsAtLeast(s.ops[b].outgoing, t))
      && (s.ops[b].phase.Finished? ==> HoldsAtLeast(s.ops[b].phase.result, t))
  }

  /** Collections from which the comparison of values picks the newest snapshot: those of values that
      increase with timestamps, and those too small to miss any replica. */
  ghost predicate ChoosesNewest(n: nat, w: iset<RegisterValue>) {
    n <= 2 || ValuesIncrease(w)
  }

  /** What a reader's choice rests on, bundled. */
  ghost predicate Good(w: iset<RegisterValue>, s: State) {
    Inv(s) && ReadersSilent(s) && Carried(s) && WritesFrom(s, w)
  }

  lemma StepKeepsGood(w: iset<RegisterValue>, s: State, step: Step)
    requires Good(w, s) && Enabled(w, s, step)
    ensures Good(w, Apply(w, s, step)) && Grows(s, Apply(w, s, step))
  {
    StepKeepsInv(w, s, step);
    StepKeepsCarried(w, s, step);
  }

  lemma SmallQuorumChooses(responses: map<nat, Snapshot>, counted: set<nat>, n: nat, q: set<nat>, t: nat)
    requires n <= 2 && counted <= responses.Keys && counted <= Below(n) && q <= Below(n)
    requires |q| == |counted| == Quorum(n)
    requires forall i :: i in q && i in responses ==> HoldsAtLeast(responses[i], t)
    ensures HoldsAtLeast(Fresh(Counted(responses, counted, n)), t)
  {
    var snapshots := Counted(responses, counted, n);
    var i := QuorumsMeet(n, q, counted);
    CountedMembers(responses, counted, n);
    FreshIsFirstLargestValue(snapshots);
    assert responses[i] in snapshots;
    FreshComesFrom(responses, counted, n);
    SmallQuorumIsAll(n, q);
  }

  lemma SmallQuorumIsAll(n: nat, q: set<nat>)
    requires n <= 2 && q <= Below(n) && |q| == Quorum(n)
    ensures q == Below(n)
  {
    forall k | k in Below(n)
      ensures k in q
    {
      if k !in q {
        SubsetSize(q + {k}, Below(n));
      }
    }
  }

  lemma IncreasingQuorumChooses(
    w: iset<RegisterValue>, responses: map<nat, Snapshot>, counted: set<nat>, n: nat, q: set<nat>, t: nat)
    requires ValuesIncrease(w)
    requires forall i :: i in responses && responses[i].Some? ==> responses[i].value in w
    requires counted <= responses.Keys && counted <= Below(n) && q <= Below(n)
    requires |q| == |counted| == Quorum(n)
    requires forall i :: i in q && i in responses ==> HoldsAtLeast(responses[i], t)
    ensures HoldsAtLeast(Fresh(Counted(responses, counted, n)), t)
  {
    var snapshots := Counted(responses, counted, n);
    var i := QuorumsMeet(n, q, counted);
    CountedMembers(responses, counted, n);
    assert responses[i] in snapshots;
    forall j | 0 <= j < |snapshots| && snapshots[j].Some?
      ensures snapshots[j].value in w
    {
      assert snapshots[j] in snapshots;
    }
    FreshIsNewest(snapshots, w);
  }

  lemma ReadPhaseChoosesAtLeast(
    w: iset<RegisterValue>, s: State, b: OpId, counted: set<nat>, q: set<nat>, t: nat)
    requires ChoosesNewest(|s.replicas|, w) && Good(w, s)
    requires Enabled(w, s, EndReadPhase(b, counted))
    requires |q| == Quorum(|s.replicas|) && AllHold(s, q, t) && CollectsAtLeast(s, b, q, t)
    ensures HoldsAtLeast(Fresh(Counted(s.ops[b].responses, counted, |s.replicas|)), t)
  {
    var op := s.ops[b];
    assert OpInv(s, op) && OpCarriesInvoked(s, op);
    AllHoldBelow(s, q, t);
    assert counted <= Below(|s.replicas|);
    if |s.replicas| <= 2 {
      SmallQuorumChooses(op.responses, counted, |s.replicas|, q, t);
    } else {
      IncreasingQuorumChooses(w, op.responses, counted, |s.replicas|, q, t);
    }
  }

  lemma StepKeepsChosen(w: iset<RegisterValue>, s: State, step: Step, b: OpId, q: set<nat>, t: nat)
    requires ChoosesNewest(|s.replicas|, w) && Good(w, s) && Enabled(w, s, step)
    requires |q| == Quorum(|s.replicas|) && AllHold(s, q, t)
    requires CollectsAtLeast(s, b, q, t) && ChosenAtLeast(s, b, t)
    ensures AllHold(Apply(w, s, step), q, t)
    ensures CollectsAtLeast(Apply(w, s, step), b, q, t) && ChosenAtLeast(Apply(w, s, step), b, t)
  {
    StepKeepsCollected(w, s, step, b, q, t);
    if step.EndReadPhase? && step.id == b {
      ReadPhaseChoosesAtLeast(w, s, b, step.counted, q, t);
    }
  }

  lemma StepKeepsCollected(w: iset<RegisterValue>, s: State, step: Step, b: OpId, q: set<nat>, t: nat)
    requires Good(w, s) && Enabled(w, s, step) && AllHold(s, q, t) && CollectsAtLeast(s, b, q, t)
    ensures AllHold(Apply(w, s, step), q, t) && CollectsAtLeast(Apply(w, s, step), b, q, t)
  {
    StepKeepsInv(w, s, step);
  }

  lemma {:induction false} LateReaderChooses(
    w: iset<RegisterValue>, s: State, steps: seq<Step>, s': State, b: OpId, q: set<nat>, t: nat)
    requires ChoosesNewest(|s.replicas|, w) && Good(w, s) && Steps(w, s, steps, s')
    requires |q| == Quorum(|s.replicas|) && AllHold(s, q, t)
    requires CollectsAtLeast(s, b, q, t) && ChosenAtLeast(s, b, t)
    ensures ChosenAtLeast(s', b, t)
    decreases |steps|
  {
    if steps != [] {
      StepKeepsChosen(w, s, steps[0], b, q, t);
      StepKeepsGood(w, s, steps[0]);
      LateReaderChooses(w, Apply(w, s, steps[0]), steps[1..], s', b, q, t);
    }
  }

  /** Reads are atomic in every run although a consistent quorum skips the write-back. */
  lemma ReadsAreAtomic(n: nat, w: iset<RegisterValue>)
    requires n <= 2 || ValuesIncrease(w)
    ensures AtomicReads(n, w)
  {
    forall s1, s2, a, v, b |
      Reaches(w, Init(n), s1) && Reaches(w, s1, s2) && HasResult(s1, a, v) &&
      b !in s1.ops && b in s2.ops && s2.ops[b].kind == ReadOp && s2.ops[b].phase.Finished?
      ensures HoldsAtLeast(s2.ops[b].phase.result, v.timestamp)
    {
      var before :| Steps(w, Init(n), before, s1);
      var after :| Steps(w, s1, after, s2);
      RunKeepsInv(w, Init(n), before, s1);
      RunKeepsCarried(w, Init(n), before, s1);
      assert OpInv(s1, s1.ops[a]);
      var q: set<nat> :| |q| == Quorum(n) && AllHold(s1, q, v.timestamp);
      LateReaderChooses(w, s1, after, s2, b, q, v.timestamp);
    }
  }
}
