/** Why atomic reads need values that increase with timestamps: on three or more replicas, any two
    writes that break the order give a run in which a finished write is followed by an older read. */
module RegisterStaleRead {
  import opened Options
  import opened Register
  import opened RegisterCluster

  lemma {:induction false} StepsCompose(
    w: iset<RegisterValue>, s: State, xs: seq<Step>, t: State, ys: seq<Step>, u: State)
    requires Steps(w, s, xs, t) && Steps(w, t, ys, u)
    ensures Steps(w, s, xs + ys, u)
    decreases |xs|
  {
    if xs == [] {
      assert xs + ys == ys;
    } else {
      StepsCompose(w, Apply(w, s, xs[0]), xs[1..], t, ys, u);
      assert (xs + ys)[1..] == xs[1..] + ys;
    }
  }

  lemma ReachesCompose(w: iset<RegisterValue>, s: State, t: State, u: State)
    requires Reaches(w, s, t) && Reaches(w, t, u)
    ensures Reaches(w, s, u)
  {
    var xs :| Steps(w, s, xs, t);
    var ys :| Steps(w, t, ys, u);
    StepsCompose(w, s, xs, t, ys, u);
  }

  lemma ReachesStep(w: iset<RegisterValue>, s: State, t: State, step: Step)
    requires Reaches(w, s, t) && Enabled(w, t, step)
    ensures Reaches(w, s, Apply(w, t, step))
  {
    var u := Apply(w, t, step);
    assert Steps(w, u, [], u);
    assert Steps(w, t, [step], u);
    ReachesCompose(w, s, t, u);
  }

  function Range(lo: nat, hi: nat): (r: set<nat>)
    requires lo <= hi
    ensures |r| == hi - lo
    ensures forall i :: i in r <==> lo <= i < hi
  {
    if lo == hi then {} else Range(lo, hi - 1) + {hi - 1}
  }

  /** The state in which the replicas in `lo..hi` have processed the write request of `id`. */
  function AfterWrites(s: State, id: OpId, lo: nat, hi: nat): State
    requires lo <= hi && id in s.ops && s.ops[id].outgoing.Some?
  {
    var op := s.ops[id];
    State(
      seq(|s.replicas|, i requires 0 <= i < |s.replicas| =>
        if lo <= i < hi then Stored(s.replicas[i], op.outgoing.value) else s.replicas[i]),
      s.ops[id := op.(served := op.served + Range(lo, hi))])
  }

  lemma {:induction false} ServeWrites(w: iset<RegisterValue>, s: State, id: OpId, lo: nat, hi: nat)
    requires lo <= hi <= |s.replicas| && id in s.ops && s.ops[id].outgoing.Some?
    requires s.ops[id].served == {}
    ensures Reaches(w, s, AfterWrites(s, id, lo, hi))
    decreases hi - lo
  {
    if lo == hi {
      NothingWritten(s, id, lo);
      assert Steps(w, s, [], s);
    } else {
      ServeWrites(w, s, id, lo, hi - 1);
      WriteEnabled(w, s, id, lo, hi);
      ReachesStep(w, s, AfterWrites(s, id, lo, hi - 1), ServeWrite(id, hi - 1));
      LastWrite(w, s, id, lo, hi);
    }
  }

  lemma NothingWritten(s: State, id: OpId, lo: nat)
    requires id in s.ops && s.ops[id].outgoing.Some? && s.ops[id].served == {}
    ensures AfterWrites(s, id, lo, lo) == s
  {
    var t := AfterWrites(s, id, lo, lo);
    assert t.replicas == s.replicas;
    assert t.ops[id] == s.ops[id];
    assert t.ops == s.ops;
  }

  lemma WriteEnabled(w: iset<RegisterValue>, s: State, id: OpId, lo: nat, hi: nat)
    requires lo < hi <= |s.replicas| && id in s.ops && s.ops[id].outgoing.Some?
    requires s.ops[id].served == {}
    ensures Enabled(w, AfterWrites(s, id, lo, hi - 1), ServeWrite(id, hi - 1))
  {
  }

  lemma LastWrite(w: iset<RegisterValue>, s: State, id: OpId, lo: nat, hi: nat)
    requires lo < hi <= |s.replicas| && id in s.ops && s.ops[id].outgoing.Some?
    requires s.ops[id].served == {}
    requires Enabled(w, AfterWrites(s, id, lo, hi - 1), ServeWrite(id, hi - 1))
    ensures Apply(w, AfterWrites(s, id, lo, hi - 1), ServeWrite(id, hi - 1)) == AfterWrites(s, id, lo, hi)
  {
    var t := Apply(w, AfterWrites(s, id, lo, hi - 1), ServeWrite(id, hi - 1));
    var u := AfterWrites(s, id, lo, hi);
    assert t.replicas == u.replicas;
    assert t.ops[id].served == u.ops[id].served;
    assert t.ops == u.ops;
  }

  /** The state in which a new write of `v` has passed through the replicas in `lo..hi` and finished. */
  function Written(s: State, id: OpId, v: RegisterValue, lo: nat, hi: nat): State
    requires lo <= hi
  {
    State(
      seq(|s.replicas|, i requires 0 <= i < |s.replicas| =>
        if lo <= i < hi then Stored(s.replicas[i], v) else s.replicas[i]),
      s.ops[id := Op(WriteOp, Finished(Some(v)), map[], Some(v), Range(lo, hi))])
  }

  lemma WriteThrough(w: iset<RegisterValue>, s: State, id: OpId, v: RegisterValue, lo: nat, hi: nat, counted: set<nat>)
    requires lo <= hi <= |s.replicas| && id !in s.ops && v in w
    requires counted <= Range(lo, hi) && |counted| == Quorum(|s.replicas|)
    ensures Reaches(w, s, Written(s, id, v, lo, hi))
  {
    assert Steps(w, s, [], s);
    ReachesStep(w, s, s, InvokeWrite(id, v));
    var t := Apply(w, s, InvokeWrite(id, v));
    ServeWrites(w, t, id, lo, hi);
    var u := AfterWrites(t, id, lo, hi);
    ReachesCompose(w, s, t, u);
    ReachesStep(w, s, u, EndWritePhase(id, counted));
    assert {} + Range(lo, hi) == Range(lo, hi);
    assert Apply(w, u, EndWritePhase(id, counted)).ops == Written(s, id, v, lo, hi).ops;
  }

  /** The state in which the replicas in `0..hi` have answered a new read. */
  function ReadServed(s: State, id: OpId, hi: nat): State
    requires hi <= |s.replicas|
  {
    s.(ops := s.ops[id := Op(ReadOp, Reading, FirstAnswers(s.replicas, hi), None, {})])
  }

  function FirstAnswers(replicas: seq<Snapshot>, hi: nat): map<nat, Snapshot>
    requires hi <= |replicas|
  {
    map i | i in Range(0, hi) :: replicas[i]
  }

  lemma NextAnswer(replicas: seq<Snapshot>, hi: nat)
    requires 0 < hi <= |replicas|
    ensures FirstAnswers(replicas, hi - 1)[hi - 1 := replicas[hi - 1]] == FirstAnswers(replicas, hi)
    ensures hi - 1 !in FirstAnswers(replicas, hi - 1)
  {
  }

  lemma {:induction false} ServeReads(w: iset<RegisterValue>, s: State, id: OpId, hi: nat)
    requires hi <= |s.replicas| && id !in s.ops
    ensures Reaches(w, s, ReadServed(s, id, hi))
    decreases hi
  {
    if hi == 0 {
      assert Steps(w, s, [], s);
      ReachesStep(w, s, s, InvokeRead(id));
      assert Apply(w, s, InvokeRead(id)).ops[id].responses == ReadServed(s, id, 0).ops[id].responses;
    } else {
      ServeReads(w, s, id, hi - 1);
      var t := ReadServed(s, id, hi - 1);
      ReachesStep(w, s, t, ServeRead(id, hi - 1));
      LastRead(w, s, id, hi);
    }
  }

  lemma LastRead(w: iset<RegisterValue>, s: State, id: OpId, hi: nat)
    requires 0 < hi <= |s.replicas| && id !in s.ops
    ensures Enabled(w, ReadServed(s, id, hi - 1), ServeRead(id, hi - 1))
    ensures Apply(w, ReadServed(s, id, hi - 1), ServeRead(id, hi - 1)) == ReadServed(s, id, hi)
  {
    NextAnswer(s.replicas, hi);
    assert Enabled(w, ReadServed(s, id, hi - 1), ServeRead(id, hi - 1));
    var t := Apply(w, ReadServed(s, id, hi - 1), ServeRead(id, hi - 1));
    assert t.ops == ReadServed(s, id, hi).ops;
  }

  lemma {:induction false} CountedPrefix(responses: map<nat, Snapshot>, q: nat, n: nat)
    requires q <= n && responses.Keys == Range(0, q)
    ensures Counted(responses, Range(0, q), n) == seq(q, i requires 0 <= i < q => responses[i])
    decreases n
  {
    if n == 0 {
    } else if q < n {
      CountedPrefix(responses, q, n - 1);
    } else {
      CountedLower(responses, q, n - 1);
    }
  }

  lemma {:induction false} CountedLower(responses: map<nat, Snapshot>, q: nat, m: nat)
    requires m <= q && responses.Keys == Range(0, q)
    ensures Counted(responses, Range(0, q), m) == seq(m, i requires 0 <= i < m => responses[i])
  {
    if m != 0 {
      CountedLower(responses, q, m - 1);
    }
  }

  /** The read phase of a fresh operation over replicas that begin with `old` and also hold `new`. */
  lemma StaleChoice(snapshots: seq<Snapshot>, old': RegisterValue, new': RegisterValue)
    requires new'.value <= old'.value && new' != old'
    requires |snapshots| > 0 && snapshots[0] == Some(old') && Some(new') in snapshots
    requires forall i :: 0 <= i < |snapshots| ==> snapshots[i] == Some(old') || snapshots[i] == Some(new')
    ensures Fresh(snapshots) == Some(old') && !IsConsistent(snapshots)
  {
    FreshIsFirstLargestValue(snapshots);
  }

  /** What the replicas hold after `a` went through all of them and `b` through the last quorum. */
  ghost predicate OldThenNew(s: State, n: nat, a: RegisterValue, b: RegisterValue) {
    3 <= n == |s.replicas| &&
    forall i :: 0 <= i < n ==> s.replicas[i] == Some(if i < n - Quorum(n) then a else b)
  }

  lemma ChoiceIsStale(s: State, n: nat, a: RegisterValue, b: RegisterValue)
    requires a.timestamp < b.timestamp && b.value <= a.value && OldThenNew(s, n, a, b)
    ensures var responses := ReadServed(s, 2, Quorum(n)).ops[2].responses;
            var snapshots := Counted(responses, Range(0, Quorum(n)), n);
            Fresh(snapshots) == Some(a) && !IsConsistent(snapshots)
  {
    var q := Quorum(n);
    var responses := ReadServed(s, 2, q).ops[2].responses;
    CountedPrefix(responses, q, n);
    ServedSnapshots(s, n, a, b, seq(q, i requires 0 <= i < q => responses[i]));
    StaleChoice(Counted(responses, Range(0, q), n), a, b);
  }

  lemma ServedSnapshots(s: State, n: nat, a: RegisterValue, b: RegisterValue, snapshots: seq<Snapshot>)
    requires OldThenNew(s, n, a, b) && |snapshots| == Quorum(n)
    requires forall i :: 0 <= i < Quorum(n) ==> snapshots[i] == s.replicas[i]
    ensures snapshots[0] == Some(a) && Some(b) in snapshots
    ensures forall i :: 0 <= i < |snapshots| ==> snapshots[i] == Some(a) || snapshots[i] == Some(b)
  {
    assert snapshots[Quorum(n) - 1] == Some(b);
  }

  /** From such a state a read answers with the older write. */
  lemma ReadStale(w: iset<RegisterValue>, s: State, n: nat, a: RegisterValue, b: RegisterValue) returns (s': State)
    requires a.timestamp < b.timestamp && b.value <= a.value && OldThenNew(s, n, a, b)
    requires 2 !in s.ops
    ensures Reaches(w, s, s')
    ensures 2 in s'.ops && s'.ops[2].kind == ReadOp && s'.ops[2].phase == Finished(Some(a))
  {
    var q := Quorum(n);
    ServeReads(w, s, 2, q);
    var t := ReadServed(s, 2, q);
    ChoiceIsStale(s, n, a, b);
    ReachesStep(w, s, t, EndReadPhase(2, Range(0, q)));
    var u := Apply(w, t, EndReadPhase(2, Range(0, q)));
    s' := WriteBack(w, u, n);
    ReachesCompose(w, s, u, s');
  }

  lemma WriteBack(w: iset<RegisterValue>, s: State, n: nat) returns (s': State)
    requires 3 <= n == |s.replicas|
    requires 2 in s.ops && s.ops[2].phase == Storing && s.ops[2].outgoing.Some? && s.ops[2].served == {}
    ensures Reaches(w, s, s')
    ensures 2 in s'.ops && s'.ops[2].kind == s.ops[2].kind && s'.ops[2].phase == Finished(s.ops[2].outgoing)
  {
    var q := Quorum(n);
    ServeWrites(w, s, 2, 0, q);
    var t := AfterWrites(s, 2, 0, q);
    ReachesStep(w, s, t, EndWritePhase(2, Range(0, q)));
    s' := Apply(w, t, EndWritePhase(2, Range(0, q)));
  }

  lemma FirstQuorum(n: nat)
    requires 3 <= n
    ensures Quorum(n) <= n && Range(0, Quorum(n)) <= Range(0, n) && |Range(0, Quorum(n))| == Quorum(n)
    ensures |Range(n - Quorum(n), n)| == Quorum(n)
  {
  }

  function TwoWrites(n: nat, a: RegisterValue, b: RegisterValue): State
    requires 3 <= n
  {
    Written(Written(Init(n), 0, a, 0, n), 1, b, n - Quorum(n), n)
  }

  lemma TwoWritesReachable(w: iset<RegisterValue>, n: nat, a: RegisterValue, b: RegisterValue)
    requires 3 <= n && a in w && b in w
    ensures Reaches(w, Init(n), TwoWrites(n, a, b))
  {
    var q := Quorum(n);
    var s := Written(Init(n), 0, a, 0, n);
    FirstQuorum(n);
    FirstWrite(n, a);
    WriteThrough(w, Init(n), 0, a, 0, n, Range(0, q));
    WriteThrough(w, s, 1, b, n - q, n, Range(n - q, n));
    ReachesCompose(w, Init(n), s, TwoWrites(n, a, b));
  }

  lemma FirstWrite(n: nat, a: RegisterValue)
    ensures |Init(n).replicas| == n && 0 !in Init(n).ops
    ensures var s := Written(Init(n), 0, a, 0, n); |s.replicas| == n && 1 !in s.ops
  {
  }

  lemma TwoWritesState(n: nat, a: RegisterValue, b: RegisterValue)
    requires 3 <= n && a.timestamp < b.timestamp
    ensures OldThenNew(TwoWrites(n, a, b), n, a, b)
    ensures 2 !in TwoWrites(n, a, b).ops && HasResult(TwoWrites(n, a, b), 1, b)
  {
    var s := Written(Init(n), 0, a, 0, n);
    assert forall i :: 0 <= i < n ==> s.replicas[i] == Some(a);
  }

  lemma StaleRead(w: iset<RegisterValue>, n: nat, a: RegisterValue, b: RegisterValue)
    requires 3 <= n && a in w && b in w && a.timestamp < b.timestamp && b.value <= a.value
    ensures !AtomicReads(n, w)
  {
    var s := TwoWrites(n, a, b);
    TwoWritesReachable(w, n, a, b);
    TwoWritesState(n, a, b);
    var s' := ReadStale(w, s, n, a, b);
    assert !HoldsAtLeast(s'.ops[2].phase.result, b.timestamp);
  }

  /** The exact condition, for every number of replicas and every set of values that may be written. */
  lemma ReadsAreAtomicIff(n: nat, w: iset<RegisterValue>)
    ensures AtomicReads(n, w) <==> n <= 2 || ValuesIncrease(w)
  {
    if n <= 2 || ValuesIncrease(w) {
      ReadsAreAtomic(n, w);
    } else {
      var a, b :| a in w && b in w && a.timestamp < b.timestamp && b.value <= a.value;
      StaleRead(w, n, a, b);
    }
  }
}
