/** What the register promises to those who wait: quorums are as small as they can be, and every operation can
    finish with any majority of the replicas, whatever the others do. */
module RegisterProgress {
  import opened Options
  import opened Register
  import opened RegisterCluster
  import opened RegisterStaleRead

  // ---------------------------------------------------------------- the size of a quorum

  ghost predicate AlwaysMeet(n: nat, size: nat) {
    forall a: set<nat>, b: set<nat> :: a <= Below(n) && b <= Below(n) && |a| == |b| == size ==> a * b != {}
  }

  /** A quorum is the smallest number of replicas of which any two choices meet. */
  lemma QuorumIsLeast(n: nat, size: nat)
    requires 1 <= n && size <= n
    ensures AlwaysMeet(n, size) <==> Quorum(n) <= size
    ensures 2 * (Quorum(n) - 1) <= n < 2 * Quorum(n)
  {
    if Quorum(n) <= size {
      forall a: set<nat>, b: set<nat> | a <= Below(n) && b <= Below(n) && |a| == |b| == size
        ensures a * b != {}
      {
        SubsetSize(a + b, Below(n));
        assert |a + b| == |a| + |b| - |a * b|;
      }
    } else {
      var a, b := Range(0, size), Range(size, 2 * size);
      assert a <= Below(n) && b <= Below(n) && |a| == |b| == size && a * b == {};
    }
  }

  // ---------------------------------------------------------------- the end of a read phase

  /** The read phase ends the read exactly when the counted answers agree, and then with that answer; otherwise
      it writes back an answer with the largest value among them. */
  lemma ReadPhaseDecides(w: iset<RegisterValue>, s: State, id: OpId, q: set<nat>)
    requires Inv(s) && Enabled(w, s, EndReadPhase(id, q))
    ensures var answers, op := s.ops[id].responses, Apply(w, s, EndReadPhase(id, q)).ops[id];
            && (op.phase.Finished? <==> forall i, j :: i in q && j in q ==> answers[i] == answers[j])
            && (op.phase.Finished? ==> forall i :: i in q ==> answers[i] == op.phase.result)
            && (!op.phase.Finished? ==>
                  && op.phase == Storing && op.outgoing.Some?
                  && (exists i :: i in q && answers[i] == op.outgoing)
                  && forall i :: i in q && answers[i].Some? ==> answers[i].value.value <= op.outgoing.value.value)
  {
    var answers, n := s.ops[id].responses, |s.replicas|;
    var snapshots := Counted(answers, q, n);
    CountedMembers(answers, q, n);
    FreshIsFirstLargestValue(snapshots);
    assert OpInv(s, s.ops[id]);
    assert forall i :: i in q ==> answers[i] in snapshots;
    AgreementIff(answers, q, snapshots);
    if Fresh(snapshots).Some? {
      var k :| 0 <= k < |snapshots| && snapshots[k] == Fresh(snapshots);
      assert snapshots[k] in snapshots;
    }
  }

  lemma AgreementIff(answers: map<nat, Snapshot>, q: set<nat>, snapshots: seq<Snapshot>)
    requires q != {} && q <= answers.Keys
    requires forall i :: i in q ==> answers[i] in snapshots
    requires forall x :: x in snapshots ==> exists i :: i in q && x == answers[i]
    ensures IsConsistent(snapshots) <==> forall i, j :: i in q && j in q ==> answers[i] == answers[j]
    ensures IsConsistent(snapshots) ==> forall i :: i in q ==> answers[i] == Fresh(snapshots)
  {
    FreshIsFirstLargestValue(snapshots);
    if forall i, j :: i in q && j in q ==> answers[i] == answers[j] {
      var i :| i in q;
      forall k | 0 <= k < |snapshots|
        ensures snapshots[k] == answers[i]
      {
        assert snapshots[k] in snapshots;
      }
      assert IsConsistent(snapshots);
    }
    if IsConsistent(snapshots) {
      forall i | i in q
        ensures answers[i] == Fresh(snapshots)
      {
        var k :| 0 <= k < |snapshots| && snapshots[k] == answers[i];
      }
    }
  }

  // ---------------------------------------------------------------- every operation can finish

  /** The steps are of operation `id` and reach only replicas in `q`. */
  ghost predicate Within(steps: seq<Step>, id: OpId, q: set<nat>) {
    forall step :: step in steps ==>
      && step.id == id
      && (step.ServeRead? || step.ServeWrite? ==> step.replica in q)
  }

  /** `s'` is reached by such steps, at most `most` of them. */
  ghost predicate ReachesWithin(w: iset<RegisterValue>, s: State, s': State, id: OpId, q: set<nat>, most: nat) {
    exists steps :: Steps(w, s, steps, s') && Within(steps, id, q) && |steps| <= most
  }

  lemma NoStep(w: iset<RegisterValue>, s: State, id: OpId, q: set<nat>)
    ensures ReachesWithin(w, s, s, id, q, 0)
  {
    assert Steps(w, s, [], s);
  }

  lemma OneMoreStep(
    w: iset<RegisterValue>, s: State, t: State, id: OpId, q: set<nat>, most: nat, step: Step)
    requires ReachesWithin(w, s, t, id, q, most) && Enabled(w, t, step)
    requires step.id == id && (step.ServeRead? || step.ServeWrite? ==> step.replica in q)
    ensures ReachesWithin(w, s, Apply(w, t, step), id, q, most + 1)
  {
    var steps :| Steps(w, s, steps, t) && Within(steps, id, q) && |steps| <= most;
    var u := Apply(w, t, step);
    assert Steps(w, u, [], u);
    assert Steps(w, t, [step], u);
    StepsCompose(w, s, steps, t, [step], u);
    assert Within(steps + [step], id, q);
  }

  lemma WithinCompose(
    w: iset<RegisterValue>, s: State, t: State, u: State, id: OpId, q: set<nat>, first: nat, second: nat)
    requires ReachesWithin(w, s, t, id, q, first) && ReachesWithin(w, t, u, id, q, second)
    ensures ReachesWithin(w, s, u, id, q, first + second)
  {
    var xs :| Steps(w, s, xs, t) && Within(xs, id, q) && |xs| <= first;
    var ys :| Steps(w, t, ys, u) && Within(ys, id, q) && |ys| <= second;
    StepsCompose(w, s, xs, t, ys, u);
    assert Within(xs + ys, id, q);
  }

  lemma {:induction false} AllAnswer(w: iset<RegisterValue>, s: State, id: OpId, q: set<nat>, todo: set<nat>)
    returns (s': State)
    requires id in s.ops && s.ops[id].phase == Reading && todo <= q && q <= Below(|s.replicas|)
    ensures ReachesWithin(w, s, s', id, q, |todo|) && |s'.replicas| == |s.replicas|
    ensures id in s'.ops && s'.ops[id] == s.ops[id].(responses := s'.ops[id].responses)
    ensures todo <= s'.ops[id].responses.Keys
    decreases todo
  {
    if todo == {} {
      s' := s;
      NoStep(w, s, id, q);
    } else {
      var i :| i in todo;
      var t := AllAnswer(w, s, id, q, todo - {i});
      if i in t.ops[id].responses {
        s' := t;
      } else {
        OneMoreStep(w, s, t, id, q, |todo - {i}|, ServeRead(id, i));
        s' := Apply(w, t, ServeRead(id, i));
      }
    }
  }

  lemma {:induction false} AllStore(w: iset<RegisterValue>, s: State, id: OpId, q: set<nat>, todo: set<nat>)
    returns (s': State)
    requires id in s.ops && s.ops[id].outgoing.Some? && todo <= q && q <= Below(|s.replicas|)
    ensures ReachesWithin(w, s, s', id, q, |todo|) && |s'.replicas| == |s.replicas|
    ensures id in s'.ops && s'.ops[id] == s.ops[id].(served := s'.ops[id].served)
    ensures todo <= s'.ops[id].served
    decreases todo
  {
    if todo == {} {
      s' := s;
      NoStep(w, s, id, q);
    } else {
      var i :| i in todo;
      var t := AllStore(w, s, id, q, todo - {i});
      if i in t.ops[id].served {
        s' := t;
      } else {
        OneMoreStep(w, s, t, id, q, |todo - {i}|, ServeWrite(id, i));
        s' := Apply(w, t, ServeWrite(id, i));
      }
    }
  }

  lemma StoringFinishes(w: iset<RegisterValue>, s: State, id: OpId, q: set<nat>) returns (s': State)
    requires id in s.ops && s.ops[id].phase == Storing && s.ops[id].outgoing.Some?
    requires q <= Below(|s.replicas|) && |q| == Quorum(|s.replicas|)
    ensures ReachesWithin(w, s, s', id, q, |q| + 1)
    ensures id in s'.ops && s'.ops[id].phase == Finished(s.ops[id].outgoing)
  {
    var t := AllStore(w, s, id, q, q);
    OneMoreStep(w, s, t, id, q, |q|, EndWritePhase(id, q));
    s' := Apply(w, t, EndWritePhase(id, q));
  }

  lemma ReadingFinishes(w: iset<RegisterValue>, s: State, id: OpId, q: set<nat>) returns (s': State)
    requires Inv(s) && ReadersSilent(s) && id in s.ops && s.ops[id].phase == Reading
    requires q <= Below(|s.replicas|) && |q| == Quorum(|s.replicas|)
    ensures ReachesWithin(w, s, s', id, q, 2 * |q| + 2)
    ensures id in s'.ops && s'.ops[id].phase.Finished?
  {
    var t := AllAnswer(w, s, id, q, q);
    var steps :| Steps(w, s, steps, t);
    RunKeepsInv(w, s, steps, t);
    ReadPhaseDecides(w, t, id, q);
    OneMoreStep(w, s, t, id, q, |q|, EndReadPhase(id, q));
    var u := Apply(w, t, EndReadPhase(id, q));
    if u.ops[id].phase.Finished? {
      s' := u;
    } else {
      s' := StoringFinishes(w, u, id, q);
      WithinCompose(w, s, u, s', id, q, |q| + 1, |q| + 1);
    }
  }

  /** From every reachable state, an operation that has not finished can do so by its own steps on the replicas of
      any majority: at most two requests to each and the end of each phase. A write ends with its value. */
  lemma OperationFinishes(w: iset<RegisterValue>, n: nat, s: State, id: OpId, q: set<nat>) returns (s': State)
    requires Reaches(w, Init(n), s) && id in s.ops && !s.ops[id].phase.Finished?
    requires q <= Below(n) && |q| == Quorum(n)
    ensures ReachesWithin(w, s, s', id, q, 2 * |q| + 2)
    ensures id in s'.ops && s'.ops[id].phase.Finished?
    ensures s.ops[id].phase == Storing ==> s'.ops[id].phase == Finished(s.ops[id].outgoing)
  {
    var steps :| Steps(w, Init(n), steps, s);
    RunKeepsInv(w, Init(n), steps, s);
    assert OpInv(s, s.ops[id]);
    if s.ops[id].phase == Storing {
      s' := StoringFinishes(w, s, id, q);
    } else {
      s' := ReadingFinishes(w, s, id, q);
    }
  }

  /** A new write can be begun in every state and finishes with its value. */
  lemma WriteFinishes(w: iset<RegisterValue>, n: nat, s: State, id: OpId, v: RegisterValue, q: set<nat>)
    returns (s': State)
    requires Reaches(w, Init(n), s) && id !in s.ops && v in w
    requires q <= Below(n) && |q| == Quorum(n)
    ensures ReachesWithin(w, s, s', id, q, |q| + 2) && HasResult(s', id, v)
  {
    NoStep(w, s, id, q);
    OneMoreStep(w, s, s, id, q, 0, InvokeWrite(id, v));
    var t := Apply(w, s, InvokeWrite(id, v));
    var steps :| Steps(w, Init(n), steps, s);
    RunKeepsInv(w, Init(n), steps, s);
    s' := StoringFinishes(w, t, id, q);
    WithinCompose(w, s, t, s', id, q, 1, |q| + 1);
  }
}
