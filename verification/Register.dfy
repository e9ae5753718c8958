/** One replica of the register, and the choice a coordinator makes among the snapshots it collected. */
module Register {
  import opened Options

  datatype RegisterValue = RegisterValue(value: int, timestamp: nat)

  /** A snapshot is `None` when the replica answered that it holds no register. */
  type Snapshot = Option<RegisterValue>

  ghost predicate HoldsAtLeast(s: Snapshot, t: nat) {
    s.Some? && t <= s.value.timestamp
  }

  /** What a replica holding `current` holds after a write request for `incoming`. */
  function Stored(current: Snapshot, incoming: RegisterValue): (r: Snapshot)
    ensures HoldsAtLeast(r, incoming.timestamp)
    ensures forall t :: HoldsAtLeast(current, t) ==> HoldsAtLeast(r, t)
    ensures r == current || r == Some(incoming)
  {
    if current.None? || current.value.timestamp < incoming.timestamp then Some(incoming) else current
  }

  /** `s` is the first of the newest values among the write requests, if there have been any. */
  ghost predicate FirstNewest(s: Snapshot, requests: seq<RegisterValue>) {
    match s
    case None => requests == []
    case Some(v) =>
      exists i :: 0 <= i < |requests| && requests[i] == v && NewestFrom(requests, i)
  }

  ghost predicate NewestFrom(requests: seq<RegisterValue>, i: nat)
    requires i < |requests|
  {
    forall j :: 0 <= j < |requests| ==>
      requests[j].timestamp <= requests[i].timestamp && (j < i ==> requests[j].timestamp < requests[i].timestamp)
  }

  lemma StoredIsFirstNewest(s: Snapshot, requests: seq<RegisterValue>, incoming: RegisterValue)
    requires FirstNewest(s, requests)
    ensures FirstNewest(Stored(s, incoming), requests + [incoming])
  {
    var more := requests + [incoming];
    if s.None? || s.value.timestamp < incoming.timestamp {
      assert NewestFrom(more, |requests|);
    } else {
      var i :| 0 <= i < |requests| && requests[i] == s.value && NewestFrom(requests, i);
      assert more[i] == s.value && NewestFrom(more, i);
    }
  }

  class Replica {
    var register: Snapshot
    /** The write requests processed so far. */
    ghost var requests: seq<RegisterValue>

    ghost predicate Valid()
      reads this
    {
      FirstNewest(register, requests)
    }

    constructor ()
      ensures Valid() && requests == []
    {
      register, requests := None, [];
    }

    method Write(incoming: RegisterValue)
      requires Valid()
      modifies this
      ensures Valid() && requests == old(requests) + [incoming]
      ensures register == Stored(old(register), incoming)
    {
      StoredIsFirstNewest(register, requests, incoming);
      var isRegisterSetup := register.Some?;
      var isRegisterOlden := isRegisterSetup && register.value.timestamp < incoming.timestamp;
      if !isRegisterSetup || isRegisterOlden {
        register := Some(incoming);
      }
      requests := requests + [incoming];
    }

    /** A read answers with the first of the newest values written, however the requests came in. */
    method Read() returns (r: Snapshot)
      requires Valid()
      ensures FirstNewest(r, requests)
      ensures forall v :: v in requests ==> HoldsAtLeast(r, v.timestamp)
    {
      r := register;
    }
  }

  /** One turn of the selection loop. The comparison is on the stored values, not on the timestamps. */
  function Choose(latest: Snapshot, candidate: Snapshot): Snapshot {
    if candidate.None? then latest
    else if latest.None? || candidate.value.value > latest.value.value then candidate
    else latest
  }

  function Fresh(snapshots: seq<Snapshot>): Snapshot {
    if snapshots == [] then None
    else Choose(Fresh(snapshots[..|snapshots| - 1]), snapshots[|snapshots| - 1])
  }

  method GetFreshSnapshot(snapshots: seq<Snapshot>) returns (r: Snapshot)
    ensures r == Fresh(snapshots)
  {
    if |snapshots| == 0 {
      return None;
    }
    var latest := 0;
    for i := 0 to |snapshots|
      invariant 0 <= latest < |snapshots|
      invariant i == 0 ==> latest == 0
      invariant 0 < i ==> snapshots[latest] == Fresh(snapshots[..i])
    {
      assert snapshots[..i + 1][..i] == snapshots[..i];
      if snapshots[i].None? {
        continue;
      }
      if snapshots[latest].None? || snapshots[i].value.value > snapshots[latest].value.value {
        latest := i;
      }
    }
    assert snapshots[..|snapshots|] == snapshots;
    r := snapshots[latest];
  }

  predicate IsConsistent(snapshots: seq<Snapshot>) {
    Fresh(snapshots).None? || forall i :: 0 <= i < |snapshots| ==> snapshots[i] == Fresh(snapshots)
  }

  /** The code's choice, stated without the loop: the first of the largest values. */
  lemma {:induction false} FreshIsFirstLargestValue(snapshots: seq<Snapshot>)
    ensures Fresh(snapshots).None? <==> forall i :: 0 <= i < |snapshots| ==> snapshots[i].None?
    ensures Fresh(snapshots).Some? ==>
              exists k :: 0 <= k < |snapshots| && snapshots[k] == Fresh(snapshots) &&
                (forall i :: 0 <= i < |snapshots| && snapshots[i].Some? ==>
                   snapshots[i].value.value <= snapshots[k].value.value &&
                   (i < k ==> snapshots[i].value.value < snapshots[k].value.value))
  {
    if snapshots != [] {
      var init := snapshots[..|snapshots| - 1];
      var last := snapshots[|snapshots| - 1];
      FreshIsFirstLargestValue(init);
      assert forall i :: 0 <= i < |init| ==> snapshots[i] == init[i];
      if Fresh(init).Some? {
        var k :| 0 <= k < |init| && init[k] == Fresh(init) &&
          (forall i :: 0 <= i < |init| && init[i].Some? ==>
             init[i].value.value <= init[k].value.value &&
             (i < k ==> init[i].value.value < init[k].value.value));
        assert snapshots[k] == init[k];
      }
    }
  }

  /** The documented choice: the snapshot with the largest timestamp. */
  ghost predicate IsNewest(snapshots: seq<Snapshot>, r: Snapshot) {
    && (r.None? ==> forall i :: 0 <= i < |snapshots| ==> snapshots[i].None?)
    && (r.Some? ==> r in snapshots)
    && (r.Some? ==> forall i :: 0 <= i < |snapshots| && snapshots[i].Some? ==>
                      snapshots[i].value.timestamp <= r.value.timestamp)
  }

  /** Larger timestamps carry larger values. */
  ghost predicate ValuesIncrease(written: iset<RegisterValue>) {
    forall a, b :: a in written && b in written && a.timestamp < b.timestamp ==> a.value < b.value
  }

  ghost predicate DrawnFrom(snapshots: seq<Snapshot>, written: iset<RegisterValue>) {
    forall i :: 0 <= i < |snapshots| && snapshots[i].Some? ==> snapshots[i].value in written
  }

  lemma FreshIsNewest(snapshots: seq<Snapshot>, written: iset<RegisterValue>)
    requires ValuesIncrease(written) && DrawnFrom(snapshots, written)
    ensures IsNewest(snapshots, Fresh(snapshots))
  {
    FreshIsFirstLargestValue(snapshots);
  }

  lemma FreshOfTwo(a: Snapshot, b: Snapshot)
    ensures Fresh([a, b]) == Choose(a, b)
  {
    var s := [a, b];
    assert s[..1] == [a] && [a][..0] == [];
    assert Fresh([a]) == Choose(Fresh([a][..0]), a) == a;
  }

  /** Comparing values finds the newest snapshot for every collection drawn from `written`
      exactly when the values in `written` increase with their timestamps. */
  lemma FreshIsNewestIff(written: iset<RegisterValue>)
    ensures ValuesIncrease(written) <==>
            forall s: seq<Snapshot> :: DrawnFrom(s, written) ==> IsNewest(s, Fresh(s))
  {
    if ValuesIncrease(written) {
      forall s: seq<Snapshot> | DrawnFrom(s, written)
        ensures IsNewest(s, Fresh(s))
      {
        FreshIsNewest(s, written);
      }
    } else {
      var a, b :| a in written && b in written && a.timestamp < b.timestamp && b.value <= a.value;
      var s: seq<Snapshot> := [Some(a), Some(b)];
      FreshOfTwo(Some(a), Some(b));
      assert s[1] == Some(b);
      assert DrawnFrom(s, written) && !IsNewest(s, Fresh(s));
    }
  }

  /** A concrete collection on which the code does not return the newest snapshot. */
  lemma FreshCanBeStale()
    ensures var s := [Some(RegisterValue(20, 1)), Some(RegisterValue(10, 2))];
            Fresh(s) == Some(RegisterValue(20, 1)) && !IsNewest(s, Fresh(s))
  {
    var s := [Some(RegisterValue(20, 1)), Some(RegisterValue(10, 2))];
    FreshOfTwo(s[0], s[1]);
    assert s[1] == Some(RegisterValue(10, 2));
  }
}
