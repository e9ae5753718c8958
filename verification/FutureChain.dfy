/** Shared states chained by `then`: link i holds the result of the i-th future, its callback runs the i-th
    continuation and sets the result of link i + 1. Setting a result, setting a callback and running a
    callback interleave freely, each access to a shared state being one step. */
module FutureChain {
  import opened Options
  import opened Counting

  datatype Result<T, E> = Value(v: T) | Exception(e: E)

  /** A continuation returns a value or throws. */
  datatype Outcome<T, E> = Returned(v: T) | Thrown(e: E)

  type Continuation<!T, !E> = Result<T, E> -> Outcome<T, E>

  datatype Stage = Start | OnlyResult | OnlyCallback | Done

  /** A thread inside `set_result`. */
  datatype Producer<T, E> =
    | NoResult                       // not called yet
    | EmplaceResult(r: Result<T, E>)
    | LoadForResult
    | CasForResult
    | FinishResult                   // store `done`
    | CallFromResult                 // do_callback
    | ResultSet
    | ResultThrows                   // shared_state_unexpected_state

  /** A thread inside `set_callback`. */
  datatype Consumer =
    | NoCallback
    | EmplaceCallback
    | LoadForCallback
    | CasForCallback
    | FinishCallback
    | CallFromCallback
    | CallbackSet
    | CallbackThrows

  /** `job` is the callback handed to the executor, or about to be called directly, with its argument;
      `runs` counts how often the callback has been called. */
  datatype Link<T, E> = Link(
    result: Option<Result<T, E>>,
    hasCallback: bool,
    stage: Stage,
    producer: Producer<T, E>,
    consumer: Consumer,
    job: Option<Result<T, E>>,
    runs: nat)

  type State<T, E> = seq<Link<T, E>>

  datatype Step =
    | SetFirstResult      // the producer of the first future calls set_result
    | Subscribe(i: nat)   // `then` calls set_callback on link i
    | RunProducer(i: nat)
    | RunConsumer(i: nat)
    | RunJob(i: nat)

  /** The continuations of the chain and the result given to its first future. */
  datatype Chain<!T, !E> = Chain(input: Result<T, E>, continuations: seq<Continuation<T, E>>)

  function Init<T, E>(c: Chain<T, E>): State<T, E> {
    seq(|c.continuations| + 1, _ => Link(None, false, Start, NoResult, NoCallback, None, 0))
  }

  /** What the callback of a continuation passes on: the value, or the exception as a result. */
  function Passed<T, E>(f: Continuation<T, E>, r: Result<T, E>): Result<T, E> {
    match f(r)
    case Returned(v) => Value(v)
    case Thrown(e) => Exception(e)
  }

  predicate Enabled<T, E>(c: Chain<T, E>, s: State<T, E>, step: Step) {
    match step
    case SetFirstResult => 0 < |s| && s[0].producer.NoResult?
    case Subscribe(i) => i < |c.continuations| && i < |s| && s[i].consumer == NoCallback
    case RunProducer(i) =>
      i < |s| && !s[i].producer.NoResult? && !s[i].producer.ResultSet? && !s[i].producer.ResultThrows?
    case RunConsumer(i) =>
      i < |s| && s[i].consumer != NoCallback && s[i].consumer != CallbackSet && s[i].consumer != CallbackThrows
    case RunJob(i) => i < |c.continuations| && i + 1 < |s| && s[i].job.Some?
  }

  function ProducerStep<T, E>(l: Link<T, E>): Link<T, E> {
    match l.producer
    case EmplaceResult(r) => l.(result := Some(r), producer := LoadForResult)
    case LoadForResult =>
      l.(producer := match l.stage
                     case Start => CasForResult
                     case OnlyCallback => FinishResult
                     case _ => ResultThrows)
    case CasForResult =>
      if l.stage == Start then l.(stage := OnlyResult, producer := ResultSet) else l.(producer := FinishResult)
    case FinishResult => l.(stage := Done, producer := CallFromResult)
    case CallFromResult => l.(job := l.result, producer := ResultSet)
    case _ => l
  }

  function ConsumerStep<T, E>(l: Link<T, E>): Link<T, E> {
    match l.consumer
    case EmplaceCallback => l.(hasCallback := true, consumer := LoadForCallback)
    case LoadForCallback =>
      l.(consumer := match l.stage
                     case Start => CasForCallback
                     case OnlyResult => FinishCallback
                     case _ => CallbackThrows)
    case CasForCallback =>
      if l.stage == Start then l.(stage := OnlyCallback, consumer := CallbackSet)
      else l.(consumer := if l.stage == OnlyResult then FinishCallback else CallbackThrows)
    case FinishCallback => l.(stage := Done, consumer := CallFromCallback)
    case CallFromCallback => l.(job := l.result, consumer := CallbackSet)
    case _ => l
  }

  /** The callback has been called. */
  function Ran<T, E>(l: Link<T, E>): Link<T, E> {
    l.(job := None, runs := l.runs + 1)
  }

  /** `set_result` has been called. */
  function Given<T, E>(l: Link<T, E>, r: Result<T, E>): Link<T, E> {
    l.(producer := EmplaceResult(r))
  }

  function AfterJob<T, E>(s: State<T, E>, i: nat, r: Result<T, E>): State<T, E>
    requires i + 1 < |s|
  {
    s[i := Ran(s[i])][i + 1 := Given(s[i + 1], r)]
  }

  function Apply<T, E>(c: Chain<T, E>, s: State<T, E>, step: Step): State<T, E>
    requires Enabled(c, s, step)
  {
    match step
    case SetFirstResult => s[0 := Given(s[0], c.input)]
    case Subscribe(i) => s[i := s[i].(consumer := EmplaceCallback)]
    case RunProducer(i) => s[i := ProducerStep(s[i])]
    case RunConsumer(i) => s[i := ConsumerStep(s[i])]
    case RunJob(i) =>
      AfterJob(s, i, Passed(c.continuations[i], s[i].job.value))
  }

  ghost predicate Runs<T(!new), E(!new)>(c: Chain<T, E>, s: State<T, E>, steps: seq<Step>, s': State<T, E>)
    decreases |steps|
  {
    if steps == [] then s' == s
    else Enabled(c, s, steps[0]) && Runs(c, Apply(c, s, steps[0]), steps[1..], s')
  }

  // ---------------------------------------------------------------- the protocol of one link

  /** The left-to-right composition of the first `i` continuations, applied to the input. */
  function Composed<T, E>(c: Chain<T, E>, i: nat): Result<T, E>
    requires i <= |c.continuations|
  {
    if i == 0 then c.input else Passed(c.continuations[i - 1], Composed(c, i - 1))
  }

  predicate BeforeResult<T, E>(p: Producer<T, E>) {
    p.NoResult? || p.EmplaceResult?
  }

  predicate BeforeCallback(p: Consumer) {
    p == NoCallback || p == EmplaceCallback
  }

  predicate Calling<T, E>(l: Link<T, E>) {
    l.producer.CallFromResult? || l.consumer == CallFromCallback
  }

  /** Which threads can be where at each stage. */
  predicate StageOk<T, E>(l: Link<T, E>) {
    match l.stage
    case Start =>
      (BeforeResult(l.producer) || l.producer.LoadForResult? || l.producer.CasForResult?) &&
      (BeforeCallback(l.consumer) || l.consumer == LoadForCallback || l.consumer == CasForCallback)
    case OnlyResult =>
      l.producer.ResultSet? &&
      (BeforeCallback(l.consumer) || l.consumer == LoadForCallback || l.consumer == CasForCallback ||
       l.consumer == FinishCallback)
    case OnlyCallback =>
      l.consumer == CallbackSet &&
      (BeforeResult(l.producer) || l.producer.LoadForResult? || l.producer.CasForResult? || l.producer.FinishResult?)
    case Done =>
      (l.producer.ResultSet? && (l.consumer == CallFromCallback || l.consumer == CallbackSet)) ||
      (l.producer.CallFromResult? && l.consumer == CallbackSet)
  }

  /** The callback is handed over once: by the thread that finished last, then by the job, then it has run. */
  predicate HandOverOk<T, E>(l: Link<T, E>) {
    l.runs + (if l.job.Some? then 1 else 0) + (if Calling(l) then 1 else 0) == (if l.stage == Done then 1 else 0)
  }

  predicate LinkOk<T(==), E(==)>(l: Link<T, E>, expected: Result<T, E>) {
    && StageOk(l) && HandOverOk(l)
    && (l.hasCallback <==> !BeforeCallback(l.consumer))
    && (l.result == if BeforeResult(l.producer) then None else Some(expected))
    && (l.producer.EmplaceResult? ==> l.producer.r == expected)
    && (l.job.Some? ==> l.job == Some(expected))
  }

  ghost predicate Inv<T, E>(c: Chain<T, E>, s: State<T, E>) {
    && |s| == |c.continuations| + 1
    && (forall i :: 0 <= i < |s| ==> LinkOk(s[i], Composed(c, i)))
    && (forall i :: 0 <= i < |c.continuations| ==> (s[i].runs == 0 <==> s[i + 1].producer.NoResult?))
    && s[|c.continuations|].consumer == NoCallback
  }

  lemma ProducerKeeps<T, E>(l: Link<T, E>, expected: Result<T, E>)
    requires LinkOk(l, expected)
    requires !l.producer.NoResult? && !l.producer.ResultSet?
    ensures LinkOk(ProducerStep(l), expected)
    ensures ProducerStep(l).runs == l.runs && !ProducerStep(l).producer.NoResult?
    ensures ProducerStep(l).consumer == l.consumer && LinkLeft(ProducerStep(l)) < LinkLeft(l)
  {
  }

  lemma ConsumerKeeps<T, E>(l: Link<T, E>, expected: Result<T, E>)
    requires LinkOk(l, expected)
    requires l.consumer != NoCallback && l.consumer != CallbackSet
    ensures LinkOk(ConsumerStep(l), expected)
    ensures ConsumerStep(l).runs == l.runs && ConsumerStep(l).consumer != NoCallback
    ensures ConsumerStep(l).producer == l.producer && LinkLeft(ConsumerStep(l)) < LinkLeft(l)
  {
  }

  /** One link changes without its callback having run. */
  lemma UpdateKeepsInv<T, E>(c: Chain<T, E>, s: State<T, E>, i: nat, l: Link<T, E>)
    requires Inv(c, s) && i < |s| && LinkOk(l, Composed(c, i)) && l.runs == s[i].runs
    requires i == 0 || (l.producer.NoResult? <==> s[i].producer.NoResult?)
    requires i == |c.continuations| ==> l.consumer == NoCallback
    ensures Inv(c, s[i := l])
  {
  }

  lemma JobKeepsInv<T, E>(c: Chain<T, E>, s: State<T, E>, i: nat)
    requires Inv(c, s) && i < |c.continuations| && s[i].job.Some?
    ensures s[i].job.value == Composed(c, i)
    ensures Inv(c, AfterJob(s, i, Composed(c, i + 1))) && Left(AfterJob(s, i, Composed(c, i + 1))) < Left(s)
  {
    JobLinks(c, s, i);
    TwoUpdatesKeepInv(c, s, i, Ran(s[i]), Given(s[i + 1], Composed(c, i + 1)));
    TwoUpdatesLeft(s, i, Ran(s[i]), Given(s[i + 1], Composed(c, i + 1)));
  }

  lemma TwoUpdatesLeft<T, E>(s: State<T, E>, i: nat, l: Link<T, E>, m: Link<T, E>)
    requires i + 1 < |s| && LinkLeft(l) < LinkLeft(s[i]) && LinkLeft(m) < LinkLeft(s[i + 1])
    ensures Left(s[i := l][i + 1 := m]) < Left(s)
  {
    SumUpdate(s, LinkLeft, i, l);
    SumUpdate(s[i := l], LinkLeft, i + 1, m);
  }

  /** The callback of link `i` has run, and the next link has got its result. */
  lemma TwoUpdatesKeepInv<T, E>(c: Chain<T, E>, s: State<T, E>, i: nat, l: Link<T, E>, m: Link<T, E>)
    requires Inv(c, s) && i < |c.continuations|
    requires LinkOk(l, Composed(c, i)) && LinkOk(m, Composed(c, i + 1)) && l.runs != 0 && !m.producer.NoResult?
    requires l.producer == s[i].producer && m.runs == s[i + 1].runs && m.consumer == s[i + 1].consumer
    ensures Inv(c, s[i := l][i + 1 := m])
  {
  }

  /** The link that hands over, and the one that receives. */
  lemma JobLinks<T, E>(c: Chain<T, E>, s: State<T, E>, i: nat)
    requires Inv(c, s) && i < |c.continuations| && s[i].job.Some?
    ensures s[i].job.value == Composed(c, i)
    ensures LinkOk(Ran(s[i]), Composed(c, i)) && LinkLeft(Ran(s[i])) < LinkLeft(s[i])
    ensures LinkOk(Given(s[i + 1], Composed(c, i + 1)), Composed(c, i + 1))
    ensures LinkLeft(Given(s[i + 1], Composed(c, i + 1))) < LinkLeft(s[i + 1])
  {
    assert LinkOk(s[i], Composed(c, i)) && LinkOk(s[i + 1], Composed(c, i + 1));
  }

  lemma StepKeepsInv<T, E>(c: Chain<T, E>, s: State<T, E>, step: Step)
    requires Inv(c, s) && Enabled(c, s, step)
    ensures Inv(c, Apply(c, s, step))
  {
    match step
    case SetFirstResult =>
      assert LinkOk(s[0], Composed(c, 0));
      UpdateKeepsInv(c, s, 0, Given(s[0], c.input));
    case Subscribe(i) =>
      assert LinkOk(s[i], Composed(c, i));
      UpdateKeepsInv(c, s, i, s[i].(consumer := EmplaceCallback));
    case RunProducer(i) =>
      ProducerKeeps(s[i], Composed(c, i));
      UpdateKeepsInv(c, s, i, ProducerStep(s[i]));
    case RunConsumer(i) =>
      ConsumerKeeps(s[i], Composed(c, i));
      UpdateKeepsInv(c, s, i, ConsumerStep(s[i]));
    case RunJob(i) =>
      JobKeepsInv(c, s, i);
  }

  lemma {:induction false} RunsKeepInv<T(!new), E(!new)>(
    c: Chain<T, E>, s: State<T, E>, steps: seq<Step>, s': State<T, E>)
    requires Inv(c, s) && Runs(c, s, steps, s')
    ensures Inv(c, s')
    decreases |steps|
  {
    if steps != [] {
      StepKeepsInv(c, s, steps[0]);
      RunsKeepInv(c, Apply(c, s, steps[0]), steps[1..], s');
    }
  }

  // ---------------------------------------------------------------- what the chain delivers

  /** Whatever the interleaving: a future that has a result has the composition of the continuations
      before it, no callback runs twice, and nobody meets an unexpected state. */
  lemma ChainIsSafe<T(!new), E(!new)>(c: Chain<T, E>, steps: seq<Step>, s: State<T, E>, i: nat)
    requires Runs(c, Init(c), steps, s) && i < |s|
    ensures i <= |c.continuations|
    ensures s[i].result.Some? ==> s[i].result == Some(Composed(c, i))
    ensures s[i].runs <= 1
    ensures !s[i].producer.ResultThrows? && s[i].consumer != CallbackThrows
  {
    RunsKeepInv(c, Init(c), steps, s);
    assert LinkOk(s[i], Composed(c, i));
  }

  ghost predicate Stuck<T, E>(c: Chain<T, E>, s: State<T, E>) {
    forall step :: !Enabled(c, s, step)
  }

  lemma {:induction false} StuckDelivers<T, E>(c: Chain<T, E>, s: State<T, E>, i: nat)
    requires Inv(c, s) && Stuck(c, s) && i <= |c.continuations|
    ensures s[i].producer.ResultSet? && s[i].result == Some(Composed(c, i))
    ensures i < |c.continuations| ==> s[i].runs == 1
  {
    assert LinkOk(s[i], Composed(c, i));
    if i == 0 {
      assert !Enabled(c, s, SetFirstResult);
    } else {
      StuckDelivers(c, s, i - 1);
    }
    assert !Enabled(c, s, RunProducer(i));
    if i < |c.continuations| {
      assert !Enabled(c, s, Subscribe(i));
      assert !Enabled(c, s, RunConsumer(i));
      assert !Enabled(c, s, RunJob(i));
    }
  }

  /** When no step is left, every callback has run exactly once and the last future can be read: it holds
      the composition of all continuations. */
  lemma ChainDelivers<T(!new), E(!new)>(c: Chain<T, E>, steps: seq<Step>, s: State<T, E>)
    requires Runs(c, Init(c), steps, s) && Stuck(c, s)
    ensures |s| == |c.continuations| + 1
    ensures forall i :: 0 <= i < |c.continuations| ==> s[i].runs == 1
    ensures s[|c.continuations|].stage == OnlyResult
    ensures s[|c.continuations|].result == Some(Composed(c, |c.continuations|))
  {
    RunsKeepInv(c, Init(c), steps, s);
    forall i | 0 <= i <= |c.continuations|
      ensures i < |c.continuations| ==> s[i].runs == 1
    {
      StuckDelivers(c, s, i);
    }
    var last := |c.continuations|;
    StuckDelivers(c, s, last);
    assert LinkOk(s[last], Composed(c, last));
  }

  /** What `then` passes from one future to the next: the value that the continuation returns for the result,
      be that a value or an exception, or the exception that it throws. */
  ghost predicate PassesOn<T(!new), E(!new)>(f: Continuation<T, E>, r: Result<T, E>, next: Result<T, E>) {
    && (forall v :: f(r) == Returned(v) ==> next == Value(v))
    && (forall e :: f(r) == Thrown(e) ==> next == Exception(e))
  }

  /** Whatever the interleaving: the first future gets the input, and no other has a result before its predecessor
      has one from which its continuation makes it. */
  lemma ResultsArePassedOn<T(!new), E(!new)>(c: Chain<T, E>, steps: seq<Step>, s: State<T, E>, i: nat)
    requires Runs(c, Init(c), steps, s) && i < |s| && s[i].result.Some?
    ensures i == 0 ==> s[i].result == Some(c.input)
    ensures 0 < i <= |c.continuations| ==>
              s[i - 1].result.Some? && PassesOn(c.continuations[i - 1], s[i - 1].result.value, s[i].result.value)
  {
    RunsKeepInv(c, Init(c), steps, s);
    assert LinkOk(s[i], Composed(c, i));
    if 0 < i {
      assert LinkOk(s[i - 1], Composed(c, i - 1));
      assert s[i - 1].runs != 0;
    }
  }

  /** When no step is left, every future has its result, each made from the one before. */
  lemma AllPassedOn<T(!new), E(!new)>(c: Chain<T, E>, steps: seq<Step>, s: State<T, E>)
    requires Runs(c, Init(c), steps, s) && Stuck(c, s)
    ensures |s| == |c.continuations| + 1 && s[0].result == Some(c.input)
    ensures forall i :: 0 <= i < |s| ==> s[i].result.Some?
    ensures forall i :: 0 <= i < |c.continuations| ==>
              PassesOn(c.continuations[i], s[i].result.value, s[i + 1].result.value)
  {
    RunsKeepInv(c, Init(c), steps, s);
    forall i | 0 <= i < |s|
      ensures s[i].result.Some?
    {
      StuckDelivers(c, s, i);
    }
    ResultsArePassedOn(c, steps, s, 0);
    forall i | 0 <= i < |c.continuations|
      ensures PassesOn(c.continuations[i], s[i].result.value, s[i + 1].result.value)
    {
      ResultsArePassedOn(c, steps, s, i + 1);
    }
  }

  // ---------------------------------------------------------------- every run ends

  function ProducerLeft<T, E>(p: Producer<T, E>): nat {
    match p
    case NoResult => 7
    case EmplaceResult(_) => 6
    case LoadForResult => 5
    case CasForResult => 4
    case FinishResult => 3
    case CallFromResult => 2
    case _ => 0
  }

  function ConsumerLeft(p: Consumer): nat {
    match p
    case NoCallback => 7
    case EmplaceCallback => 6
    case LoadForCallback => 5
    case CasForCallback => 4
    case FinishCallback => 3
    case CallFromCallback => 2
    case _ => 0
  }

  /** How many steps a link can still take. */
  function LinkLeft<T, E>(l: Link<T, E>): nat {
    ProducerLeft(l.producer) + ConsumerLeft(l.consumer) + (if l.job.Some? then 1 else 0)
  }

  function Left<T, E>(s: State<T, E>): nat {
    Sum(s, LinkLeft)
  }

  lemma StepDecreases<T, E>(c: Chain<T, E>, s: State<T, E>, step: Step)
    requires Inv(c, s) && Enabled(c, s, step)
    ensures Left(Apply(c, s, step)) < Left(s)
  {
    match step
    case SetFirstResult => SumUpdate(s, LinkLeft, 0, Given(s[0], c.input));
    case Subscribe(i) => SumUpdate(s, LinkLeft, i, s[i].(consumer := EmplaceCallback));
    case RunProducer(i) =>
      ProducerKeeps(s[i], Composed(c, i));
      SumUpdate(s, LinkLeft, i, ProducerStep(s[i]));
    case RunConsumer(i) =>
      ConsumerKeeps(s[i], Composed(c, i));
      SumUpdate(s, LinkLeft, i, ConsumerStep(s[i]));
    case RunJob(i) => JobKeepsInv(c, s, i);
  }

  lemma {:induction false} RunsAreBounded<T(!new), E(!new)>(
    c: Chain<T, E>, s: State<T, E>, steps: seq<Step>, s': State<T, E>)
    requires Inv(c, s) && Runs(c, s, steps, s')
    ensures |steps| + Left(s') <= Left(s)
    decreases |steps|
  {
    if steps != [] {
      StepKeepsInv(c, s, steps[0]);
      StepDecreases(c, s, steps[0]);
      RunsAreBounded(c, Apply(c, s, steps[0]), steps[1..], s');
    }
  }

  /** No run can go on for ever, so every run reaches the delivery. */
  lemma ChainTerminates<T(!new), E(!new)>(c: Chain<T, E>, steps: seq<Step>, s: State<T, E>)
    requires Runs(c, Init(c), steps, s)
    ensures |steps| <= 14 * (|c.continuations| + 1)
  {
    SumAtMost(Init(c), LinkLeft, 14);
    RunsAreBounded(c, Init(c), steps, s);
  }
}
