/**
 * A transform stage on a pool of threads: every item is a task of three steps, and the steps of different
 * tasks may interleave in any way.
 */
module TransformRuns {
  import opened Blocks

  datatype Error<E> = NoError | Error(value: E)

  /** What processing one item gives: the item afterwards, and the error if it failed. */
  datatype Processed<T, E> = Processed(item: T, error: Error<E>)

  /** The stage: which items it processes, and what it makes of each. */
  datatype Stage<!T, E> = Stage(shouldProcess: T -> bool, process: T -> Processed<T, E>) {
    predicate Succeeds(item: T) {
      shouldProcess(item) && process(item).error.NoError?
    }

    predicate Fails(item: T) {
      shouldProcess(item) && process(item).error.Error?
    }

    function ErrorOf(item: T): E
      requires Fails(item)
    {
      process(item).error.value
    }

    function After(item: T): T {
      if shouldProcess(item) then process(item).item else item
    }
  }

  /**
   * Where a task is: before looking at its item; after processing it; after counting a failure whose
   * error is still to be reported; finished.
   */
  datatype Task<E> = Waiting | Done(error: Error<E>) | Counted(value: E) | Finished

  /** Items, tasks, and what the tasks share. The errors are kept with the positions of their items. */
  datatype State<T, E> = State(items: seq<T>, tasks: seq<Task<E>>, succeeded: nat, failed: nat, errors: seq<(nat, E)>)

  function Start<T, E>(items: seq<T>): State<T, E> {
    State(items, Repeat(Waiting, |items|), 0, 0, [])
  }

  /** The next step of the i-th task. */
  function Step<T, E>(stage: Stage<T, E>, s: State<T, E>, i: nat): (n: State<T, E>)
    requires i < |s.items| == |s.tasks| && !s.tasks[i].Finished?
    ensures |n.items| == |s.items| && |n.tasks| == |s.tasks|
  {
    match s.tasks[i]
    case Waiting =>
      if !stage.shouldProcess(s.items[i]) then s.(tasks := s.tasks[i := Finished])
      else
        var p := stage.process(s.items[i]);
        s.(items := s.items[i := p.item], tasks := s.tasks[i := Done(p.error)])
    case Done(NoError) => s.(succeeded := s.succeeded + 1, tasks := s.tasks[i := Finished])
    case Done(Error(e)) => s.(failed := s.failed + 1, tasks := s.tasks[i := Counted(e)])
    case Counted(e) => s.(errors := s.errors + [(i, e)], tasks := s.tasks[i := Finished])
  }

  /** A run makes steps of the tasks that the schedule names, one after the other. */
  ghost predicate IsRun<T, E>(stage: Stage<T, E>, s: State<T, E>, schedule: seq<nat>, n: State<T, E>)
    requires |s.items| == |s.tasks|
    decreases |schedule|
  {
    if schedule == [] then s == n
    else
      && schedule[0] < |s.tasks| && !s.tasks[schedule[0]].Finished?
      && IsRun(stage, Step(stage, s, schedule[0]), schedule[1..], n)
  }

  ghost predicate AllFinished<T, E>(s: State<T, E>) {
    forall i :: 0 <= i < |s.tasks| ==> s.tasks[i].Finished?
  }

  // --- the items taken one after the other -----------------------------------------------------------

  function ItemsAfter<T, E>(stage: Stage<T, E>, items: seq<T>): (r: seq<T>)
    ensures |r| == |items| && forall i :: 0 <= i < |items| ==> r[i] == stage.After(items[i])
  {
    seq(|items|, i requires 0 <= i < |items| => stage.After(items[i]))
  }

  /** The positions and errors of the items that fail, in order. */
  function Failures<T, E>(stage: Stage<T, E>, items: seq<T>): seq<(nat, E)> {
    if items == [] then [] else
      var n := |items| - 1;
      Failures(stage, items[..n]) + (if stage.Fails(items[n]) then [(n, stage.ErrorOf(items[n]))] else [])
  }

  function Successes<T, E>(stage: Stage<T, E>, items: seq<T>): nat {
    if items == [] then 0 else
      Successes(stage, items[..|items| - 1]) + (if stage.Succeeds(items[|items| - 1]) then 1 else 0)
  }

  /** The number of items that the stage should process. */
  function Work<T, E>(stage: Stage<T, E>, items: seq<T>): nat {
    if items == [] then 0 else
      Work(stage, items[..|items| - 1]) + (if stage.shouldProcess(items[|items| - 1]) then 1 else 0)
  }

  /** What the last item adds. */
  lemma OneMoreItem<T, E>(stage: Stage<T, E>, items: seq<T>)
    requires items != []
    ensures var n := |items| - 1;
            && ItemsAfter(stage, items) == ItemsAfter(stage, items[..n]) + [stage.After(items[n])]
            && |Failures(stage, items)| == |Failures(stage, items[..n])| + (if stage.Fails(items[n]) then 1 else 0)
            && Work(stage, items) == Work(stage, items[..n]) + (if stage.shouldProcess(items[n]) then 1 else 0)
  {
  }

  lemma {:induction false} WorkSplits<T, E>(stage: Stage<T, E>, items: seq<T>)
    ensures Successes(stage, items) + |Failures(stage, items)| == Work(stage, items)
  {
    if items != [] {
      WorkSplits(stage, items[..|items| - 1]);
    }
  }

  // --- what every step keeps --------------------------------------------------------------------------

  /** The item and the task agree with what processing the initial item gives. */
  ghost predicate Fits<T, E>(stage: Stage<T, E>, initial: T, item: T, task: Task<E>) {
    match task
    case Waiting => item == initial
    case Done(e) => stage.shouldProcess(initial) && stage.process(initial) == Processed(item, e)
    case Counted(e) => stage.shouldProcess(initial) && stage.process(initial) == Processed(item, Error(e))
    case Finished => item == stage.After(initial)
  }

  ghost function SuccessesSoFar<T, E>(stage: Stage<T, E>, initial: seq<T>, tasks: seq<Task<E>>): set<nat>
    requires |initial| == |tasks|
  {
    set i: nat | i < |tasks| && tasks[i].Finished? && stage.Succeeds(initial[i])
  }

  ghost function FailuresSoFar<T, E>(stage: Stage<T, E>, initial: seq<T>, tasks: seq<Task<E>>): set<nat>
    requires |initial| == |tasks|
  {
    set i: nat | i < |tasks| && (tasks[i].Finished? || tasks[i].Counted?) && stage.Fails(initial[i])
  }

  ghost predicate ItemsFit<T, E>(stage: Stage<T, E>, initial: seq<T>, s: State<T, E>) {
    && |initial| == |s.items| == |s.tasks|
    && forall i :: 0 <= i < |initial| ==> Fits(stage, initial[i], s.items[i], s.tasks[i])
  }

  ghost predicate CountsFit<T, E>(stage: Stage<T, E>, initial: seq<T>, s: State<T, E>)
    requires |initial| == |s.tasks|
  {
    && s.succeeded == |SuccessesSoFar(stage, initial, s.tasks)|
    && s.failed == |FailuresSoFar(stage, initial, s.tasks)|
  }

  /** One error for each item that failed and whose task is finished, and no others. */
  ghost predicate ErrorsFit<T, E>(stage: Stage<T, E>, initial: seq<T>, s: State<T, E>)
    requires |initial| == |s.tasks|
  {
    && NoDuplicates(s.errors)
    && (forall i: nat :: i < |initial| && s.tasks[i].Finished? && stage.Fails(initial[i]) ==>
          (i, stage.ErrorOf(initial[i])) in s.errors)
    && (forall k :: 0 <= k < |s.errors| ==>
          var i := s.errors[k].0;
          i < |initial| && s.tasks[i].Finished? && stage.Fails(initial[i])
              && s.errors[k].1 == stage.ErrorOf(initial[i]))
  }

  ghost predicate Invariant<T, E>(stage: Stage<T, E>, initial: seq<T>, s: State<T, E>) {
    ItemsFit(stage, initial, s) && CountsFit(stage, initial, s) && ErrorsFit(stage, initial, s)
  }

  lemma StartFits<T, E>(stage: Stage<T, E>, items: seq<T>)
    ensures Invariant(stage, items, Start(items))
  {
    var s := Start<T, E>(items);
    assert SuccessesSoFar(stage, items, s.tasks) == {};
    assert FailuresSoFar(stage, items, s.tasks) == {};
  }

  lemma SuccessesStep<T, E>(stage: Stage<T, E>, initial: seq<T>, tasks: seq<Task<E>>, i: nat, t: Task<E>)
    requires |initial| == |tasks| && i < |tasks| && !tasks[i].Finished?
    ensures |SuccessesSoFar(stage, initial, tasks[i := t])|
            == |SuccessesSoFar(stage, initial, tasks)| + (if t.Finished? && stage.Succeeds(initial[i]) then 1 else 0)
  {
    var before := SuccessesSoFar(stage, initial, tasks);
    assert SuccessesSoFar(stage, initial, tasks[i := t])
           == if t.Finished? && stage.Succeeds(initial[i]) then before + {i} else before;
  }

  lemma FailuresStep<T, E>(stage: Stage<T, E>, initial: seq<T>, tasks: seq<Task<E>>, i: nat, t: Task<E>)
    requires |initial| == |tasks| && i < |tasks| && !tasks[i].Finished?
    requires tasks[i].Counted? ==> t.Finished? || t.Counted?
    ensures |FailuresSoFar(stage, initial, tasks[i := t])|
            == |FailuresSoFar(stage, initial, tasks)|
               + (if !tasks[i].Counted? && (t.Finished? || t.Counted?) && stage.Fails(initial[i]) then 1 else 0)
  {
    var before := FailuresSoFar(stage, initial, tasks);
    assert FailuresSoFar(stage, initial, tasks[i := t])
           == if !tasks[i].Counted? && (t.Finished? || t.Counted?) && stage.Fails(initial[i]) then before + {i}
               else before;
  }

  lemma StepKeepsCounts<T, E>(stage: Stage<T, E>, initial: seq<T>, s: State<T, E>, i: nat)
    requires ItemsFit(stage, initial, s) && CountsFit(stage, initial, s) && i < |s.tasks| && !s.tasks[i].Finished?
    ensures CountsFit(stage, initial, Step(stage, s, i))
  {
    hide SuccessesSoFar, FailuresSoFar;
    assert Fits(stage, initial[i], s.items[i], s.tasks[i]);
    SuccessesStep(stage, initial, s.tasks, i, Step(stage, s, i).tasks[i]);
    FailuresStep(stage, initial, s.tasks, i, Step(stage, s, i).tasks[i]);
  }

  lemma StepKeepsErrors<T, E>(stage: Stage<T, E>, initial: seq<T>, s: State<T, E>, i: nat)
    requires ItemsFit(stage, initial, s) && ErrorsFit(stage, initial, s) && i < |s.tasks| && !s.tasks[i].Finished?
    ensures ErrorsFit(stage, initial, Step(stage, s, i))
  {
    assert Fits(stage, initial[i], s.items[i], s.tasks[i]);
    var n := Step(stage, s, i);
    if s.tasks[i].Counted? {
      var e := (i, stage.ErrorOf(initial[i]));
      assert n.errors == s.errors + [e];
      forall k | 0 <= k < |s.errors|
        ensures s.errors[k].0 != i
      {
      }
    }
  }

  lemma StepKeeps<T, E>(stage: Stage<T, E>, initial: seq<T>, s: State<T, E>, i: nat)
    requires Invariant(stage, initial, s) && i < |s.tasks| && !s.tasks[i].Finished?
    ensures Invariant(stage, initial, Step(stage, s, i))
  {
    hide CountsFit, ErrorsFit;
    StepKeepsCounts(stage, initial, s, i);
    StepKeepsErrors(stage, initial, s, i);
    assert Fits(stage, initial[i], s.items[i], s.tasks[i]);
  }

  lemma {:induction false} RunKeeps<T, E>(stage: Stage<T, E>, initial: seq<T>, s: State<T, E>, schedule: seq<nat>,
                                          n: State<T, E>)
    requires Invariant(stage, initial, s) && IsRun(stage, s, schedule, n)
    ensures Invariant(stage, initial, n)
    decreases |schedule|
  {
    if schedule != [] {
      StepKeeps(stage, initial, s, schedule[0]);
      RunKeeps(stage, initial, Step(stage, s, schedule[0]), schedule[1..], n);
    }
  }

  // --- complete runs ------------------------------------------------------------------------------------

  lemma {:induction false} SuccessesCounted<T, E>(stage: Stage<T, E>, items: seq<T>)
    ensures |set i: nat | i < |items| && stage.Succeeds(items[i])| == Successes(stage, items)
  {
    var all := set i: nat | i < |items| && stage.Succeeds(items[i]);
    if items == [] {
      assert all == {};
    } else {
      var n := |items| - 1;
      SuccessesCounted(stage, items[..n]);
      var front := set i: nat | i < n && stage.Succeeds(items[..n][i]);
      assert all == if stage.Succeeds(items[n]) then front + {n} else front;
    }
  }

  lemma {:induction false} FailuresCounted<T, E>(stage: Stage<T, E>, items: seq<T>)
    ensures |set i: nat | i < |items| && stage.Fails(items[i])| == |Failures(stage, items)|
  {
    var all := set i: nat | i < |items| && stage.Fails(items[i]);
    if items == [] {
      assert all == {};
    } else {
      var n := |items| - 1;
      FailuresCounted(stage, items[..n]);
      var front := set i: nat | i < n && stage.Fails(items[..n][i]);
      assert all == if stage.Fails(items[n]) then front + {n} else front;
    }
  }

  lemma {:induction false} FailuresListed<T, E>(stage: Stage<T, E>, items: seq<T>)
    ensures NoDuplicates(Failures(stage, items))
    ensures forall k :: 0 <= k < |Failures(stage, items)| ==>
              var i := Failures(stage, items)[k].0;
              i < |items| && stage.Fails(items[i]) && Failures(stage, items)[k].1 == stage.ErrorOf(items[i])
    ensures forall i: nat :: i < |items| && stage.Fails(items[i]) ==>
            (i, stage.ErrorOf(items[i])) in Failures(stage, items)
  {
    if items != [] {
      var n := |items| - 1;
      FailuresListed(stage, items[..n]);
      forall i: nat | i < |items| && stage.Fails(items[i])
        ensures (i, stage.ErrorOf(items[i])) in Failures(stage, items)
      {
        if i < n {
          assert stage.Fails(items[..n][i]);
        }
      }
    }
  }

  /**
   * Whatever the interleaving, a run in which all tasks finish leaves the items as processing them one
   * after the other does, counts each item that should be processed once, and reports the same errors,
   * one for each item that fails.
   */
  lemma EveryCompleteRun<T, E>(stage: Stage<T, E>, items: seq<T>, schedule: seq<nat>, n: State<T, E>)
    requires IsRun(stage, Start(items), schedule, n) && AllFinished(n)
    ensures n.items == ItemsAfter(stage, items)
    ensures n.succeeded == Successes(stage, items) && n.failed == |Failures(stage, items)|
    ensures n.succeeded + n.failed == Work(stage, items)
    ensures multiset(n.errors) == multiset(Failures(stage, items)) && |n.errors| == n.failed
  {
    StartFits(stage, items);
    RunKeeps(stage, items, Start(items), schedule, n);
    SuccessesCounted(stage, items);
    FailuresCounted(stage, items);
    FailuresListed(stage, items);
    WorkSplits(stage, items);
    forall i | 0 <= i < |items|
      ensures n.items[i] == stage.After(items[i])
    {
      assert Fits(stage, items[i], n.items[i], n.tasks[i]);
    }
    assert SuccessesSoFar(stage, items, n.tasks) == set i: nat | i < |items| && stage.Succeeds(items[i]);
    assert FailuresSoFar(stage, items, n.tasks) == set i: nat | i < |items| && stage.Fails(items[i]);
    SameElementsSameCounts(n.errors, Failures(stage, items));
  }

  // --- runs end -----------------------------------------------------------------------------------------

  function StepsLeft<E>(tasks: seq<Task<E>>): nat {
    if tasks == [] then 0 else
      StepsLeft(tasks[..|tasks| - 1])
      + match tasks[|tasks| - 1]
        case Waiting => 3
        case Done(_) => 2
        case Counted(_) => 1
        case Finished => 0
  }

  lemma {:induction false} FewerStepsLeft<E>(tasks: seq<Task<E>>, i: nat, t: Task<E>)
    requires i < |tasks|
    requires match tasks[i]
             case Waiting => !t.Waiting?
             case Done(_) => t.Counted? || t.Finished?
             case Counted(_) => t.Finished?
             case Finished => false
    ensures StepsLeft(tasks[i := t]) < StepsLeft(tasks)
  {
    var n := |tasks| - 1;
    if i < n {
      FewerStepsLeft(tasks[..n], i, t);
      assert tasks[i := t][..n] == tasks[..n][i := t];
    } else {
      assert tasks[i := t][..n] == tasks[..n];
    }
  }

  lemma {:induction false} RunIsShort<T, E>(stage: Stage<T, E>, s: State<T, E>, schedule: seq<nat>, n: State<T, E>)
    requires |s.items| == |s.tasks| && IsRun(stage, s, schedule, n)
    ensures |schedule| + StepsLeft(n.tasks) <= StepsLeft(s.tasks)
    decreases |schedule|
  {
    if schedule != [] {
      var i := schedule[0];
      FewerStepsLeft(s.tasks, i, Step(stage, s, i).tasks[i]);
      RunIsShort(stage, Step(stage, s, i), schedule[1..], n);
    }
  }

  lemma {:induction false} StepsAtStart<E>(n: nat)
    ensures StepsLeft(Repeat<Task<E>>(Waiting, n)) == 3 * n
  {
    if n > 0 {
      StepsAtStart<E>(n - 1);
      assert Repeat<Task<E>>(Waiting, n)[..n - 1] == Repeat<Task<E>>(Waiting, n - 1);
    }
  }

  /** No run makes more than three steps for each item. */
  lemma RunsEnd<T, E>(stage: Stage<T, E>, items: seq<T>, schedule: seq<nat>, n: State<T, E>)
    requires IsRun(stage, Start(items), schedule, n)
    ensures |schedule| <= 3 * |items|
  {
    RunIsShort(stage, Start(items), schedule, n);
    StepsAtStart<E>(|items|);
  }

  /** From wherever a run has come to, all tasks can finish. */
  lemma CanFinish<T, E>(stage: Stage<T, E>, s: State<T, E>) returns (schedule: seq<nat>, n: State<T, E>)
    requires |s.items| == |s.tasks|
    ensures IsRun(stage, s, schedule, n) && AllFinished(n)
    decreases StepsLeft(s.tasks)
  {
    if AllFinished(s) {
      schedule, n := [], s;
    } else {
      var i: nat :| i < |s.tasks| && !s.tasks[i].Finished?;
      FewerStepsLeft(s.tasks, i, Step(stage, s, i).tasks[i]);
      var rest: seq<nat>;
      rest, n := CanFinish(stage, Step(stage, s, i));
      schedule := [i] + rest;
      assert schedule[1..] == rest;
    }
  }
}
