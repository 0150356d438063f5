/** The manager: discovers extensions, runs the stages over them, updates and terminates them. */
module ManagerModel {
  import opened Blocks
  import opened Wrappers
  import opened Extensions
  import opened ExtensionLoading
  import opened StartupStages
  import opened ExtensionResolution
  import opened StartupRuns
  import TransformRuns

  // --- parsing ----------------------------------------------------------------------------------------

  /** Reads an extension's manifest. */
  method ParseItem(ext: Extension) returns (ok: bool)
    requires ext.Traced() && ext.state == Discovered
    modifies ext`state, ext`history, ext`manifest
    ensures ext.Traced() && IsEarly(ext.state) && ParsingResult(old(ext.Now()), ext.Now(), ok)
  {
    hide IsHistory;
    ext.StartOperation(Parsing);
    var manifest := ext.file.manifest;
    if manifest.None? {
      ext.EndOperation(Corrupted);
      return false;
    }
    ext.SetManifest(manifest.value);
    ext.EndOperation(Parsed);
    ok := true;
  }

  // --- how far the stages have come -------------------------------------------------------------------

  /** The state of an extension after the first stages, if none of them has counted a failure. */
  predicate ReachedBy(s: Snapshot, stages: nat) {
    match stages
    case 0 => s.state == Discovered
    case 1 => s.state == Parsed
    case _ =>
      || s.state == Unresolved || s.state == Disabled
      || (stages == 2 && s.state == Resolved)
      || (stages > 2 && s.kind == Module && s.state == Running)
      || (stages == 3 && s.kind == Plugin && s.state == Loaded)
      || (stages == 4 && s.kind == Plugin && s.state == Exported)
      || (stages > 4 && s.kind == Plugin && s.state == Running)
  }

  ghost predicate AllReachedBy(s: seq<Snapshot>, stages: nat) {
    forall i :: 0 <= i < |s| ==> ReachedBy(s[i], stages)
  }

  ghost predicate Reached(exts: seq<Extension>, stages: nat)
    reads exts
  {
    AllReachedBy(Snapshots(exts), stages)
  }

  /** A sequential stage without a failure brings the extensions one stage further. */
  lemma StageReaches(stage: Stage, stages: nat, o: seq<Snapshot>, n: seq<Snapshot>)
    requires stage.Results(o, n, 0) && AllReachedBy(o, stages)
    requires stages
             == match stage
                case ParsingStageOf => 0
                case LoadingStageOf => 2
                case ExportingStageOf => 3
                case StartingStageOf => 4
    ensures AllReachedBy(n, stages + 1)
  {
    forall i | 0 <= i < |n|
      ensures ReachedBy(n[i], stages + 1)
    {
      assert stage.Result(o[i], n[i], true) && ReachedBy(o[i], stages);
    }
  }

  lemma ReachedEarly(exts: seq<Extension>, stages: nat)
    requires Reached(exts, stages) && stages <= 1
    ensures AllEarly(exts)
  {
    assert forall i :: 0 <= i < |exts| ==> ReachedBy(Snapshots(exts)[i], stages);
  }

  lemma ReachedToLoad(exts: seq<Extension>)
    requires Reached(exts, 2) && Sound(exts)
    ensures forall i :: 0 <= i < |exts| ==> IsEarly(exts[i].state)
    ensures var s := Snapshots(exts);
            forall i :: 0 <= i < |s| ==> (Excluded(s[i]) || s[i].state == Resolved) && s[i].languageModule == 0
                                         && s[i].state != Failed && s[i].state != Skipped
  {
    forall i | 0 <= i < |exts|
      ensures IsEarly(exts[i].state) && exts[i].languageModule == 0
      ensures Excluded(exts[i].Now()) || exts[i].state == Resolved
    {
      assert ReachedBy(Snapshots(exts)[i], 2) && Backed(exts[i]);
    }
  }

  lemma ReachedToExport(s: seq<Snapshot>)
    requires AllReachedBy(s, 3)
    ensures forall i :: 0 <= i < |s| ==> ToExport(s[i]) && s[i].state != Failed && s[i].state != Skipped
  {
    assert forall i :: 0 <= i < |s| ==> ReachedBy(s[i], 3);
  }

  lemma ReachedToStart(s: seq<Snapshot>)
    requires AllReachedBy(s, 4)
    ensures forall i :: 0 <= i < |s| ==> ToStart(s[i]) && s[i].state != Failed && s[i].state != Skipped
  {
    assert forall i :: 0 <= i < |s| ==> ReachedBy(s[i], 4);
  }

  lemma AllDiscovered(s: seq<Snapshot>)
    requires AllReachedBy(s, 0)
    ensures forall i :: 0 <= i < |s| ==> s[i].state == Discovered
  {
    assert forall i :: 0 <= i < |s| ==> ReachedBy(s[i], 0);
  }

  lemma AllParsed(s: seq<Snapshot>)
    requires AllReachedBy(s, 1)
    ensures forall i :: 0 <= i < |s| ==> s[i].state == Parsed
  {
    assert forall i :: 0 <= i < |s| ==> ReachedBy(s[i], 1);
  }

  lemma KnownStay(a: seq<Extension>, b: seq<Extension>, known: seq<Path>)
    requires SameExtensions(b, a) && AreKnown(a, known)
    ensures AreKnown(b, known)
  {
    SameMembers(b, a);
  }

  lemma FirstAreResolved(exts: seq<Extension>, order: seq<int>)
    requires ResolvedFirst(exts, order)
    ensures forall i, j :: 0 <= i < j < |exts| && exts[j].state == Resolved ==>
              exts[i].state == Resolved && Before(order, exts[i].id, exts[j].id)
  {
  }

  lemma SameItself(a: seq<Extension>)
    ensures SameExtensions(a, a)
  {
  }

  lemma SameTransitive(b: seq<Extension>, c: seq<Extension>)
    requires SameExtensions(b, c)
    ensures forall a :: SameExtensions(a, b) ==> SameExtensions(a, c)
  {
  }

  lemma SameMembers(a: seq<Extension>, b: seq<Extension>)
    requires SameExtensions(a, b)
    ensures |a| == |b| && forall i :: 0 <= i < |a| ==> a[i] in b
  {
    assert |multiset(a)| == |a| && |multiset(b)| == |b|;
    forall i | 0 <= i < |a|
      ensures a[i] in b
    {
      assert a[i] in multiset(b);
    }
  }

  lemma NothingReaches(exts: seq<Extension>, items: seq<Extension>, stages: nat, order: seq<int>)
    requires SameExtensions(exts, items) && items == []
    ensures Reached(exts, stages) && ResolvedFirst(exts, order)
  {
    assert |exts| == |multiset(exts)|;
  }

  lemma AllReachedIsSettled(exts: seq<Extension>)
    requires Reached(exts, 5)
    ensures forall i :: 0 <= i < |exts| ==> Settled(exts[i].Now())
  {
    assert forall i :: 0 <= i < |exts| ==> ReachedBy(Snapshots(exts)[i], 5);
  }

  /** The extensions to load come first, in the order in which the load order first names them. */
  ghost predicate ResolvedFirst(exts: seq<Extension>, order: seq<int>)
    reads exts
  {
    forall i, j :: 0 <= i < j < |exts| && exts[j].state == Resolved ==>
      exts[i].state == Resolved && Before(order, exts[i].id, exts[j].id)
  }

  /** What a resolution that succeeds makes of extensions that were all parsed. */
  lemma AfterResolution(items: seq<Extension>, was: seq<Snapshot>, result: seq<Extension>, policy: Policy,
                        order: seq<int>)
    requires |was| == |items| && AllReachedBy(was, 1) && SameExtensions(result, items) && NoDuplicates(items)
    requires InLoadOrder(result, Selected(items, was, policy, true), Selected(items, was, policy, false), order)
    requires forall i :: 0 <= i < |items| ==>
             items[i].id == was[i].id
             && ResolutionResult(was[i], items[i].Now(), policy, true, order)
    ensures Reached(result, 2) && ResolvedFirst(result, order)
  {
    hide InLoadOrder, Selected, SameExtensions, NoDuplicates, Before;
    var included, excluded := Selected(items, was, policy, true), Selected(items, was, policy, false);
    SelectedElements(items, was, policy, true);
    SelectedElements(items, was, policy, false);
    forall i | 0 <= i < |items|
      ensures ReachedBy(items[i].Now(), 2)
      ensures items[i] in included ==> items[i].state == if items[i].id in order then Resolved else Unresolved
      ensures items[i] in excluded ==> items[i].state != Resolved
    {
      ResolvedState(was[i], items[i].Now(), policy, order);
    }
    ResolvedComeFirst(result, included, excluded, order);
    SameMembers(result, items);
  }

  lemma ResolutionReaches(items: seq<Extension>, was: seq<Snapshot>, result: seq<Extension>, policy: Policy,
                          answer: Report, calls: Calls)
    requires |was| == |items| && AllReachedBy(was, 1) && SameExtensions(result, items) && NoDuplicates(items)
    requires InLoadOrder(result, Selected(items, was, policy, true), Selected(items, was, policy, false),
                         answer.loadOrder)
    requires forall i :: 0 <= i < |items| ==>
             items[i].id == was[i].id
             && ResolutionResult(was[i], items[i].Now(), policy, true, answer.loadOrder)
    requires Progress(was, 1, true, policy, answer, calls)
    ensures Reached(result, 2) && ResolvedFirst(result, answer.loadOrder)
    ensures Progress(Snapshots(result), 2, true, policy, answer, calls)
  {
    hide AllReachedBy, SameExtensions, NoDuplicates, InLoadOrder, Selected, ResolutionResult, Progress, ResolvedFirst;
    AfterResolution(items, was, result, policy, answer.loadOrder);
    AllParsed(was);
    FirstAreResolved(result, answer.loadOrder);
    ResolutionProgress(items, was, result, policy, answer, calls);
  }

  lemma ResolvedState(o: Snapshot, n: Snapshot, policy: Policy, order: seq<int>)
    requires ReachedBy(o, 1) && ResolutionResult(o, n, policy, true, order)
    ensures ReachedBy(n, 2)
    ensures Included(o, policy) ==> n.state == if n.id in order then Resolved else Unresolved
    ensures !Included(o, policy) ==> n.state != Resolved
  {
  }

  lemma EarlyIsSound(exts: seq<Extension>)
    requires Distinct(exts) && AllTraced(exts) && AllEarly(exts)
    requires forall i :: 0 <= i < |exts| ==> exts[i].provider == null && exts[i].languageModule == 0
    ensures Sound(exts)
  {
    EarlyListIsSound(exts, exts);
  }

  /** Parses one extension of a list. */
  method ParseAt(exts: seq<Extension>, i: nat) returns (ok: bool)
    requires i < |exts| && Distinct(exts) && AllTraced(exts) && AllEarly(exts) && exts[i].state == Discovered
    modifies exts[i]
    ensures AllTraced(exts) && AllEarly(exts)
    ensures ParsingResult(old(exts[i].Now()), exts[i].Now(), ok)
    ensures exts[i].provider == old(exts[i].provider) && exts[i].languageModule == old(exts[i].languageModule)
    ensures forall k :: 0 <= k < |exts| && k != i ==> unchanged(exts[k])
  {
    hide Extension.Traced, ParsingResult, IsEarly, Distinct;
    DifferFrom(exts, i);
    ok := ParseItem(exts[i]);
  }

  /** Parses all extensions that were discovered, as if one after the other. */
  method ExecuteParsing(exts: seq<Extension>) returns (stats: Stats)
    requires Sound(exts) && AllEarly(exts)
    modifies exts
    ensures Sound(exts) && AllEarly(exts)
    ensures ParsingStageOf.Results(old(Snapshots(exts)), Snapshots(exts), stats.failed)
    ensures stats.succeeded + stats.failed == ParsingStageOf.Work(old(Snapshots(exts))) && stats.errors == stats.failed
    ensures stats.itemsIn == stats.itemsOut == |exts|
    ensures stats.failed == 0 && old(Reached(exts, 0)) ==> Reached(exts, 1)
  {
    hide Extension.Traced, AllReachedBy, ParsingResult, Sound, IsEarly, Distinct, AllTraced, AllEarly, Stage.Counted,
         Stage.Results;
    ghost var was := Snapshots(exts);
    AllStillEarly(exts);
    SoundParts(exts);
    stats := Stats(|exts|, |exts|, 0, 0, 0);
    ParsingStageOf.CountedNone(was);
    ghost var done: seq<Snapshot> := [];
    for i := 0 to |exts|
      invariant AllTraced(exts) && AllEarly(exts)
      invariant forall k :: 0 <= k < |exts| ==> exts[k].provider == null && exts[k].languageModule == 0
      invariant |done| == i && ParsingStageOf.Counted(was, done, stats)
      invariant forall k :: 0 <= k < i ==> done[k] == exts[k].Now()
      invariant forall k :: i <= k < |exts| ==> exts[k].Now() == was[k]
    {
      ghost var before := stats;
      AnyOrNothing(ParsingStageOf, was[i]);
      var ok := true;
      if exts[i].state == Discovered {
        ok := ParseAt(exts, i);
        if ok {
          stats := stats.(succeeded := stats.succeeded + 1);
        } else {
          stats := stats.(failed := stats.failed + 1, errors := stats.errors + 1);
        }
      }
      ParsingStageOf.CountedOne(was, done, before, exts[i].Now(), ok, stats);
      done := done + [exts[i].Now()];
    }
    assert done == Snapshots(exts);
    ParsingStageOf.CountedAll(was, done, stats);
    EarlyIsSound(exts);
    if stats.failed == 0 && AllReachedBy(was, 0) {
      StageReaches(ParsingStageOf, 0, was, Snapshots(exts));
    }
  }

  // --- parsing on several threads ---------------------------------------------------------------------

  function IndexOf(s: seq<Snapshot>, x: Snapshot): (i: nat)
    requires x in s
    ensures i < |s| && s[i] == x
  {
    if s[0] == x then 0 else 1 + IndexOf(s[1..], x)
  }

  /** The stage on several threads whose results are the given ones; a failure reports the extension's id. */
  function ParsingTasks(was: seq<Snapshot>, done: seq<Snapshot>): TransformRuns.Stage<Snapshot, int>
    requires |done| == |was|
  {
    TransformRuns.Stage(s => ParsingStageOf.ShouldProcess(s), s => ParsedAs(was, done, s))
  }

  function ParsedAs(was: seq<Snapshot>, done: seq<Snapshot>, s: Snapshot): TransformRuns.Processed<Snapshot, int>
    requires |done| == |was|
  {
    var n := if s in was then done[IndexOf(was, s)] else s;
    TransformRuns.Processed(n, if n.state == Corrupted then TransformRuns.Error(s.id) else TransformRuns.NoError)
  }

  /** Parsing one after the other has the items and counts that the tasks have in order. */
  lemma {:induction false} ParsingInOrder(was: seq<Snapshot>, done: seq<Snapshot>, k: nat)
    requires |done| == |was| && k <= |was| && forall i, j :: 0 <= i < j < |was| ==> was[i] != was[j]
    requires forall i :: 0 <= i < |was| ==>
             ParsingResult(was[i], done[i], true)
             || ParsingResult(was[i], done[i], false)
    ensures TransformRuns.ItemsAfter(ParsingTasks(was, done), was[..k]) == done[..k]
    ensures |TransformRuns.Failures(ParsingTasks(was, done), was[..k])|
            == ParsingStageOf.FailureCount(was[..k], done[..k])
    ensures TransformRuns.Work(ParsingTasks(was, done), was[..k]) == ParsingStageOf.Work(was[..k])
  {
    hide *;
    if k == 0 {
      NothingParsed(was, done);
    } else {
      ParsingInOrder(was, done, k - 1);
      OneParsed(was, done, k - 1);
      ParsedNext(was, done, k - 1);
    }
  }

  lemma NothingParsed(was: seq<Snapshot>, done: seq<Snapshot>)
    requires |done| == |was|
    ensures TransformRuns.ItemsAfter(ParsingTasks(was, done), was[..0]) == done[..0]
    ensures |TransformRuns.Failures(ParsingTasks(was, done), was[..0])|
            == ParsingStageOf.FailureCount(was[..0], done[..0])
    ensures TransformRuns.Work(ParsingTasks(was, done), was[..0]) == ParsingStageOf.Work(was[..0])
  {
  }

  lemma ParsedNext(was: seq<Snapshot>, done: seq<Snapshot>, i: nat)
    requires |done| == |was| && i < |was|
    requires var stage := ParsingTasks(was, done);
             && TransformRuns.ItemsAfter(stage, was[..i]) == done[..i] && stage.After(was[i]) == done[i]
             && |TransformRuns.Failures(stage, was[..i])| == ParsingStageOf.FailureCount(was[..i], done[..i])
             && TransformRuns.Work(stage, was[..i]) == ParsingStageOf.Work(was[..i])
             && (stage.shouldProcess(was[i]) <==> ParsingStageOf.ShouldProcess(was[i]))
             && (stage.Fails(was[i]) <==> ParsingStageOf.Fails(was[i], done[i]))
    ensures TransformRuns.ItemsAfter(ParsingTasks(was, done), was[..i + 1]) == done[..i + 1]
    ensures |TransformRuns.Failures(ParsingTasks(was, done), was[..i + 1])|
            == ParsingStageOf.FailureCount(was[..i + 1], done[..i + 1])
    ensures TransformRuns.Work(ParsingTasks(was, done), was[..i + 1]) == ParsingStageOf.Work(was[..i + 1])
  {
    hide *;
    TransformRuns.OneMoreItem(ParsingTasks(was, done), was[..i + 1]);
    assert was[..i + 1][..i] == was[..i];
    ParsingStageOf.OneMoreItem(was, done[..i], done[i]);
    assert done[..i + 1] == done[..i] + [done[i]];
  }

  lemma OneParsed(was: seq<Snapshot>, done: seq<Snapshot>, i: nat)
    requires |done| == |was| && i < |was| && forall i, j :: 0 <= i < j < |was| ==> was[i] != was[j]
    requires ParsingResult(was[i], done[i], true) || ParsingResult(was[i], done[i], false)
    ensures var stage := ParsingTasks(was, done);
            && stage.After(was[i]) == done[i]
            && (stage.shouldProcess(was[i]) <==> ParsingStageOf.ShouldProcess(was[i]))
            && (stage.Fails(was[i]) <==> ParsingStageOf.Fails(was[i], done[i]))
  {
    assert was[i] in was && IndexOf(was, was[i]) == i;
  }

  /**
   * However the steps of the tasks interleave: a complete run that parses the extensions with the same results
   * leaves the same extensions and counts as parsing them one after the other.
   */
  lemma ParsingInterleaved(was: seq<Snapshot>, done: seq<Snapshot>, stats: Stats, schedule: seq<nat>,
                           n: TransformRuns.State<Snapshot, int>)
    requires ParsingStageOf.Results(was, done, stats.failed)
             && stats.succeeded + stats.failed == ParsingStageOf.Work(was)
    requires stats.errors == stats.failed && forall i, j :: 0 <= i < j < |was| ==> was[i].id != was[j].id
    requires TransformRuns.IsRun(ParsingTasks(was, done), TransformRuns.Start(was), schedule, n)
             && TransformRuns.AllFinished(n)
    ensures n.items == done && n.succeeded == stats.succeeded && n.failed == stats.failed && |n.errors| == stats.errors
  {
    hide TransformRuns.IsRun, TransformRuns.AllFinished, ParsingTasks, Stage.FailureCount, TransformRuns.Failures;
    TransformRuns.EveryCompleteRun(ParsingTasks(was, done), was, schedule, n);
    ParsingInOrder(was, done, |was|);
    assert was[..|was|] == was && done[..|was|] == done;
  }

  /** A path that was found, what its ending says, and what is there. */
  datatype Path = Path(kind: ExtensionType, name: string, file: File)

  /** The paths of modules and plugins. */
  function Known(found: seq<Path>): (known: seq<Path>)
    ensures |known| <= |found|
  {
    if found == [] then [] else
      var last := found[|found| - 1];
      Known(found[..|found| - 1]) + if last.kind == UnknownType then [] else [last]
  }

  lemma KnownOneMore(found: seq<Path>, i: nat)
    requires i < |found|
    ensures Known(found[..i + 1]) == Known(found[..i]) + if found[i].kind == UnknownType then [] else [found[i]]
  {
    assert found[..i + 1][..i] == found[..i];
  }

  /** An extension as it is when it was discovered. */
  function DiscoveredAs(id: nat, path: Path): Snapshot {
    Snapshot(id, path.kind, path.file, Discovered, ManifestData(path.name, "", []), 0, NO_METHODS)
  }

  /** The extensions are those whose paths were found, each with its place among them as its id. */
  ghost predicate AreKnown(exts: seq<Extension>, known: seq<Path>) {
    |exts| == |known| && forall e :: e in exts ==>
      0 <= e.id < |known| && e.kind == known[e.id].kind && e.file == known[e.id].file
  }

  /** Gives the extensions their ids, in the order of their paths. */
  method DiscoverExtensions(found: seq<Path>) returns (exts: seq<Extension>)
    ensures Sound(exts) && fresh(exts) && Reached(exts, 0)
    ensures |exts| == |Known(found)|
            && forall i :: 0 <= i < |exts| ==> exts[i].Now() == DiscoveredAs(i, Known(found)[i])
    ensures AreKnown(exts, Known(found))
  {
    hide Extension.Traced, Known;
    exts := [];
    assert found[..0] == [] && Known([]) == [];
    for i := 0 to |found|
      invariant |exts| == |Known(found[..i])|
      invariant forall k :: 0 <= k < |exts| ==> fresh(exts[k]) && exts[k].Now() == DiscoveredAs(k, Known(found[..i])[k])
      invariant forall k :: 0 <= k < |exts| ==> exts[k].Traced() && exts[k].provider == null
    {
      KnownOneMore(found, i);
      if found[i].kind != UnknownType {
        var ext := new Extension(|exts|, found[i].kind, found[i].file, found[i].name);
        exts := exts + [ext];
      }
    }
    assert found[..|found|] == found;
    forall i | 0 <= i < |exts|
      ensures exts[i].id == i && exts[i].state == Discovered && exts[i].languageModule == 0
      ensures exts[i].kind == Known(found)[i].kind && exts[i].file == Known(found)[i].file
    {
      assert exts[i].Now() == DiscoveredAs(i, Known(found)[i]);
    }
    EarlyListIsSound(exts, exts);
  }

  /** What is true of every extension once the manager is initialized. */
  predicate Settled(s: Snapshot) {
    s.state == Running || s.state == Disabled || s.state == Unresolved
  }

  /** The number of failures that all stages have counted. */
  function TotalFailed(report: seq<Stats>): (n: nat)
    ensures n == 0 <==> forall i :: 0 <= i < |report| ==> report[i].failed == 0
  {
    if report == [] then 0 else TotalFailed(report[..|report| - 1]) + report[|report| - 1].failed
  }

  /** The report of the stages that were run: all five, or up to the first one with a failure. */
  predicate IsReport(report: seq<Stats>) {
    && 0 < |report| <= 5
    && (forall k :: 0 <= k < |report| - 1 ==> report[k].failed == 0)
    && (|report| < 5 ==> report[|report| - 1].failed > 0)
  }

  /** The report while no stage has counted a failure yet. */
  predicate ReportSoFar(report: seq<Stats>, stages: nat) {
    TotalFailed(report) == 0 && |report| == stages && forall k :: 0 <= k < stages ==> report[k].failed == 0
  }

  lemma NoneFailed()
    ensures ReportSoFar([], 0)
  {
  }

  lemma OneMoreStage(report: seq<Stats>, stages: nat, stats: Stats)
    requires ReportSoFar(report, stages) && stages < 5
    ensures TotalFailed(report + [stats]) == stats.failed && |report + [stats]| == stages + 1
    ensures stats.failed == 0 ==> ReportSoFar(report + [stats], stages + 1)
    ensures stats.failed > 0 ==> IsReport(report + [stats])
  {
    assert (report + [stats])[..|report|] == report;
  }

  lemma FullReport(report: seq<Stats>)
    requires ReportSoFar(report, 5)
    ensures IsReport(report) && TotalFailed(report) == 0
  {
  }

  lemma CompleteReport(report: seq<Stats>)
    requires IsReport(report) && TotalFailed(report) == 0
    ensures |report| == 5
  {
  }

  lemma SettledStates(exts: seq<Extension>)
    requires forall i :: 0 <= i < |exts| ==> Settled(exts[i].Now())
    ensures forall i :: 0 <= i < |exts| ==> exts[i].state == Running || Excluded(exts[i].Now())
  {
    assert forall i :: 0 <= i < |exts| ==> exts[i].Now().state == exts[i].state;
  }

  // --- the calls that terminating makes ---------------------------------------------------------------

  /** The call that ends one extension, if there is one to make. */
  function EndOf(s: Snapshot): seq<Event> {
    if s.state == Running && s.kind == Plugin && s.table.hasEnd then [Event(OnPluginEnd, s.languageModule, s.id)]
        else []
  }

  /** A plugin in front of the i-th extension has the same language module. */
  predicate HeldInFront(s: seq<Snapshot>, i: nat)
    requires i < |s|
  {
    exists k :: 0 <= k < i && s[k].kind == Plugin && s[k].languageModule == s[i].languageModule
  }

  /** The call that shuts down a module, if there is one to make, and whether its address is still held. */
  function ShutdownOf(s: Snapshot, held: bool): seq<Event> {
    if (s.state == Running || s.state == Ended) && s.kind == Module && s.languageModule != 0
    then [ShutdownEvent(s.languageModule, s.id, held)]
    else []
  }

  function UpdateOf(s: Snapshot): seq<Event> {
    if s.state != Running || !s.table.hasUpdate then []
    else if s.kind == Module then [Event(OnUpdate, s.languageModule, s.id)]
    else if s.kind == Plugin then [Event(OnPluginUpdate, s.languageModule, s.id)]
    else []
  }

  /** The calls for the extensions from i on, the last extension first. */
  function Ends(s: seq<Snapshot>, i: nat): seq<Event>
    requires i <= |s|
    decreases |s| - i
  {
    if i == |s| then [] else Ends(s, i + 1) + EndOf(s[i])
  }

  function Shutdowns(s: seq<Snapshot>, i: nat): seq<Event>
    requires i <= |s|
    decreases |s| - i
  {
    if i == |s| then [] else Shutdowns(s, i + 1) + ShutdownOf(s[i], HeldInFront(s, i))
  }

  /** The calls for the first i extensions, the first extension first. */
  function Updates(s: seq<Snapshot>, i: nat): seq<Event>
    requires i <= |s|
  {
    if i == 0 then [] else Updates(s, i - 1) + UpdateOf(s[i - 1])
  }

  lemma UpdatesStep(s: seq<Snapshot>, i: nat)
    requires i <= |s|
    ensures Updates(s, i) == if i == 0 then [] else Updates(s, i - 1) + UpdateOf(s[i - 1])
  {
  }

  lemma EndsStep(s: seq<Snapshot>, i: nat)
    requires i <= |s|
    ensures Ends(s, i) == if i == |s| then [] else Ends(s, i + 1) + EndOf(s[i])
  {
  }

  lemma ShutdownsStep(s: seq<Snapshot>, i: nat)
    requires i <= |s|
    ensures Shutdowns(s, i) == if i == |s| then [] else Shutdowns(s, i + 1) + ShutdownOf(s[i], HeldInFront(s, i))
  {
  }

  function EndedOf(s: Snapshot): Snapshot {
    if s.state == Running then s.(state := Ended) else s
  }

  function UnloadedOf(s: Snapshot): Snapshot {
    if s.state != Ended then s
    else if s.kind == Plugin then s.(state := Terminated, languageModule := 0, table := NO_METHODS)
    else s.(state := Terminated, languageModule := 0)
  }

  lemma EndedFacts(s: Snapshot)
    requires Settled(s)
    ensures EndedOf(s).state == if s.state == Running then Ended else s.state
    ensures EndedOf(s).state == Ended || EndedOf(s).state == Disabled || EndedOf(s).state == Unresolved
  {
  }

  lemma UnloadedFacts(s: Snapshot)
    requires s.state == Ended || ((s.state == Disabled || s.state == Unresolved) && s.languageModule == 0)
    ensures UnloadedOf(s).languageModule == 0
    ensures UnloadedOf(s).state == if s.state == Ended then Terminated else s.state
  {
  }

  /** Ending changes none of the calls that unloading makes. */
  lemma {:induction false} SameShutdowns(was: seq<Snapshot>, ended: seq<Snapshot>, i: nat)
    requires |was| == |ended| && i <= |was| && forall k :: 0 <= k < |was| ==> ended[k] == EndedOf(was[k])
    ensures Shutdowns(ended, i) == Shutdowns(was, i)
    decreases |was| - i
  {
    if i < |was| {
      SameShutdowns(was, ended, i + 1);
      assert forall k :: 0 <= k < |was| ==>
             ended[k].kind == was[k].kind
             && ended[k].languageModule == was[k].languageModule;
      assert HeldInFront(ended, i) <==> HeldInFront(was, i);
    }
  }

  /** The calls that end extensions, one list for each of them, the last extension first. */
  lemma {:induction false} EndsAre(s: seq<Snapshot>, i: nat) returns (calls: seq<seq<Event>>)
    requires i <= |s|
    ensures |calls| == |s| - i && Flatten(calls) == Ends(s, i)
    ensures forall k :: i <= k < |s| ==>
              calls[|s| - 1 - k] == if s[k].state == Running && s[k].kind == Plugin && s[k].table.hasEnd
                                    then [Event(OnPluginEnd, s[k].languageModule, s[k].id)] else []
    decreases |s| - i
  {
    if i == |s| {
      calls := [];
    } else {
      var rest := EndsAre(s, i + 1);
      FlattenAppend(rest, EndOf(s[i]));
      calls := rest + [EndOf(s[i])];
    }
  }

  lemma {:induction false} ShutdownsAre(s: seq<Snapshot>, i: nat) returns (calls: seq<seq<Event>>)
    requires i <= |s|
    requires forall k :: 0 <= k < |s| ==> Settled(s[k])
    ensures |calls| == |s| - i && Flatten(calls) == Shutdowns(s, i)
    ensures forall k :: i <= k < |s| ==>
              calls[|s| - 1 - k] ==
              if s[k].state == Running && s[k].kind == Module && s[k].languageModule != 0
              then [ShutdownEvent(s[k].languageModule, s[k].id,
                      exists j :: 0 <= j < k && s[j].kind == Plugin && s[j].languageModule == s[k].languageModule)]
              else []
    decreases |s| - i
  {
    if i == |s| {
      calls := [];
    } else {
      var rest := ShutdownsAre(s, i + 1);
      FlattenAppend(rest, ShutdownOf(s[i], HeldInFront(s, i)));
      calls := rest + [ShutdownOf(s[i], HeldInFront(s, i))];
    }
  }

  /** The calls that update extensions, one list for each of them. */
  lemma {:induction false} UpdatesAre(s: seq<Snapshot>, i: nat) returns (calls: seq<seq<Event>>)
    requires i <= |s|
    ensures |calls| == i && Flatten(calls) == Updates(s, i)
    ensures forall k :: 0 <= k < i ==>
              calls[k] == if s[k].state != Running || !s[k].table.hasUpdate || s[k].kind == UnknownType then []
                          else [Event(if s[k].kind == Module then OnUpdate else OnPluginUpdate, s[k].languageModule,
                                      s[k].id)]
  {
    if i == 0 {
      calls := [];
    } else {
      var rest := UpdatesAre(s, i - 1);
      FlattenAppend(rest, UpdateOf(s[i - 1]));
      calls := rest + [UpdateOf(s[i - 1])];
    }
  }

  /** All calls that end plugins come before all calls that shut modules down. */
  lemma {:induction false} EndsThenShutdowns(s: seq<Snapshot>, i: nat)
    requires i <= |s|
    ensures forall e :: e in Ends(s, i) ==> e.Event? && e.callback == OnPluginEnd
    ensures forall e :: e in Shutdowns(s, i) ==> e.ShutdownEvent?
    decreases |s| - i
  {
    if i < |s| {
      EndsThenShutdowns(s, i + 1);
    }
  }

  /** The extensions that others refer to are in front of those. */
  ghost predicate RefersForward(exts: seq<Extension>, providers: seq<Extension?>) {
    && |providers| == |exts|
    && forall k :: 0 <= k < |exts| && providers[k] != null ==> exists j :: 0 <= j < k && exts[j] == providers[k]
  }

  /** When the extensions behind the i-th are unloaded, its address is held only in front of it. */
  lemma HeldOnlyInFront(exts: seq<Extension>, was: seq<Snapshot>, i: nat)
    requires i < |exts| == |was| && was[i].kind == Module && was[i].languageModule != 0
    requires forall k :: 0 <= k <= i ==> exts[k].Now() == was[k]
    requires forall k :: i < k < |exts| ==> exts[k].languageModule == 0
    ensures IsHeld(exts, was[i].languageModule) <==> HeldInFront(was, i)
  {
    assert forall k :: 0 <= k <= i ==>
           exts[k].Now().kind == was[k].kind
           && exts[k].Now().languageModule == was[k].languageModule;
  }

  lemma ProvidersRefer(exts: seq<Extension>, providers: seq<Extension?>)
    requires AllProvidedBefore(exts) && |providers| == |exts| && forall k :: 0 <= k < |exts| ==>
             providers[k] == exts[k].provider
    ensures RefersForward(exts, providers)
  {
    forall k | 0 <= k < |exts| && providers[k] != null
      ensures exists j :: 0 <= j < k && exts[j] == providers[k]
    {
      assert ProvidedBefore(exts, k);
      var j :| LastProvider(exts[..k], exts[k].manifest.language, j) && exts[..k][j] == exts[k].provider;
      assert exts[j] == providers[k];
    }
  }

  /** When only extensions in front of the i-th still refer to others, none refers to the i-th. */
  lemma NobodyRefersTo(exts: seq<Extension>, providers: seq<Extension?>, i: nat)
    requires i < |exts| && Distinct(exts) && RefersForward(exts, providers)
    requires forall k :: 0 <= k <= i ==> exts[k].provider == providers[k]
    requires forall k :: i < k < |exts| ==> exts[k].provider == null
    ensures forall e :: e in exts ==> e.provider != exts[i]
  {
    forall k | 0 <= k < |exts|
      ensures exts[k].provider != exts[i]
    {
      if k <= i && providers[k] != null {
        var j :| 0 <= j < k && exts[j] == providers[k];
        assert exts[j] != exts[i];
      }
    }
  }

  lemma SoundParts(exts: seq<Extension>)
    requires Sound(exts)
    ensures Distinct(exts) && AllTraced(exts) && AllProvidedBefore(exts)
    ensures forall i :: 0 <= i < |exts| ==>
              && (exts[i].kind != Plugin || IsEarly(exts[i].state) ==> exts[i].provider == null)
              && (IsEarly(exts[i].state) ==> exts[i].languageModule == 0)
              && (NeedsModule(exts[i].state) ==> exts[i].kind != UnknownType)
  {
    forall i | 0 <= i < |exts|
      ensures exts[i].kind != Plugin ==> exts[i].provider == null
    {
      assert ProvidedBefore(exts, i);
    }
    assert forall i :: 0 <= i < |exts| ==> Backed(exts[i]);
  }

  lemma SoundBacked(exts: seq<Extension>)
    requires Sound(exts)
    ensures forall i :: 0 <= i < |exts| ==> Backed(exts[i])
  {
  }

  lemma DifferFrom(exts: seq<Extension>, i: nat)
    requires i < |exts| && Distinct(exts)
    ensures forall k :: 0 <= k < |exts| && k != i ==> exts[k] != exts[i]
  {
  }

  lemma EarlyOrEnded()
    ensures IsEarly(Disabled) && IsEarly(Unresolved) && NeedsModule(Ended)
  {
  }

  /** The extensions from i on are ended, and those in front of it are as they were. */
  ghost predicate EndedFrom(exts: seq<Extension>, was: seq<Snapshot>, i: nat)
    reads exts
  {
    && i <= |exts| == |was| && Sound(exts)
    && (forall k :: i <= k < |exts| ==> exts[k].Now() == EndedOf(was[k]))
    && (forall k :: 0 <= k < i ==> exts[k].Now() == was[k])
  }

  /** The extensions from i on are unloaded, and those in front of it are as they were. */
  ghost predicate UnloadedFrom(exts: seq<Extension>, providers: seq<Extension?>, was: seq<Snapshot>, i: nat)
    reads exts
  {
    && i <= |exts| == |providers| == |was| && AllTraced(exts)
    && (forall k :: i <= k < |exts| ==>
          exts[k].Now() == UnloadedOf(was[k]) && exts[k].provider == null && exts[k].languageModule == 0)
    && (forall k :: 0 <= k < i ==> exts[k].Now() == was[k] && exts[k].provider == providers[k])
  }

  /** What ending leaves to be unloaded. */
  ghost predicate CanUnload(s: Snapshot, provider: Extension?) {
    && (s.state == Ended || ((s.state == Disabled || s.state == Unresolved) && s.languageModule == 0))
    && (s.state == Ended ==> s.kind != UnknownType)
    && (s.state != Ended || s.kind != Plugin ==> provider == null)
  }

  lemma NothingUnloaded(exts: seq<Extension>, providers: seq<Extension?>, was: seq<Snapshot>)
    requires Sound(exts) && was == Snapshots(exts)
    requires |providers| == |exts| && forall k :: 0 <= k < |exts| ==> providers[k] == exts[k].provider
    requires forall k :: 0 <= k < |exts| ==>
             exts[k].state == Ended || exts[k].state == Disabled
             || exts[k].state == Unresolved
    ensures UnloadedFrom(exts, providers, was, |exts|) && forall k :: 0 <= k < |exts| ==>
            CanUnload(was[k], providers[k])
  {
    SoundParts(exts);
    EarlyOrEnded();
    forall k | 0 <= k < |exts|
      ensures CanUnload(was[k], providers[k])
    {
      assert exts[k].Now() == was[k];
    }
  }

  lemma AllUnloaded(exts: seq<Extension>, providers: seq<Extension?>, was: seq<Snapshot>)
    requires Distinct(exts) && UnloadedFrom(exts, providers, was, 0)
    requires forall k :: 0 <= k < |exts| ==> CanUnload(was[k], providers[k])
    ensures Sound(exts) && forall k :: 0 <= k < |exts| ==> exts[k].Now() == UnloadedOf(was[k])
  {
    forall i | 0 <= i < |exts|
      ensures exts[i].state == Terminated || exts[i].state == Disabled || exts[i].state == Unresolved
    {
      UnloadedFacts(was[i]);
    }
    UnloadedIsSound(exts);
  }

  lemma UnloadedIsSound(exts: seq<Extension>)
    requires Distinct(exts) && AllTraced(exts)
    requires forall i :: 0 <= i < |exts| ==> exts[i].provider == null && exts[i].languageModule == 0
    requires forall i :: 0 <= i < |exts| ==>
               exts[i].state == Terminated || exts[i].state == Disabled || exts[i].state == Unresolved
    ensures Sound(exts)
  {
  }

  ghost predicate EachTraced(exts: set<Extension>)
    reads exts`state, exts`history
  {
    forall e :: e in exts ==> e.Traced()
  }

  lemma MoreTraced(others: set<Extension>, exts: seq<Extension>)
    requires EachTraced(others) && AllTraced(exts)
    ensures EachTraced(others + Elements(exts))
  {
  }

  /** What terminating makes of an extension. */
  lemma Terminates(s: Snapshot)
    requires Settled(s)
    ensures UnloadedOf(EndedOf(s)) == if s.state != Running then s
                                      else s.(state := Terminated, languageModule := 0,
                                              table := if s.kind == Plugin then NO_METHODS else s.table)
  {
  }

  // --- the manager ------------------------------------------------------------------------------------

  datatype ManagerError = AlreadyInitialized | StagesFailed(failed: nat)

  class Manager {
    const modules: LanguageModules
    const loader: ExtensionLoader
    const policy: Policy
    var extensions: seq<Extension>
    var loadOrder: seq<int>
    var initialized: bool
    /** All extensions that were ever discovered. */
    ghost var created: set<Extension>

    constructor (policy: Policy)
      ensures Valid() && !initialized && this.policy == policy && fresh(modules) && modules.log == []
              && extensions == [] && created == {}
    {
      var languageModules := new LanguageModules();
      modules := languageModules;
      loader := new ExtensionLoader(languageModules);
      this.policy := policy;
      extensions, loadOrder, initialized, created := [], [], false, {};
    }

    ghost predicate Valid()
      reads this, extensions, created
    {
      && loader.modules == modules
      && (forall i :: 0 <= i < |extensions| ==> extensions[i] in created)
      && EachTraced(created)
      && Sound(extensions)
      && (initialized ==> forall i :: 0 <= i < |extensions| ==> Settled(extensions[i].Now()))
    }

    /**
     * Discovers extensions and takes all of them through the stages. It fails exactly if a stage has
     * counted a failure; the stages after that one are not run. If it does not fail, what is running is what
     * the policy and the resolver want, and every callback that there is has been called once and accepted.
     */
    method Initialize(found: seq<Path>, answer: Report)
        returns (r: Outcome<ManagerError>, ghost report: seq<Stats>, ghost calls: Calls)
      requires Valid()
      modifies this, modules
      ensures Valid()
      ensures old(initialized) ==> r == Fail(AlreadyInitialized) && extensions == old(extensions) && initialized
                                   && modules.log == old(modules.log) && created == old(created)
      ensures !old(initialized) ==>
                && r == (if TotalFailed(report) == 0 then Pass else Fail(StagesFailed(TotalFailed(report))))
                && IsReport(report) && (initialized <==> r.Pass?)
                && fresh(extensions) && created == old(created) + Elements(extensions)
      ensures r.Pass? ==> forall i :: 0 <= i < |extensions| ==> Settled(extensions[i].Now())
      ensures !old(initialized) ==> AreKnown(extensions, Known(found))
      ensures !old(initialized) ==>
                && modules.log == old(modules.log) + calls.All()
                && Progress(Snapshots(extensions), |report|, r.Pass?, policy, answer, calls)
      ensures r.Pass? ==>
                && |calls.loads| == |calls.exports| == |calls.starts| == |extensions|
                && (forall a, b :: 0 <= a < b < |calls.running| ==> calls.running[a] < calls.running[b])
                && (forall k :: 0 <= k < |calls.running| ==> calls.running[k] < |extensions|)
                && (forall i :: 0 <= i < |extensions| ==>
                      (i in calls.running <==> extensions[i].kind == Module && extensions[i].state == Running))
      ensures r.Pass? ==> forall i :: 0 <= i < |extensions| ==>
                var n := extensions[i].Now();
                var name, platforms := n.manifest.name, n.manifest.platforms;
                && n.file.manifest == Some(n.manifest)
                && n.state == if || (policy.whitelist != {} && name !in policy.whitelist) || name in policy.blacklist
                                 || (platforms != [] && policy.platform !in platforms)
                              then Disabled
                              else if n.id !in answer.loadOrder then Unresolved
                              else Running
      ensures r.Pass? ==> forall i, j :: 0 <= i < j < |extensions| && extensions[j].state == Running ==>
                extensions[i].state == Running && Before(answer.loadOrder, extensions[i].id, extensions[j].id)
      ensures r.Pass? ==> forall i :: 0 <= i < |extensions| ==>
                var n := extensions[i].Now();
                if n.state != Running then calls.loads[i] == calls.exports[i] == calls.starts[i] == []
                else
                  && calls.loads[i] == [AnsweredEvent(if n.kind == Module then OnInitialize else OnPluginLoad,
                                                      n.languageModule, n.id, LoadedWith(n.table))]
                  && (if n.kind == Module then n.languageModule == n.file.languageModule
                      else exists j :: LastProvider(extensions[..i], n.manifest.language, j)
                             && extensions[j].languageModule == n.languageModule)
                  && (if n.kind != Plugin || !n.table.hasExport then calls.exports[i] == []
                      else |calls.exports[i]| == |calls.running| && forall k :: 0 <= k < |calls.running| ==>
                             calls.exports[i][k] == AnsweredEvent(OnMethodExport,
                               extensions[calls.running[k]].languageModule, n.id, Accepted))
                  && calls.starts[i] == if n.kind != Plugin || !n.table.hasStart then []
                                        else [AnsweredEvent(OnPluginStart, n.languageModule, n.id, Accepted)]
    {
      hide Sound, TotalFailed, IsReport, Settled, Extension.Traced, Progress, AreKnown, LastProvider, Before,
           EachTraced, Calls.All, Elements, Snapshots;
      report, calls := [], Calls([], [], [], []);
      if initialized {
        return Fail(AlreadyInitialized), report, calls;
      }
      var stages;
      stages, calls := DiscoverAndRun(found, answer);
      report := stages;
      if TotalFailed(stages) > 0 {
        return Fail(StagesFailed(TotalFailed(stages))), report, calls;
      }
      initialized := true;
      r := Pass;
      CompleteReport(stages);
      SettledStates(extensions);
      StatesAre(extensions, policy, answer, calls);
      CallsAre(extensions, true, policy, answer, calls);
    }

    method DiscoverAndRun(found: seq<Path>, answer: Report) returns (stages: seq<Stats>, ghost calls: Calls)
      requires Valid() && !initialized
      modifies this`extensions, this`loadOrder, this`created, modules
      ensures Valid() && IsReport(stages)
      ensures fresh(extensions) && created == old(created) + Elements(extensions)
      ensures TotalFailed(stages) == 0 ==> forall i :: 0 <= i < |extensions| ==> Settled(extensions[i].Now())
      ensures AreKnown(extensions, Known(found)) && modules.log == old(modules.log) + calls.All()
      ensures Progress(Snapshots(extensions), |stages|, TotalFailed(stages) == 0, policy, answer, calls)
    {
      hide Sound, AllReachedBy, TotalFailed, IsReport, SameExtensions, Settled, Extension.Traced, AllTraced, EachTraced,
           Elements, Progress, Known, Calls.All, AreKnown, DiscoveredAs, Reached, Snapshots;
      ghost var before := created;
      var discovered := DiscoverExtensions(found);
      extensions := discovered;
      stages, calls := ExecuteStages(answer);
      assert EachTraced(before);
      SoundParts(extensions);
      MoreTraced(before, extensions);
      created := before + Elements(extensions);
      KnownStay(discovered, extensions, Known(found));
      if TotalFailed(stages) == 0 {
        AllReachedIsSettled(extensions);
      }
    }

    /** Runs one stage after the other, up to the first that counts a failure. */
    method ExecuteStages(answer: Report) returns (report: seq<Stats>, ghost calls: Calls)
      requires Sound(extensions) && Reached(extensions, 0) && loader.modules == modules
      modifies this`extensions, this`loadOrder, extensions, modules
      ensures Sound(extensions) && SameExtensions(extensions, old(extensions))
      ensures forall i :: 0 <= i < |extensions| ==> extensions[i] in old(extensions)
      ensures IsReport(report)
      ensures TotalFailed(report) == 0 ==> Reached(extensions, 5)
      ensures modules.log == old(modules.log) + calls.All()
      ensures Progress(Snapshots(extensions), |report|, TotalFailed(report) == 0, policy, answer, calls)
    {
      hide Sound, AllReachedBy, TotalFailed, SameExtensions, IsReport, ReportSoFar, Progress, Calls.All;
      hide Snapshots;
      report, calls := [], Calls([], [], [], []);
      NoneFailed();
      NoProgress(Snapshots(extensions), policy, answer);
      SameItself(extensions);
      var tracker := new FailureTracker();
      var depGraph: Graph, reverseDepGraph: Graph := map[], map[];
      for stage := 0 to 5
        invariant Sound(extensions) && Reached(extensions, stage) && SameExtensions(extensions, old(extensions))
        invariant forall i :: 0 <= i < |extensions| ==> extensions[i] in old(extensions)
        invariant ReportSoFar(report, stage)
        invariant Progress(Snapshots(extensions), stage, true, policy, answer, calls)
        invariant modules.log == old(modules.log) + calls.All()
        invariant tracker.failed == {}
        invariant stage >= 2 && extensions != [] ==>
                    depGraph == answer.depGraph && reverseDepGraph == answer.reverseDepGraph
      {
        SameTransitive(extensions, old(extensions));
        var stats: Stats;
        stats, depGraph, reverseDepGraph, calls :=
          ExecuteStage(stage, tracker, depGraph, reverseDepGraph, answer, calls, old(modules.log));
        OneMoreStage(report, stage, stats);
        report := report + [stats];
        if stats.failed > 0 {
          return;
        }
      }
      FullReport(report);
    }

    method ExecuteStage(stage: nat, tracker: FailureTracker, depGraph: Graph, reverseDepGraph: Graph, answer: Report,
                        ghost calls: Calls, ghost log: seq<Event>)
      returns (stats: Stats, newDepGraph: Graph, newReverseDepGraph: Graph, ghost newCalls: Calls)
      requires stage < 5 && Sound(extensions) && Reached(extensions, stage) && loader.modules == modules
      requires Progress(Snapshots(extensions), stage, true, policy, answer, calls) && modules.log == log + calls.All()
      requires {} == tracker.failed
      requires stage >= 2 && extensions != [] ==>
                 depGraph == answer.depGraph && reverseDepGraph == answer.reverseDepGraph
      modifies this`extensions, this`loadOrder, extensions, tracker, modules
      ensures Sound(extensions) && SameExtensions(extensions, old(extensions))
      ensures forall i :: 0 <= i < |extensions| ==> extensions[i] in old(extensions)
      ensures stats.failed == 0 ==> Reached(extensions, stage + 1)
      ensures Progress(Snapshots(extensions), stage + 1, stats.failed == 0, policy, answer, newCalls)
      ensures modules.log == log + newCalls.All()
      ensures stats.failed == 0 ==> {} == tracker.failed
      ensures stats.failed == 0 && stage >= 1 && extensions != [] ==>
                newDepGraph == answer.depGraph && newReverseDepGraph == answer.reverseDepGraph
    {
      hide Sound, AllReachedBy, ResolvedFirst, SameExtensions, Progress, Calls.All, Stage.Results, IsEarly;
      SameItself(extensions);
      newDepGraph, newReverseDepGraph, newCalls := depGraph, reverseDepGraph, calls;
      if stage == 0 {
        ghost var was := Snapshots(extensions);
        ReachedEarly(extensions, 0);
        AllDiscovered(was);
        stats := ExecuteParsing(extensions);
        ParsingProgress(was, Snapshots(extensions), stats.failed, policy, answer, calls);
      } else if stage == 1 {
        ReachedEarly(extensions, 1);
        stats, newDepGraph, newReverseDepGraph := ExecuteResolution(answer, calls);
      } else {
        var failures := new Failures(tracker, depGraph, reverseDepGraph);
        stats, newCalls := ExecuteSequential(stage, failures, answer, calls, log);
      }
    }

    /** The stage that rearranges the extensions; all of them count as failed if it does not succeed. */
    method ExecuteResolution(answer: Report, ghost calls: Calls)
        returns (stats: Stats, depGraph: Graph, reverseDepGraph: Graph)
      requires Sound(extensions) && AllEarly(extensions)
      requires Progress(Snapshots(extensions), 1, true, policy, answer, calls)
      modifies this`extensions, this`loadOrder, extensions
      ensures Sound(extensions) && SameExtensions(extensions, old(extensions))
      ensures forall i :: 0 <= i < |extensions| ==> extensions[i] in old(extensions)
      ensures stats.itemsIn == stats.itemsOut == |extensions| == |old(extensions)|
      ensures stats == Stats(|extensions|, |extensions|, |extensions|, 0, 0)
              || stats == Stats(|extensions|, |extensions|, 0, |extensions|, 1)
      ensures if stats.errors == 1 then loadOrder == old(loadOrder) else loadOrder == answer.loadOrder
      ensures stats.errors == 0 ==> depGraph == answer.depGraph && reverseDepGraph == answer.reverseDepGraph
      ensures stats.failed == 0 && extensions != [] ==> stats.errors == 0
      ensures stats.failed == 0 && old(Reached(extensions, 1)) ==>
              Reached(extensions, 2)
              && ResolvedFirst(extensions, loadOrder)
      ensures old(Reached(extensions, 1)) ==>
                Progress(Snapshots(extensions), 2, stats.failed == 0, policy, answer, calls)
    {
      hide Sound, InLoadOrder, Selected, ResolutionResult, AllReachedBy, ResolvedFirst, SameExtensions, Progress,
           NoDuplicates, AllTraced, Distinct, IsEarly;
      ghost var items, was := extensions, Snapshots(extensions);
      AllStillEarly(extensions);
      depGraph, reverseDepGraph := map[], map[];
      var stage := new ResolutionStage(policy);
      var n := |extensions|;
      var ok, result := stage.ProcessAll(extensions, answer);
      extensions := result;
      SameMembers(result, items);
      if ok {
        stats := Stats(n, |extensions|, n, 0, 0);
        depGraph, reverseDepGraph, loadOrder := answer.depGraph, answer.reverseDepGraph, answer.loadOrder;
        if AllReachedBy(was, 1) {
          ResolutionReaches(items, was, result, policy, answer, calls);
        }
      } else {
        stats := Stats(n, |extensions|, 0, n, 1);
        if n == 0 {
          NothingReaches(extensions, items, 2, loadOrder);
        }
        FailedProgress(was, Snapshots(extensions), policy, answer, calls);
      }
    }

    /** One of the stages that take the extensions one by one. */
    method ExecuteSequential(stage: nat, failures: Failures, answer: Report, ghost calls: Calls, ghost log: seq<Event>)
      returns (stats: Stats, ghost newCalls: Calls)
      requires 2 <= stage < 5 && Sound(extensions) && Reached(extensions, stage) && loader.modules == modules
      requires Progress(Snapshots(extensions), stage, true, policy, answer, calls) && modules.log == log + calls.All()
      requires {} == failures.tracker.failed
      requires extensions != [] ==>
                 failures.depGraph == answer.depGraph && failures.reverseDepGraph == answer.reverseDepGraph
      modifies extensions, failures.tracker, modules
      ensures Sound(extensions)
      ensures stats.failed == 0 ==> Reached(extensions, stage + 1)
      ensures Progress(Snapshots(extensions), stage + 1, stats.failed == 0, policy, answer, newCalls)
      ensures modules.log == log + newCalls.All()
      ensures stats.failed == 0 ==> {} == failures.tracker.failed
    {
      hide Sound, AllReachedBy, Progress;
      match stage
      case 2 => stats, newCalls := ExecuteLoading(failures, answer, calls, log);
      case 3 => stats, newCalls := ExecuteExporting(failures, answer, calls, log);
      case _ => stats, newCalls := ExecuteStarting(failures, answer, calls, log);
    }

    method ExecuteLoading(failures: Failures, answer: Report, ghost calls: Calls, ghost log: seq<Event>)
      returns (stats: Stats, ghost newCalls: Calls)
      requires Sound(extensions) && Reached(extensions, 2) && loader.modules == modules
      requires Progress(Snapshots(extensions), 2, true, policy, answer, calls) && modules.log == log + calls.All()
      requires {} == failures.tracker.failed
      requires extensions != [] ==>
                 failures.depGraph == answer.depGraph && failures.reverseDepGraph == answer.reverseDepGraph
      modifies extensions, failures.tracker, modules
      ensures Sound(extensions)
      ensures stats.failed == 0 ==> Reached(extensions, 3)
      ensures Progress(Snapshots(extensions), 3, stats.failed == 0, policy, answer, newCalls)
      ensures modules.log == log + newCalls.All()
      ensures stats.failed == 0 ==> {} == failures.tracker.failed
    {
      hide Sound, Stage.Results, Stage.Tracked, Stage.Marked, AllReachedBy, IsEarly, Progress, Flatten;
      ghost var was := Snapshots(extensions);
      ReachedToLoad(extensions);
      var loading := new LoadingStage(loader, failures);
      ghost var made;
      stats, made := loading.Execute(extensions);
      ghost var now := Snapshots(extensions);
      LoadingProgress(failures, was, now, stats.failed, policy, answer, calls, made);
      OneMoreStageOfCalls(was, 2, policy, answer, calls, made, []);
      newCalls := calls.(loads := made);
      Associative(log, calls.All(), Flatten(made));
      if stats.failed == 0 {
        StageReaches(LoadingStageOf, 2, was, now);
        NothingMarked(LoadingStageOf, failures.depGraph, was, now);
      }
    }

    method ExecuteExporting(failures: Failures, answer: Report, ghost calls: Calls, ghost log: seq<Event>)
      returns (stats: Stats, ghost newCalls: Calls)
      requires Sound(extensions) && Reached(extensions, 3) && loader.modules == modules
      requires Progress(Snapshots(extensions), 3, true, policy, answer, calls) && modules.log == log + calls.All()
      requires {} == failures.tracker.failed
      requires extensions != [] ==>
                 failures.depGraph == answer.depGraph && failures.reverseDepGraph == answer.reverseDepGraph
      modifies extensions, failures.tracker, modules
      ensures Sound(extensions)
      ensures stats.failed == 0 ==> Reached(extensions, 4)
      ensures Progress(Snapshots(extensions), 4, stats.failed == 0, policy, answer, newCalls)
      ensures modules.log == log + newCalls.All()
      ensures stats.failed == 0 ==> {} == failures.tracker.failed
    {
      hide Sound, Stage.Results, Stage.Tracked, Stage.Marked, AllReachedBy, IsEarly, Progress, Flatten;
      ghost var was := Snapshots(extensions);
      ReachedToExport(was);
      var exporting := new ExportingStage(loader, failures);
      ghost var made, running;
      stats, made, running := exporting.Execute(extensions);
      ghost var now := Snapshots(extensions);
      ExportingProgress(failures, was, now, stats.failed, policy, answer, calls, made, running);
      OneMoreStageOfCalls(was, 3, policy, answer, calls, made, running);
      newCalls := calls.(exports := made, running := running);
      Associative(log, calls.All(), Flatten(made));
      if stats.failed == 0 {
        StageReaches(ExportingStageOf, 3, was, now);
        NothingMarked(ExportingStageOf, failures.depGraph, was, now);
      }
    }

    method ExecuteStarting(failures: Failures, answer: Report, ghost calls: Calls, ghost log: seq<Event>)
      returns (stats: Stats, ghost newCalls: Calls)
      requires Sound(extensions) && Reached(extensions, 4) && loader.modules == modules
      requires Progress(Snapshots(extensions), 4, true, policy, answer, calls) && modules.log == log + calls.All()
      requires {} == failures.tracker.failed
      requires extensions != [] ==>
                 failures.depGraph == answer.depGraph && failures.reverseDepGraph == answer.reverseDepGraph
      modifies extensions, failures.tracker, modules
      ensures Sound(extensions)
      ensures stats.failed == 0 ==> Reached(extensions, 5)
      ensures Progress(Snapshots(extensions), 5, stats.failed == 0, policy, answer, newCalls)
      ensures modules.log == log + newCalls.All()
      ensures stats.failed == 0 ==> {} == failures.tracker.failed
    {
      hide Sound, Stage.Results, Stage.Tracked, Stage.Marked, AllReachedBy, IsEarly, Progress, Flatten;
      ghost var was := Snapshots(extensions);
      ReachedToStart(was);
      var starting := new StartingStage(loader, failures);
      ghost var made;
      stats, made := starting.Execute(extensions);
      ghost var now := Snapshots(extensions);
      StartingProgress(failures, was, now, stats.failed, policy, answer, calls, made);
      OneMoreStageOfCalls(was, 4, policy, answer, calls, made, []);
      newCalls := calls.(starts := made);
      Associative(log, calls.All(), Flatten(made));
      if stats.failed == 0 {
        StageReaches(StartingStageOf, 4, was, now);
        NothingMarked(StartingStageOf, failures.depGraph, was, now);
      }
    }

    /** Updates every running extension, in order; what the callbacks answer changes nothing. */
    method Update() returns (ghost calls: seq<seq<Event>>)
      requires Valid()
      modifies modules
      ensures Valid()
      ensures !initialized ==> modules.log == old(modules.log)
      ensures initialized ==>
                && modules.log == old(modules.log) + Flatten(calls) && |calls| == |extensions|
                && forall i :: 0 <= i < |extensions| ==>
                     var s := extensions[i].Now();
                     calls[i] == if s.state != Running || !s.table.hasUpdate || s.kind == UnknownType then []
                                 else [Event(if s.kind == Module then OnUpdate else OnPluginUpdate, s.languageModule,
                                             s.id)]
      ensures modules.log == old(modules.log) + if initialized then Updates(Snapshots(extensions), |extensions|) else []
    {
      hide Updates, Sound, Settled;
      calls := [];
      if initialized {
        calls := UpdatesAre(Snapshots(extensions), |extensions|);
        UpdateAll();
      }
    }

    method UpdateAll()
      requires Sound(extensions) && loader.modules == modules
      modifies modules
      ensures modules.log == old(modules.log) + Updates(Snapshots(extensions), |extensions|)
    {
      hide UpdateOf, Updates, Sound, Backed;
      ghost var was := Snapshots(extensions);
      UpdatesStep(was, 0);
      SoundBacked(extensions);
      for i := 0 to |extensions|
        invariant modules.log == old(modules.log) + Updates(was, i)
      {
        UpdatesStep(was, i + 1);
        UpdateOne(extensions[i]);
        Associative(old(modules.log), Updates(was, i), UpdateOf(was[i]));
      }
    }

    /** Updates one extension, if it is running. */
    method UpdateOne(ext: Extension)
      requires Backed(ext) && loader.modules == modules
      modifies modules
      ensures modules.log == old(modules.log) + UpdateOf(ext.Now())
    {
      if ext.state == Running {
        if ext.kind == Module {
          var _ := loader.UpdateModule(ext);
        } else if ext.kind == Plugin {
          var _ := loader.UpdatePlugin(ext);
        }
      }
    }

    /** Ends one extension, if it is running. */
    method EndOne(ext: Extension)
      requires ext.Traced() && Settled(ext.Now()) && Backed(ext) && loader.modules == modules
      modifies ext`state, ext`history, modules
      ensures ext.Traced() && Backed(ext) && ext.Now() == EndedOf(old(ext.Now()))
      ensures modules.log == old(modules.log) + EndOf(old(ext.Now()))
    {
      hide IsHistory;
      if ext.state == Running {
        ext.StartOperation(Ending);
        if ext.kind == Plugin {
          var _ := loader.EndPlugin(ext);
        }
        ext.EndOperation(Ended);
      }
    }

    method EndAll()
      requires Valid() && initialized
      modifies extensions`state, extensions`history, modules
      ensures Sound(extensions)
      ensures forall i :: 0 <= i < |extensions| ==> extensions[i].Now() == EndedOf(old(extensions[i].Now()))
      ensures forall i :: 0 <= i < |extensions| ==>
                extensions[i].state == Ended || extensions[i].state == Disabled || extensions[i].state == Unresolved
      ensures modules.log == old(modules.log) + Ends(old(Snapshots(extensions)), 0)
    {
      hide Extension.Traced, EndOf, EndedOf, Ends, AllProvidedBefore, Settled, Backed, Distinct;
      ghost var was := Snapshots(extensions);
      EndsStep(was, |was|);
      for i := |extensions| downto 0
        invariant EndedFrom(extensions, was, i)
        invariant modules.log == old(modules.log) + Ends(was, i)
      {
        EndsStep(was, i);
        EndNext(extensions[i], i, was);
        Associative(old(modules.log), Ends(was, i + 1), EndOf(was[i]));
      }
      forall i | 0 <= i < |extensions|
        ensures extensions[i].state == Ended || extensions[i].state == Disabled || extensions[i].state == Unresolved
      {
        EndedFacts(was[i]);
      }
    }

    method EndNext(ext: Extension, ghost i: nat, ghost was: seq<Snapshot>)
      requires i < |extensions| == |was| && extensions[i] == ext && EndedFrom(extensions, was, i + 1)
               && Settled(was[i]) && loader.modules == modules
      modifies ext`state, ext`history, modules
      ensures EndedFrom(extensions, was, i)
      ensures modules.log == old(modules.log) + EndOf(was[i])
    {
      hide Extension.Traced, EndOf, EndedOf, AllProvidedBefore, Settled, Backed;
      DifferFrom(extensions, i);
      EndOne(ext);
    }

    /** Unloads one extension, if it has ended. No extension refers to a module any more by then. */
    method UnloadOne(ext: Extension)
      requires ext.Traced() && loader.modules == modules && ext.state != Running
      requires ext.state == Ended ==> ext.kind != UnknownType
      requires ext.kind == Module ==> forall e :: e in extensions ==> e.provider != ext
      modifies ext`state, ext`history, ext`languageModule, ext`table, ext`provider, modules
      ensures ext.Traced() && ext.Now() == UnloadedOf(old(ext.Now()))
      ensures ext.provider == old(ext.provider) || ext.provider == null
      ensures ext.kind == Plugin && old(ext.state) == Ended ==> ext.provider == null
      ensures modules.log == old(modules.log) + ShutdownOf(old(ext.Now()), old(IsHeld(extensions, ext.languageModule)))
    {
      hide IsHistory;
      if ext.state == Ended {
        ext.StartOperation(Terminating);
        if ext.kind == Module {
          var _ := loader.UnloadModule(ext, extensions);
        } else {
          loader.UnloadPlugin(ext);
        }
        ext.EndOperation(Terminated);
      }
    }

    /** Unloads the i-th extension when those behind it refer to nothing any more. */
    method UnloadAt(i: nat, ghost providers: seq<Extension?>, ghost was: seq<Snapshot>)
      requires i < |extensions| && Distinct(extensions) && RefersForward(extensions, providers)
               && loader.modules == modules
      requires forall k :: 0 <= k <= i ==> extensions[k].provider == providers[k]
      requires forall k :: i < k < |extensions| ==> extensions[k].provider == null && extensions[k].languageModule == 0
      requires |was| == |extensions| && forall k :: 0 <= k <= i ==> extensions[k].Now() == was[k]
      requires extensions[i].Traced() && extensions[i].state != Running
      requires extensions[i].state == Ended ==> extensions[i].kind != UnknownType
      requires extensions[i].state != Ended || extensions[i].kind != Plugin ==> extensions[i].provider == null
      modifies extensions[i], modules
      ensures extensions[i].Traced() && extensions[i].Now() == UnloadedOf(was[i]) && extensions[i].provider == null
      ensures modules.log == old(modules.log) + ShutdownOf(was[i], HeldInFront(was, i))
    {
      hide IsHistory, UnloadedOf, RefersForward, HeldInFront, IsHeld;
      NobodyRefersTo(extensions, providers, i);
      if was[i].kind == Module && was[i].languageModule != 0 {
        HeldOnlyInFront(extensions, was, i);
      }
      UnloadOne(extensions[i]);
    }

    method UnloadAll()
      requires Sound(extensions) && loader.modules == modules
      requires forall i :: 0 <= i < |extensions| ==>
                 extensions[i].state == Ended || extensions[i].state == Disabled || extensions[i].state == Unresolved
      modifies extensions, modules
      ensures Sound(extensions)
      ensures forall i :: 0 <= i < |extensions| ==> extensions[i].Now() == UnloadedOf(old(extensions[i].Now()))
      ensures modules.log == old(modules.log) + Shutdowns(old(Snapshots(extensions)), 0)
    {
      hide Extension.Traced, ShutdownOf, Shutdowns, UnloadedOf, RefersForward, Sound, Distinct, IsEarly, NeedsModule,
           AllProvidedBefore, HeldInFront, AllTraced, UnloadedFrom;
      ghost var was := Snapshots(extensions);
      ghost var providers :=
        seq(|extensions|, i requires 0 <= i < |extensions| reads this, extensions => extensions[i].provider);
      SoundParts(extensions);
      ProvidersRefer(extensions, providers);
      ShutdownsStep(was, |was|);
      NothingUnloaded(extensions, providers, was);
      for i := |extensions| downto 0
        invariant UnloadedFrom(extensions, providers, was, i)
        invariant modules.log == old(modules.log) + Shutdowns(was, i)
      {
        ShutdownsStep(was, i);
        UnloadNext(i, providers, was);
        Associative(old(modules.log), Shutdowns(was, i + 1), ShutdownOf(was[i], HeldInFront(was, i)));
      }
      AllUnloaded(extensions, providers, was);
    }

    /** Unloads the i-th extension, and none of the others. */
    method UnloadNext(i: nat, ghost providers: seq<Extension?>, ghost was: seq<Snapshot>)
      requires i < |extensions| && Distinct(extensions) && RefersForward(extensions, providers)
               && loader.modules == modules
      requires UnloadedFrom(extensions, providers, was, i + 1) && CanUnload(was[i], providers[i])
      modifies extensions[i], modules
      ensures UnloadedFrom(extensions, providers, was, i)
      ensures modules.log == old(modules.log) + ShutdownOf(was[i], HeldInFront(was, i))
    {
      hide Extension.Traced, ShutdownOf, UnloadedOf, RefersForward, HeldInFront;
      DifferFrom(extensions, i);
      UnloadedFacts(was[i]);
      UnloadAt(i, providers, was);
    }

    /** Both halves of terminating. */
    method EndAndUnload() returns (ghost ends: seq<seq<Event>>, ghost shutdowns: seq<seq<Event>>)
      requires Valid() && initialized
      modifies extensions, modules
      ensures Sound(extensions)
      ensures forall i :: 0 <= i < |extensions| ==> extensions[i].Now() == UnloadedOf(EndedOf(old(extensions[i].Now())))
      ensures modules.log == old(modules.log) + Ends(old(Snapshots(extensions)), 0)
              + Shutdowns(old(Snapshots(extensions)), 0)
      ensures
        && |ends| == |shutdowns| == |extensions|
        && modules.log == old(modules.log) + Flatten(ends) + Flatten(shutdowns)
        && var was := old(Snapshots(extensions));
           && (forall i :: 0 <= i < |was| ==>
                 ends[|was| - 1 - i] == if was[i].state == Running && was[i].kind == Plugin && was[i].table.hasEnd
                                        then [Event(OnPluginEnd, was[i].languageModule, was[i].id)] else [])
           && (forall i :: 0 <= i < |was| ==>
                 shutdowns[|was| - 1 - i] ==
                 if was[i].state == Running && was[i].kind == Module && was[i].languageModule != 0
                 then [ShutdownEvent(was[i].languageModule, was[i].id,
                         exists j :: 0 <= j < i && was[j].kind == Plugin
                           && was[j].languageModule == was[i].languageModule)]
                 else [])
           && (forall i :: 0 <= i < |was| ==>
                 extensions[i].Now() ==
                 if was[i].state != Running then was[i]
                 else was[i].(state := Terminated, languageModule := 0,
                              table := if was[i].kind == Plugin then NO_METHODS else was[i].table))
    {
      hide Sound, Ends, Shutdowns, EndedOf, UnloadedOf, Settled, Extension.Traced, Flatten, IsHeld, HeldInFront,
           EachTraced, AllTraced, Backed;
      ghost var was := Snapshots(extensions);
      ends := EndsAre(was, 0);
      shutdowns := ShutdownsAre(was, 0);
      forall i | 0 <= i < |was| {
        Terminates(was[i]);
      }
      EndAll();
      SameShutdowns(was, Snapshots(extensions), 0);
      UnloadAll();
    }

    /**
     * Ends every running extension and then unloads them, both from the last to the first. What the
     * callbacks answer changes nothing. The log shows all calls, in order.
     */
    method Terminate() returns (ghost ends: seq<seq<Event>>, ghost shutdowns: seq<seq<Event>>)
      requires Valid()
      modifies this`initialized, extensions, modules
      ensures Valid() && !initialized
      ensures old(initialized) ==>
                && (forall i :: 0 <= i < |extensions| ==>
                   extensions[i].Now() == UnloadedOf(EndedOf(old(extensions[i].Now()))))
                && modules.log == old(modules.log) + Ends(old(Snapshots(extensions)), 0)
                   + Shutdowns(old(Snapshots(extensions)), 0)
      ensures old(initialized) ==>
                && |ends| == |shutdowns| == |extensions|
                && modules.log == old(modules.log) + Flatten(ends) + Flatten(shutdowns)
                && var was := old(Snapshots(extensions));
                   && (forall i :: 0 <= i < |was| ==>
                         ends[|was| - 1 - i] ==
                         if was[i].state == Running && was[i].kind == Plugin && was[i].table.hasEnd
                         then [Event(OnPluginEnd, was[i].languageModule, was[i].id)] else [])
                   && (forall i :: 0 <= i < |was| ==>
                         shutdowns[|was| - 1 - i] ==
                         if was[i].state == Running && was[i].kind == Module && was[i].languageModule != 0
                         then [ShutdownEvent(was[i].languageModule, was[i].id,
                                 exists j :: 0 <= j < i && was[j].kind == Plugin
                                   && was[j].languageModule == was[i].languageModule)]
                         else [])
                   && (forall i :: 0 <= i < |was| ==>
                         extensions[i].Now() ==
                         if was[i].state != Running then was[i]
                         else was[i].(state := Terminated, languageModule := 0,
                                      table := if was[i].kind == Plugin then NO_METHODS else was[i].table))
      ensures !old(initialized) ==>
                && modules.log == old(modules.log)
                && forall i :: 0 <= i < |extensions| ==> unchanged(extensions[i])
    {
      hide Sound, Ends, Shutdowns, EndedOf, UnloadedOf, Settled, Snapshots, Extension.Traced, AllTraced, Flatten;
      ends, shutdowns := [], [];
      if !initialized {
        return;
      }
      ghost var others := created - Elements(extensions);
      assert EachTraced(others);
      ends, shutdowns := EndAndUnload();
      initialized := false;
      SoundParts(extensions);
      assert EachTraced(others);
      MoreTraced(others, extensions);
      assert created == others + Elements(extensions);
    }
  }

  /**
   * In a list as the stages leave it: a plugin in front of a module has the module's address exactly if a
   * module further in front, in front of that plugin, has it, too.
   */
  lemma AddressHeldInFront(exts: seq<Extension>, i: nat)
    requires i < |exts| && AllProvidedBefore(exts) && AllBacked(exts) && exts[i].languageModule != 0
    ensures HeldInFront(Snapshots(exts), i) <==>
              exists j, k :: 0 <= j < k < i && SharedAddress(Snapshots(exts), j, k, i)
  {
    hide AllProvidedBefore, AllBacked;
    var s := Snapshots(exts);
    if k :| 0 <= k < i && s[k].kind == Plugin && s[k].languageModule == s[i].languageModule {
      assert exts[k].Now() == s[k];
      var j := ProviderInFront(exts, k);
      assert exts[j].Now() == s[j];
      assert SharedAddress(s, j, k, i);
    }
  }

  /** The module and the plugin behind it have the address of the i-th extension. */
  predicate SharedAddress(s: seq<Snapshot>, j: int, k: int, i: int)
    requires 0 <= j < |s| && 0 <= k < |s| && 0 <= i < |s|
  {
    s[j].kind == Module && s[k].kind == Plugin && s[j].languageModule == s[k].languageModule == s[i].languageModule
  }

  lemma ProviderInFront(exts: seq<Extension>, k: nat) returns (j: nat)
    requires k < |exts| && AllProvidedBefore(exts) && AllBacked(exts)
    requires exts[k].kind == Plugin && exts[k].languageModule != 0
    ensures j < k && exts[j].kind == Module && exts[j].languageModule == exts[k].languageModule
    ensures exts[j].manifest.language == exts[k].manifest.language
  {
    assert Backed(exts[k]) && ProvidedBefore(exts, k);
    j :| LastProvider(exts[..k], exts[k].manifest.language, j) && exts[..k][j] == exts[k].provider
         && exts[..k][j].languageModule == exts[k].languageModule;
  }

  /** Module m is shut down by this call, with its address held in front of it. */
  predicate ShutDownHeld(s: seq<Snapshot>, m: nat, address: Address, id: int)
    requires m < |s|
  {
    HeldInFront(s, m) && ShutdownOf(s[m], true) == [ShutdownEvent(address, id, true)]
  }

  /** The shutdowns that find their address held are those of the modules with a plugin in front that has it. */
  lemma {:induction false} HeldShutdowns(s: seq<Snapshot>, i: nat, address: Address, id: int)
    requires i <= |s|
    ensures ShutdownEvent(address, id, true) in Shutdowns(s, i)
            <==> exists m :: i <= m < |s| && ShutDownHeld(s, m, address, id)
    decreases |s| - i
  {
    if i < |s| {
      HeldShutdowns(s, i + 1, address, id);
      ShutdownsStep(s, i);
      HeldShutdown(s, i, address, id);
      hide ShutDownHeld, HeldInFront, ShutdownOf, Shutdowns;
    }
  }

  lemma HeldShutdown(s: seq<Snapshot>, i: nat, address: Address, id: int)
    requires i < |s|
    ensures ShutdownEvent(address, id, true) in ShutdownOf(s[i], HeldInFront(s, i)) <==> ShutDownHeld(s, i, address, id)
  {
  }

  /** Two modules that return the same language module, with a plugin of the first one between them. */
  lemma SharedLanguageModule() returns (s: seq<Snapshot>)
    ensures s == [Snapshot(0, Module, File(None, 7), Running, ManifestData("a", "x", []), 7, NO_METHODS),
                  Snapshot(1, Plugin, File(None, 0), Running, ManifestData("p", "x", []), 7, NO_METHODS),
                  Snapshot(2, Module, File(None, 7), Running, ManifestData("b", "y", []), 7, NO_METHODS)]
    ensures Shutdowns(s, 0) == [ShutdownEvent(7, 2, true), ShutdownEvent(7, 0, false)]
  {
    s := [Snapshot(0, Module, File(None, 7), Running, ManifestData("a", "x", []), 7, NO_METHODS),
          Snapshot(1, Plugin, File(None, 0), Running, ManifestData("p", "x", []), 7, NO_METHODS),
          Snapshot(2, Module, File(None, 7), Running, ManifestData("b", "y", []), 7, NO_METHODS)];
    assert HeldInFront(s, 2) by {
      assert s[1].kind == Plugin && s[1].languageModule == s[2].languageModule;
    }
    assert !HeldInFront(s, 0);
    ShutdownsStep(s, 3);
    ShutdownsStep(s, 2);
    ShutdownsStep(s, 1);
    ShutdownsStep(s, 0);
  }

  datatype Command = InitializeIt(found: seq<Path>, answer: Report) | UpdateIt | TerminateIt

  /**
   * Any sequence of calls, whatever is found, parsed, resolved and answered meanwhile: the manager stays
   * valid, and no extension that was ever discovered makes more than fifteen changes of state, all of
   * them valid.
   */
  method Run(m: Manager, commands: seq<Command>)
    requires m.Valid()
    modifies m, m.created, m.modules
    ensures m.Valid() && old(m.created) <= m.created
    ensures forall e :: e in m.created ==>
              && IsHistory(e.history) && |e.history| <= 16 && e.history[|e.history| - 1] == e.state
  {
    hide IsHistory, Sound;
    for n := 0 to |commands|
      invariant m.Valid() && old(m.created) <= m.created
      invariant forall e :: e in m.created ==> fresh(e) || e in old(m.created)
    {
      match commands[n]
      case InitializeIt(found, answer) => var _, _, _ := m.Initialize(found, answer);
      case UpdateIt => var _ := m.Update();
      case TerminateIt => var _, _ := m.Terminate();
    }
    forall e | e in m.created
      ensures IsHistory(e.history) && |e.history| <= 16
    {
      HistoryIsBounded(e.history);
    }
  }
}
