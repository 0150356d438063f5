/** The stages that load, export and start extensions, one after the other in the order of the list. */
module StartupStages {
  import opened Blocks
  import opened Wrappers
  import opened Extensions
  import opened ExtensionLoading

  /** The counts that a stage reports. */
  datatype Stats = Stats(itemsIn: nat, itemsOut: nat, succeeded: nat, failed: nat, errors: nat)

  type Graph = map<int, seq<int>>

  /** No two extensions are the same object or have the same id. */
  ghost predicate Distinct(exts: seq<Extension>) {
    forall i, j :: 0 <= i < j < |exts| ==> exts[i] != exts[j] && exts[i].id != exts[j].id
  }

  ghost predicate AllTraced(exts: seq<Extension>)
    reads exts`state, exts`history
  {
    forall i :: 0 <= i < |exts| ==> exts[i].Traced()
  }

  ghost function Snapshots(exts: seq<Extension>): (s: seq<Snapshot>)
    reads exts
    ensures |s| == |exts| && forall i :: 0 <= i < |exts| ==> s[i] == exts[i].Now()
  {
    seq(|exts|, i requires 0 <= i < |exts| reads exts => exts[i].Now())
  }

  /** A module of the language that has been loaded. */
  ghost predicate Provides(e: Extension, language: string)
    reads e`manifest, e`languageModule
  {
    e.kind == Module && e.manifest.language == language && e.languageModule != 0
  }

  /** The j-th is the last of the extensions that provides the language. */
  ghost predicate LastProvider(before: seq<Extension>, language: string, j: int)
    reads before`manifest, before`languageModule
  {
    && 0 <= j < |before| && Provides(before[j], language)
    && forall q :: j < q < |before| ==> !Provides(before[q], language)
  }

  /** The extension got its language module from the last of the given ones that provides its language. */
  ghost predicate ProvidedBy(ext: Extension, before: seq<Extension>)
    reads ext`provider, ext`manifest, ext`languageModule, before`manifest, before`languageModule
  {
    ext.provider != null && exists j ::
      LastProvider(before, ext.manifest.language, j) && before[j] == ext.provider
          && before[j].languageModule == ext.languageModule
  }

  /** A plugin that refers to a module was loaded with the last one in front of it that provides its language. */
  ghost predicate ProvidedBefore(exts: seq<Extension>, i: nat)
    requires i < |exts|
    reads exts`provider, exts`manifest, exts`languageModule
  {
    exts[i].provider != null ==> exts[i].kind == Plugin && ProvidedBy(exts[i], exts[..i])
  }

  ghost predicate AllProvidedBefore(exts: seq<Extension>)
    reads exts`provider, exts`manifest, exts`languageModule
  {
    forall i :: 0 <= i < |exts| ==> ProvidedBefore(exts, i)
  }

  /** A plugin has its language module from a module; none has one before loading, all have one after. */
  ghost predicate Backed(e: Extension)
    reads e`provider, e`languageModule, e`state
  {
    && (e.kind == Plugin && e.languageModule != 0 ==> e.provider != null)
    && (NeedsModule(e.state) ==> e.kind != UnknownType && e.languageModule != 0)
    && (IsEarly(e.state) ==> e.provider == null && e.languageModule == 0)
  }

  ghost predicate AllBacked(exts: seq<Extension>)
    reads exts`provider, exts`languageModule, exts`state
  {
    forall i :: 0 <= i < |exts| ==> Backed(exts[i])
  }

  predicate NeedsModule(s: State) {
    s == Loaded || s == Exporting || s == Exported || s == Starting || s == Started || s == Running || s == Ending
        || s == Ended
  }

  predicate IsEarly(s: State) {
    s == Unknown || s == Discovered || s == Parsing || s == Parsed || s == Corrupted || s == Resolving || s == Resolved
    || s == Unresolved || s == Disabled
  }

  /** What every stage keeps. */
  ghost predicate Sound(exts: seq<Extension>)
    reads exts
  {
    Distinct(exts) && AllTraced(exts) && AllProvidedBefore(exts) && AllBacked(exts)
  }

  // --- failures ---------------------------------------------------------------------------------------

  class FailureTracker {
    var failed: set<int>

    constructor ()
      ensures failed == {}
    {
      failed := {};
    }

    method MarkFailed(id: int)
      modifies this
      ensures failed == old(failed) + {id}
    {
      failed := failed + {id};
    }

    predicate HasAnyDependencyFailed(id: int, graph: Graph): (found: bool)
      reads this
      ensures found <==> exists d :: d in EntriesOf(graph, id) && d in failed
    {
      EntryFailed(graph, id, failed);
      id in graph && exists k :: 0 <= k < |graph[id]| && graph[id][k] in failed
    }
  }

  /** The entries of an extension in a graph. */
  ghost function EntriesOf(graph: Graph, id: int): set<int> {
    if id in graph then set k | 0 <= k < |graph[id]| :: graph[id][k] else {}
  }

  lemma EntryFailed(graph: Graph, id: int, failed: set<int>)
    ensures (id in graph && exists k :: 0 <= k < |graph[id]| && graph[id][k] in failed)
            <==> exists d :: d in EntriesOf(graph, id) && d in failed
  {
    if id in graph {
      forall d
        ensures d in EntriesOf(graph, id) <==> exists k :: 0 <= k < |graph[id]| && graph[id][k] == d
      {
      }
      if k :| 0 <= k < |graph[id]| && graph[id][k] in failed {
        var d := graph[id][k];
        assert d in EntriesOf(graph, id) && d in failed;
      }
    }
  }

  /** The ids that are marked for one extension. */
  ghost function MarkOf(depGraph: Graph, n: Snapshot): set<int> {
    if n.state == Skipped then {n.id} else if n.state == Failed then {n.id} + EntriesOf(depGraph, n.id) else {}
  }

  /** The extension was skipped exactly if one of its entries was marked; what is marked for it was added. */
  ghost predicate Handled(failures: Failures, n: Snapshot, was: set<int>, now: set<int>) {
    && (n.state == Skipped <==> exists d :: d in EntriesOf(failures.reverseDepGraph, n.id) && d in was)
    && now == was + MarkOf(failures.depGraph, n)
  }

  /** What the three stages have in common. */
  class Failures {
    const tracker: FailureTracker
    const depGraph: Graph
    const reverseDepGraph: Graph

    constructor (tracker: FailureTracker, depGraph: Graph, reverseDepGraph: Graph)
      ensures this.tracker == tracker && this.depGraph == depGraph && this.reverseDepGraph == reverseDepGraph
    {
      this.tracker, this.depGraph, this.reverseDepGraph := tracker, depGraph, reverseDepGraph;
    }

    predicate MustSkip(ext: Extension)
      reads tracker
    {
      tracker.HasAnyDependencyFailed(ext.id, reverseDepGraph)
    }

    method HandleDependencyFailure(ext: Extension)
      requires ext.Traced() && IsValidTransition(ext.state, Skipped)
      modifies ext`state, ext`history, tracker
      ensures ext.Traced() && ext.Now() == old(ext.Now()).(state := Skipped)
      ensures tracker.failed == old(tracker.failed) + {ext.id}
    {
      ext.SetState(Skipped);
      tracker.MarkFailed(ext.id);
    }

    method HandleOperationFailure(ext: Extension)
      requires ext.Traced() && IsValidTransition(ext.state, Failed)
      modifies ext`state, ext`history, tracker
      ensures ext.Traced() && ext.Now() == old(ext.Now()).(state := Failed)
      ensures tracker.failed == old(tracker.failed) + {ext.id} + EntriesOf(depGraph, ext.id)
    {
      ext.EndOperation(Failed);
      tracker.MarkFailed(ext.id);
      PropagateFailure(ext.id);
    }

    method PropagateFailure(id: int)
      modifies tracker
      ensures tracker.failed == old(tracker.failed) + EntriesOf(depGraph, id)
    {
      if id in depGraph {
        for k := 0 to |depGraph[id]|
          invariant tracker.failed == old(tracker.failed) + set j | 0 <= j < k :: depGraph[id][j]
        {
          tracker.MarkFailed(depGraph[id][k]);
        }
      }
    }
  }

  // --- what a stage does to one extension -------------------------------------------------------------

  /** Loading: a module is running at once, a plugin is loaded; both then have a language module. */
  predicate LoadingResult(o: Snapshot, n: Snapshot, ok: bool) {
    if o.state != Resolved then ok && n == o
    else if ok then
      && o.kind != UnknownType && n.languageModule != 0
      && n == o.(state := if o.kind == Module then Running else Loaded, languageModule := n.languageModule,
         table := n.table)
    else
      && (n.state == Skipped || n.state == Failed)
      && n == o.(state := n.state, languageModule := n.languageModule)
      && (o.kind == Module ==> n.languageModule == o.languageModule)
  }

  predicate ExportingResult(o: Snapshot, n: Snapshot, ok: bool) {
    if o.state != Loaded || o.kind != Plugin then ok && n == o
    else n == o.(state := n.state) && if ok then n.state == Exported else n.state == Skipped || n.state == Failed
  }

  predicate StartingResult(o: Snapshot, n: Snapshot, ok: bool) {
    if o.state != Exported || o.kind != Plugin then ok && n == o
    else n == o.(state := n.state) && if ok then n.state == Running else n.state == Skipped || n.state == Failed
  }

  /** Parsing: the extension gets its manifest, or is corrupted if that cannot be read or is not valid. */
  predicate ParsingResult(o: Snapshot, n: Snapshot, ok: bool) {
    if o.state != Discovered then ok && n == o
    else if o.file.manifest.Some? then ok && n == o.(state := Parsed, manifest := o.file.manifest.value)
    else !ok && n == o.(state := Corrupted)
  }

  // --- the calls that a stage makes for one extension -------------------------------------------------

  /** The address of the last module that provides the language, or zero. */
  ghost function ProvidedAddress(before: seq<Snapshot>, language: string): Address {
    if before == [] then 0 else
      var last := before[|before| - 1];
      if last.kind == Module && last.manifest.language == language && last.languageModule != 0 then last.languageModule
      else ProvidedAddress(before[..|before| - 1], language)
  }

  /**
   * A module is initialized if its assembly gives a language module, and a plugin is loaded if some module in
   * front of it provides its language, whose address it then has. The answer decides.
   */
  ghost predicate LoadCalls(o: Snapshot, n: Snapshot, before: seq<Snapshot>, calls: seq<Event>) {
    if o.state != Resolved || n.state == Skipped then calls == []
    else LoadAttempt(o, n, before, n.state == Failed, calls)
  }

  ghost predicate LoadAttempt(o: Snapshot, n: Snapshot, before: seq<Snapshot>, failed: bool, calls: seq<Event>) {
    var address := match o.kind
                   case Module => o.file.languageModule
                   case Plugin => ProvidedAddress(before, o.manifest.language)
                   case UnknownType => 0;
    if address == 0 then calls == [] && failed && n.languageModule == o.languageModule
    else
      && |calls| == 1 && calls[0].AnsweredEvent?
      && var answer := calls[0].answer;
         && calls[0] == AnsweredEvent(if o.kind == Module then OnInitialize else OnPluginLoad, address, o.id, answer)
         && (failed <==> !answer.LoadedWith?) && (answer.LoadedWith? ==> n.table == answer.table)
         && n.languageModule == if failed && o.kind == Module then o.languageModule else address
  }

  /** Only the language module and the methods matter for that. */
  lemma SameAttempt(o: Snapshot, n: Snapshot, a: Snapshot, b: Snapshot, before: seq<Snapshot>, failed: bool,
                    calls: seq<Event>)
    requires o.state == Resolved && n.state != Skipped && (n.state == Failed <==> failed)
    requires a == o.(state := a.state) && b == n.(state := b.state) && LoadAttempt(a, b, before, failed, calls)
    ensures LoadCalls(o, n, before, calls)
  {
  }

  lemma {:induction false} AddressProvided(before: seq<Extension>, language: string)
    ensures ProvidedAddress(Snapshots(before), language) == 0 <==>
              forall k :: 0 <= k < |before| ==> !Provides(before[k], language)
    ensures forall j :: LastProvider(before, language, j) ==>
              ProvidedAddress(Snapshots(before), language) == before[j].languageModule
  {
    if before != [] {
      var n := |before| - 1;
      AddressProvided(before[..n], language);
      assert Snapshots(before)[..n] == Snapshots(before[..n]) && Snapshots(before)[n] == before[n].Now();
      assert forall j :: LastProvider(before, language, j) && j < n ==> LastProvider(before[..n], language, j);
      assert forall k :: 0 <= k < n ==> before[k] == before[..n][k];
    }
  }

  /** One call for each of the modules, in order, up to the first that refuses. */
  ghost predicate ExportCalls(o: Snapshot, n: Snapshot, running: seq<Address>, calls: seq<Event>) {
    if o.state != Loaded || o.kind != Plugin || n.state == Skipped then calls == []
    else if !o.table.hasExport then calls == [] && n.state != Failed
    else
      && |calls| <= |running| && (n.state == Failed ==> calls != []) && (n.state != Failed ==> |calls| == |running|)
      && forall k :: 0 <= k < |calls| ==>
           var refused := n.state == Failed && k == |calls| - 1;
           calls[k] == AnsweredEvent(OnMethodExport, running[k], o.id, if refused then Refused else Accepted)
  }

  ghost predicate StartCalls(o: Snapshot, n: Snapshot, calls: seq<Event>) {
    if o.state != Exported || o.kind != Plugin || n.state == Skipped then calls == []
    else if !o.table.hasStart then calls == [] && n.state != Failed
    else
      var answer := if n.state == Failed then Refused else Accepted;
      calls == [AnsweredEvent(OnPluginStart, o.languageModule, o.id, answer)]
  }

  lemma LoadingTransitions()
    ensures IsValidTransition(Resolved, Loading) && IsValidTransition(Loading, Loaded)
            && IsValidTransition(Loading, Failed)
    ensures IsValidTransition(Loaded, Running)
  {
  }

  lemma ExportingTransitions()
    ensures IsValidTransition(Loaded, Exporting) && IsValidTransition(Exporting, Exported)
            && IsValidTransition(Exporting, Failed)
  {
  }

  lemma StartingTransitions()
    ensures IsValidTransition(Exported, Starting) && IsValidTransition(Starting, Started)
            && IsValidTransition(Starting, Failed) && IsValidTransition(Started, Running)
  {
  }

  lemma LoadingResults(o: Snapshot, languageModule: Address, table: MethodTable)
    requires o.state == Resolved
    ensures o.kind == Module && languageModule != 0 ==>
              LoadingResult(o, o.(state := Running, languageModule := languageModule, table := table), true)
    ensures o.kind == Plugin && languageModule != 0 ==>
              LoadingResult(o, o.(state := Loaded, languageModule := languageModule, table := table), true)
    ensures o.kind != Module || languageModule == o.languageModule ==>
              LoadingResult(o, o.(state := Failed, languageModule := languageModule), false)
  {
  }

  /** The stages that take extensions one by one, and which of them each stage processes. */
  datatype Stage = ParsingStageOf | LoadingStageOf | ExportingStageOf | StartingStageOf {
    predicate ShouldProcess(s: Snapshot) {
      match this
      case ParsingStageOf => s.state == Discovered
      case LoadingStageOf => s.state == Resolved
      case ExportingStageOf => s.state == Loaded && s.kind == Plugin
      case StartingStageOf => s.state == Exported && s.kind == Plugin
    }

    predicate Result(o: Snapshot, n: Snapshot, ok: bool) {
      match this
      case ParsingStageOf => ParsingResult(o, n, ok)
      case LoadingStageOf => LoadingResult(o, n, ok)
      case ExportingStageOf => ExportingResult(o, n, ok)
      case StartingStageOf => StartingResult(o, n, ok)
    }

    /** The calls that the stage makes for one extension; running are the addresses of the modules that run. */
    ghost predicate Calls(o: Snapshot, n: Snapshot, before: seq<Snapshot>, running: seq<Address>, calls: seq<Event>) {
      match this
      case ParsingStageOf => calls == []
      case LoadingStageOf => LoadCalls(o, n, before, calls)
      case ExportingStageOf => ExportCalls(o, n, running, calls)
      case StartingStageOf => StartCalls(o, n, calls)
    }

    /** The ids that are marked when the first extensions of a list have been seen. */
    ghost function Marked(depGraph: Graph, failed: set<int>, o: seq<Snapshot>, n: seq<Snapshot>): set<int>
      requires |n| <= |o|
    {
      if n == [] then failed else
      var k := |n| - 1;
      Marked(depGraph, failed, o, n[..k]) + if ShouldProcess(o[k]) then MarkOf(depGraph, n[k]) else {}
    }

    /** The first extensions of a list have been seen: the calls for each, and which of them were skipped. */
    ghost predicate Tracked(failures: Failures, failed: set<int>, was: seq<Snapshot>, done: seq<Snapshot>,
                            running: seq<Address>, calls: seq<seq<Event>>) {
      && |calls| == |done| <= |was|
      && (forall k :: 0 <= k < |done| ==> Calls(was[k], done[k], done[..k], running, calls[k]))
      && (forall k :: 0 <= k < |done| && ShouldProcess(was[k]) ==>
            (done[k].state == Skipped <==>
             exists d :: d in EntriesOf(failures.reverseDepGraph, done[k].id)
               && d in Marked(failures.depGraph, failed, was, done[..k])))
    }

    lemma TrackedNone(failures: Failures, failed: set<int>, was: seq<Snapshot>, running: seq<Address>)
      ensures Tracked(failures, failed, was, [], running, []) && Marked(failures.depGraph, failed, was, []) == failed
    {
    }

    lemma TrackedOne(failures: Failures, failed: set<int>, was: seq<Snapshot>, done: seq<Snapshot>,
                     running: seq<Address>, calls: seq<seq<Event>>, last: Snapshot, more: seq<Event>, now: set<int>)
      requires Tracked(failures, failed, was, done, running, calls) && |done| < |was|
      requires Calls(was[|done|], last, done, running, more)
      requires var marked := Marked(failures.depGraph, failed, was, done);
               if ShouldProcess(was[|done|]) then Handled(failures, last, marked, now) else now == marked
      ensures Tracked(failures, failed, was, done + [last], running, calls + [more])
      ensures now == Marked(failures.depGraph, failed, was, done + [last])
    {
      hide Calls, ShouldProcess, MarkOf, EntriesOf;
      var all := done + [last];
      assert all[..|done|] == done;
      forall k | 0 <= k < |all|
        ensures Calls(was[k], all[k], all[..k], running, (calls + [more])[k])
      {
        if k < |done| {
          assert all[..k] == done[..k];
        }
      }
      forall k | 0 <= k < |all| && ShouldProcess(was[k])
        ensures all[k].state == Skipped <==>
                exists d :: d in EntriesOf(failures.reverseDepGraph, all[k].id)
                  && d in Marked(failures.depGraph, failed, was, all[..k])
      {
        if k < |done| {
          assert all[..k] == done[..k];
        }
      }
    }

    /** How many extensions there are to process. */
    function Work(s: seq<Snapshot>): (n: nat)
      ensures n <= |s|
    {
      if s == [] then 0 else Work(s[..|s| - 1]) + (if ShouldProcess(s[|s| - 1]) then 1 else 0)
    }

    /** An extension was processed, and failed, was skipped or is corrupted. */
    predicate Fails(o: Snapshot, n: Snapshot) {
      ShouldProcess(o) && (n.state == Failed || n.state == Skipped || n.state == Corrupted)
    }

    function FailureCount(o: seq<Snapshot>, n: seq<Snapshot>): (k: nat)
      requires |n| == |o|
      ensures k == 0 <==> forall i :: 0 <= i < |o| ==> !Fails(o[i], n[i])
    {
      if o == [] then 0
      else FailureCount(o[..|o| - 1], n[..|n| - 1]) + (if Fails(o[|o| - 1], n[|n| - 1]) then 1 else 0)
    }

    /** The first extensions of a list have been seen, and counted. */
    ghost predicate Counted(was: seq<Snapshot>, done: seq<Snapshot>, stats: Stats) {
      && |done| <= |was|
      && (forall k :: 0 <= k < |done| ==> Result(was[k], done[k], true) || Result(was[k], done[k], false))
      && stats.failed == FailureCount(was[..|done|], done) && stats.errors == stats.failed
      && stats.succeeded + stats.failed == Work(was[..|done|])
      && stats.itemsIn == stats.itemsOut == |was|
    }

    lemma CountedNone(was: seq<Snapshot>)
      ensures Counted(was, [], Stats(|was|, |was|, 0, 0, 0))
    {
    }

    /** One more extension: it was not to be processed, or the right counter was increased. */
    lemma CountedOne(was: seq<Snapshot>, done: seq<Snapshot>, stats: Stats, last: Snapshot, ok: bool, n: Stats)
      requires Counted(was, done, stats) && |done| < |was| && Result(was[|done|], last, ok)
      requires n == if !ShouldProcess(was[|done|]) then stats
                    else if ok then stats.(succeeded := stats.succeeded + 1)
                    else stats.(failed := stats.failed + 1, errors := stats.errors + 1)
      ensures Counted(was, done + [last], n)
    {
      OneMoreItem(was, done, last);
      hide FailureCount, Work;
    }

    lemma OneMoreItem(was: seq<Snapshot>, done: seq<Snapshot>, last: Snapshot)
      requires |done| < |was|
      ensures Work(was[..|done| + 1]) == Work(was[..|done|]) + if ShouldProcess(was[|done|]) then 1 else 0
      ensures FailureCount(was[..|done| + 1], done + [last])
              == FailureCount(was[..|done|], done) + if Fails(was[|done|], last) then 1 else 0
    {
      hide ShouldProcess, Fails;
      var i := |done|;
      var more, all := was[..i + 1], done + [last];
      assert more[..i] == was[..i] && more[i] == was[i];
      assert all[..i] == done && all[i] == last;
    }

    lemma CountedAll(was: seq<Snapshot>, done: seq<Snapshot>, stats: Stats)
      requires Counted(was, done, stats) && |done| == |was|
      ensures Results(was, done, stats.failed)
      ensures stats.succeeded + stats.failed == Work(was) && stats.errors == stats.failed
      ensures stats.itemsIn == stats.itemsOut == |was|
    {
      assert was[..|done|] == was;
    }

    /** What the stage makes of a list, and how many failures it counts. */
    ghost predicate Results(o: seq<Snapshot>, n: seq<Snapshot>, failed: nat) {
      && |n| == |o| && failed == FailureCount(o, n)
      && (forall i :: 0 <= i < |o| ==> Result(o[i], n[i], true) || Result(o[i], n[i], false))
      && (failed == 0 ==> forall i :: 0 <= i < |o| ==> Result(o[i], n[i], true))
    }
  }

  class LoadingStage {
    const loader: ExtensionLoader
    const failures: Failures
    var loadedModules: map<string, Extension>

    constructor (loader: ExtensionLoader, failures: Failures)
      ensures this.loader == loader && this.failures == failures && loadedModules == map[]
    {
      this.loader, this.failures, loadedModules := loader, failures, map[];
    }

    predicate ShouldProcess(ext: Extension)
      reads ext
    {
      ext.state == Resolved
    }

    /** The table has, for each language, the last of the given modules that was loaded for it. */
    ghost predicate Remembers(before: seq<Extension>)
      reads this, before`manifest, before`languageModule
    {
      && (forall l :: l in loadedModules ==>
            exists j :: LastProvider(before, l, j) && before[j] == loadedModules[l])
      && (forall k :: 0 <= k < |before| && before[k].kind == Module && before[k].languageModule != 0 ==>
            before[k].manifest.language in loadedModules)
    }

    lemma RemembersNothing()
      requires loadedModules == map[]
      ensures Remembers([])
    {
    }

    /** The entry for a language is the module whose address is the one provided; without one, none is provided. */
    lemma Remembered(before: seq<Extension>, language: string) returns (j: int)
      requires Remembers(before)
      ensures language !in loadedModules ==> ProvidedAddress(Snapshots(before), language) == 0
      ensures language in loadedModules ==>
                && 0 <= j < |before| && LastProvider(before, language, j) && before[j] == loadedModules[language]
                && before[j].languageModule == ProvidedAddress(Snapshots(before), language) != 0
    {
      AddressProvided(before, language);
      j := 0;
      if language in loadedModules {
        j :| LastProvider(before, language, j) && before[j] == loadedModules[language];
      }
    }

    /** An extension that provides nothing makes no difference. */
    lemma RemembersMore(before: seq<Extension>, ext: Extension)
      requires Remembers(before) && (ext.kind == Module ==> ext.languageModule == 0)
      ensures Remembers(before + [ext])
    {
      var more := before + [ext];
      forall l | l in loadedModules
        ensures exists j :: LastProvider(more, l, j) && more[j] == loadedModules[l]
      {
        var j :| LastProvider(before, l, j) && before[j] == loadedModules[l];
        assert forall q :: 0 <= q < |before| ==> more[q] == before[q];
        assert LastProvider(more, l, j);
      }
    }

    /** The table was updated for a module that now provides its language. */
    lemma RemembersLoaded(before: seq<Extension>, ext: Extension, was: map<string, Extension>)
      requires ext.kind == Module && ext.languageModule != 0
      requires forall l :: l in was ==> exists j :: LastProvider(before, l, j) && before[j] == was[l]
      requires forall k :: 0 <= k < |before| && before[k].kind == Module && before[k].languageModule != 0 ==>
                 before[k].manifest.language in was
      requires loadedModules == was[ext.manifest.language := ext]
      ensures Remembers(before + [ext])
    {
      var more := before + [ext];
      assert forall q :: 0 <= q < |before| ==> more[q] == before[q];
      forall l | l in loadedModules
        ensures exists j :: LastProvider(more, l, j) && more[j] == loadedModules[l]
      {
        if l == ext.manifest.language {
          assert LastProvider(more, l, |before|);
        } else {
          var j :| LastProvider(before, l, j) && before[j] == was[l];
          assert LastProvider(more, l, j);
        }
      }
    }

    method ProcessItem(ext: Extension, ghost before: seq<Extension>) returns (ok: bool, ghost calls: seq<Event>)
      requires ext.Traced() && ext.state == Resolved && ext !in before && Remembers(before)
      requires ext.languageModule == 0
      modifies this`loadedModules, ext`state, ext`history, ext`languageModule, ext`table, ext`provider,
               failures.tracker, loader.modules
      ensures ext.Traced() && LoadingResult(old(ext.Now()), ext.Now(), ok)
      ensures LoadCalls(old(ext.Now()), ext.Now(), Snapshots(before), calls)
              && loader.modules.log == old(loader.modules.log) + calls
      ensures Handled(failures, ext.Now(), old(failures.tracker.failed), failures.tracker.failed)
      ensures Remembers(before + [ext])
      ensures || (ext.provider == old(ext.provider) && ext.languageModule == old(ext.languageModule))
              || (ok && ext.kind == Module && ext.provider == null)
              || (ext.kind == Plugin && ProvidedBy(ext, before))
      ensures ok && ext.kind == Plugin ==> ProvidedBy(ext, before)
    {
      if failures.MustSkip(ext) {
        failures.HandleDependencyFailure(ext);
        RemembersMore(before, ext);
        return false, [];
      }
      ok, calls := DoProcessItem(ext, before);
    }

    /** The part of the processing that may fail. */
    method Load(ext: Extension, ghost before: seq<Extension>) returns (ok: bool, ghost calls: seq<Event>)
      requires ext !in before && Remembers(before) && ext.languageModule == 0
      modifies this`loadedModules, ext`languageModule, ext`table, ext`provider, loader.modules
      ensures ext.Now() == old(ext.Now()).(languageModule := ext.languageModule, table := ext.table)
      ensures ok ==> ext.kind != UnknownType && ext.languageModule != 0
      ensures !ok ==> ext.table == old(ext.table) && (ext.kind == Module ==> ext.languageModule == 0)
      ensures LoadAttempt(old(ext.Now()), ext.Now(), Snapshots(before), !ok, calls)
              && loader.modules.log == old(loader.modules.log) + calls
      ensures Remembers(before + [ext])
      ensures || (ext.provider == old(ext.provider) && ext.languageModule == old(ext.languageModule))
              || (ok && ext.kind == Module && ext.provider == null)
              || (ext.kind == Plugin && ProvidedBy(ext, before))
      ensures ok && ext.kind == Plugin ==> ProvidedBy(ext, before)
    {
      hide Remembers, ProvidedBy;
      ok, calls := false, [];
      match ext.kind
      case Module => ok, calls := LoadAsModule(ext, before);
      case Plugin => ok, calls := LoadAsPlugin(ext, before);
      case UnknownType => RemembersMore(before, ext);
    }

    method LoadAsModule(ext: Extension, ghost before: seq<Extension>) returns (ok: bool, ghost calls: seq<Event>)
      requires ext !in before && Remembers(before) && ext.languageModule == 0 && ext.kind == Module
      modifies this`loadedModules, ext`languageModule, ext`table, ext`provider, loader.modules
      ensures ext.Now() == old(ext.Now()).(languageModule := ext.languageModule, table := ext.table)
      ensures if ok then ext.languageModule != 0 && ext.provider == null
              else ext.table == old(ext.table) && ext.languageModule == 0 && ext.provider == old(ext.provider)
      ensures LoadAttempt(old(ext.Now()), ext.Now(), Snapshots(before), !ok, calls)
              && loader.modules.log == old(loader.modules.log) + calls
      ensures Remembers(before + [ext])
    {
      hide LastProvider;
      ghost var answer;
      ok, answer := loader.LoadModule(ext);
      calls := if ext.file.languageModule == 0 then []
               else [AnsweredEvent(OnInitialize, ext.file.languageModule, ext.id, answer)];
      if ok {
        ghost var was := loadedModules;
        loadedModules := loadedModules[ext.manifest.language := ext];
        RemembersLoaded(before, ext, was);
      } else {
        RemembersMore(before, ext);
      }
    }

    method LoadAsPlugin(ext: Extension, ghost before: seq<Extension>) returns (ok: bool, ghost calls: seq<Event>)
      requires ext !in before && Remembers(before) && ext.languageModule == 0 && ext.kind == Plugin
      modifies ext`languageModule, ext`table, ext`provider, loader.modules
      ensures ext.Now() == old(ext.Now()).(languageModule := ext.languageModule, table := ext.table)
      ensures !ok ==> ext.table == old(ext.table)
      ensures LoadAttempt(old(ext.Now()), ext.Now(), Snapshots(before), !ok, calls)
              && loader.modules.log == old(loader.modules.log) + calls
      ensures Remembers(before + [ext])
      ensures (ext.provider == old(ext.provider) && ext.languageModule == 0) || ProvidedBy(ext, before)
      ensures ok ==> ProvidedBy(ext, before) && ext.languageModule != 0
    {
      hide Remembers, LastProvider, ProvidedAddress;
      ok, calls := false, [];
      ghost var j := Remembered(before, ext.manifest.language);
      if ext.manifest.language in loadedModules {
        ghost var answer;
        ok, answer := loader.LoadPlugin(loadedModules[ext.manifest.language], ext);
        calls := [AnsweredEvent(OnPluginLoad, ext.languageModule, ext.id, answer)];
        assert LastProvider(before, ext.manifest.language, j);
      }
      RemembersMore(before, ext);
    }

    method DoProcessItem(ext: Extension, ghost before: seq<Extension>) returns (ok: bool, ghost calls: seq<Event>)
      requires ext.Traced() && ext.state == Resolved && ext !in before && Remembers(before)
      requires ext.languageModule == 0 && !failures.MustSkip(ext)
      modifies this`loadedModules, ext`state, ext`history, ext`languageModule, ext`table, ext`provider,
               failures.tracker, loader.modules
      ensures ext.Traced() && LoadingResult(old(ext.Now()), ext.Now(), ok)
      ensures LoadCalls(old(ext.Now()), ext.Now(), Snapshots(before), calls)
              && loader.modules.log == old(loader.modules.log) + calls
      ensures Handled(failures, ext.Now(), old(failures.tracker.failed), failures.tracker.failed)
      ensures Remembers(before + [ext])
      ensures || (ext.provider == old(ext.provider) && ext.languageModule == old(ext.languageModule))
              || (ok && ext.kind == Module && ext.provider == null)
              || (ext.kind == Plugin && ProvidedBy(ext, before))
      ensures ok && ext.kind == Plugin ==> ProvidedBy(ext, before)
    {
      hide Extension.Traced, IsValidTransition, LoadingStage.Remembers, ProvidedBy, LoadingResult, LoadCalls,
           LoadAttempt, EntriesOf, Provides, Snapshots;
      ghost var was := ext.Now();
      LoadingTransitions();
      ext.StartOperation(Loading);
      ghost var started := ext.Now();
      ok, calls := Load(ext, before);
      ghost var loaded := ext.Now();
      Conclude(ext, ok);
      LoadingResults(was, loaded.languageModule, loaded.table);
      SameAttempt(was, ext.Now(), started, loaded, Snapshots(before), !ok, calls);
    }

    /** A module is running as soon as it is loaded: it is neither exported to nor started. */
    method Conclude(ext: Extension, ok: bool)
      requires ext.Traced() && ext.state == Loading
      modifies ext`state, ext`history, failures.tracker
      ensures ext.Traced()
      ensures ext.Now() == old(ext.Now()).(state := if !ok then Failed else if ext.kind == Module then Running
                                                    else Loaded)
      ensures failures.tracker.failed == old(failures.tracker.failed) + MarkOf(failures.depGraph, ext.Now())
    {
      hide Extension.Traced, IsValidTransition;
      LoadingTransitions();
      if !ok {
        failures.HandleOperationFailure(ext);
      } else {
        ext.EndOperation(Loaded);
        if ext.kind == Module {
          ext.StartOperation(Running);
        }
      }
    }

    /** Processes one extension of a list. */
    method ProcessAt(exts: seq<Extension>, i: nat) returns (ok: bool, ghost calls: seq<Event>)
      requires i < |exts| && Sound(exts) && exts[i].state == Resolved && Remembers(exts[..i])
      requires forall k :: i <= k < |exts| ==> IsEarly(exts[k].state)
      modifies this`loadedModules, exts[i], failures.tracker, loader.modules
      ensures Sound(exts) && Remembers(exts[..i] + [exts[i]])
      ensures LoadingResult(old(exts[i].Now()), exts[i].Now(), ok)
      ensures LoadCalls(old(exts[i].Now()), exts[i].Now(), Snapshots(exts[..i]), calls)
              && loader.modules.log == old(loader.modules.log) + calls
      ensures Handled(failures, exts[i].Now(), old(failures.tracker.failed), failures.tracker.failed)
      ensures forall k :: 0 <= k < |exts| && k != i ==> unchanged(exts[k])
    {
      hide LoadingResult, IsHistory, Sound, Remembers, Extension.Traced, ProvidedBy, IsEarly, LoadCalls, Handled,
           Provides;
      SoundHas(exts, i);
      SoundAround(exts, i);
      ok, calls := ProcessItem(exts[i], exts[..i]);
      LoadedIsBacked(old(exts[i].Now()), exts[i], exts[..i], ok);
      SoundAgain(exts, i);
    }

    method Execute(exts: seq<Extension>) returns (stats: Stats, ghost calls: seq<seq<Event>>)
      requires Sound(exts) && loadedModules == map[] && forall i :: 0 <= i < |exts| ==> IsEarly(exts[i].state)
      modifies this`loadedModules, exts, failures.tracker, loader.modules
      ensures Sound(exts)
      ensures LoadingStageOf.Results(old(Snapshots(exts)), Snapshots(exts), stats.failed)
      ensures stats.succeeded + stats.failed == LoadingStageOf.Work(old(Snapshots(exts)))
              && stats.errors == stats.failed
      ensures stats.itemsIn == stats.itemsOut == |exts|
      ensures loader.modules.log == old(loader.modules.log) + Flatten(calls)
      ensures failures.tracker.failed
              == LoadingStageOf.Marked(failures.depGraph, old(failures.tracker.failed), old(Snapshots(exts)),
                                       Snapshots(exts))
      ensures LoadingStageOf.Tracked(failures, old(failures.tracker.failed), old(Snapshots(exts)), Snapshots(exts), [],
                                     calls)
    {
      hide Sound, Stage.Counted, Stage.Results, LoadingResult, Remembers, IsEarly, LoadCalls, Handled, Stage.Tracked,
           Stage.Marked, Flatten, Provides;
      ghost var was, failed := Snapshots(exts), failures.tracker.failed;
      RemembersNothing();
      stats := Stats(|exts|, |exts|, 0, 0, 0);
      LoadingStageOf.CountedNone(was);
      ghost var done: seq<Snapshot> := [];
      calls := [];
      LoadingStageOf.TrackedNone(failures, failed, was, []);
      for i := 0 to |exts|
        invariant Sound(exts) && Remembers(exts[..i])
        invariant |done| == i && LoadingStageOf.Counted(was, done, stats)
        invariant forall k :: 0 <= k < i ==> done[k] == exts[k].Now()
        invariant forall k :: i <= k < |exts| ==> exts[k].Now() == was[k]
        invariant LoadingStageOf.Tracked(failures, failed, was, done, [], calls)
        invariant failures.tracker.failed == LoadingStageOf.Marked(failures.depGraph, failed, was, done)
        invariant loader.modules.log == old(loader.modules.log) + Flatten(calls)
      {
        ghost var before := stats;
        AnyOrNothing(LoadingStageOf, was[i]);
        var ok := true;
        ghost var more: seq<Event> := [];
        assert done == Snapshots(exts[..i]);
        if ShouldProcess(exts[i]) {
          ok, more := ProcessAt(exts, i);
          if ok {
            stats := stats.(succeeded := stats.succeeded + 1);
          } else {
            stats := stats.(failed := stats.failed + 1, errors := stats.errors + 1);
          }
        } else {
          NotProcessed(exts, i);
          RemembersMore(exts[..i], exts[i]);
        }
        LoadingStageOf.CountedOne(was, done, before, exts[i].Now(), ok, stats);
        LoadingStageOf.TrackedOne(failures, failed, was, done, [], calls, exts[i].Now(), more,
                                 failures.tracker.failed);
        FlattenAppend(calls, more);
        Associative(old(loader.modules.log), Flatten(calls), more);
        done, calls := done + [exts[i].Now()], calls + [more];
        assert exts[..i + 1] == exts[..i] + [exts[i]];
      }
      assert done == Snapshots(exts);
      LoadingStageOf.CountedAll(was, done, stats);
    }
  }

  /** What the calls of loading one extension come to, said without the address that is provided. */
  lemma LoadIs(o: Snapshot, n: Snapshot, before: seq<Extension>, calls: seq<Event>)
    requires LoadCalls(o, n, Snapshots(before), calls)
    requires LoadingResult(o, n, true) || LoadingResult(o, n, false)
    ensures if o.state != Resolved then n == o && calls == []
            else if n.state == Skipped then calls == []
            else if o.kind == UnknownType || (o.kind == Module && o.file.languageModule == 0) then
              n.state == Failed && calls == []
            else if o.kind == Module then
              exists a :: calls == [AnsweredEvent(OnInitialize, o.file.languageModule, o.id, a)]
                && if a.LoadedWith?
                   then n.state == Running && n.languageModule == o.file.languageModule && n.table == a.table
                   else n.state == Failed
            else
              || (&& n.state == Failed && calls == []
                  && forall j :: 0 <= j < |before| ==> !Provides(before[j], o.manifest.language))
              || exists j, a :: LastProvider(before, o.manifest.language, j)
                  && n.languageModule == before[j].languageModule
                  && calls == [AnsweredEvent(OnPluginLoad, before[j].languageModule, o.id, a)]
                  && if a.LoadedWith? then n.state == Loaded && n.table == a.table else n.state == Failed
  {
    hide Snapshots, Provides, ProvidedAddress, LastProvider;
    var j := FindProvider(before, o.manifest.language);
    if o.state == Resolved && n.state != Skipped && calls != [] {
      assert calls == [calls[0]];
    }
  }

  lemma {:induction false} LastOne(before: seq<Extension>, language: string, k: nat) returns (j: int)
    requires k < |before| && Provides(before[k], language)
    ensures LastProvider(before, language, j)
    decreases |before| - k
  {
    if q :| k < q < |before| && Provides(before[q], language) {
      j := LastOne(before, language, q);
    } else {
      j := k;
    }
  }

  lemma FindProvider(before: seq<Extension>, language: string) returns (j: int)
    ensures if ProvidedAddress(Snapshots(before), language) == 0
            then forall k :: 0 <= k < |before| ==> !Provides(before[k], language)
            else LastProvider(before, language, j)
                 && before[j].languageModule == ProvidedAddress(Snapshots(before), language)
  {
    hide Snapshots, Provides, ProvidedAddress, LastProvider;
    j := -1;
    AddressProvided(before, language);
    if k :| 0 <= k < |before| && Provides(before[k], language) {
      j := LastOne(before, language, k);
    }
  }

  lemma NotProcessed(exts: seq<Extension>, i: nat)
    requires i < |exts| && Sound(exts) && IsEarly(exts[i].state)
    ensures exts[i].languageModule == 0
  {
    assert Backed(exts[i]);
  }

  lemma SoundHas(exts: seq<Extension>, i: nat)
    requires i < |exts| && Sound(exts)
    ensures exts[i].Traced() && exts[i] !in exts[..i] && forall k :: 0 <= k < |exts| && k != i ==> exts[k] != exts[i]
    ensures exts[i].state == Resolved ==> exts[i].provider == null && exts[i].languageModule == 0
  {
    assert Backed(exts[i]);
  }

  /** What is sound about the extensions around the i-th, when those behind it are not yet loaded. */
  lemma SoundAround(exts: seq<Extension>, i: nat)
    requires i < |exts| && Sound(exts) && forall k :: i <= k < |exts| ==> IsEarly(exts[k].state)
    ensures Distinct(exts)
    ensures forall k :: 0 <= k < |exts| ==> exts[k].Traced() && Backed(exts[k])
    ensures forall k :: 0 <= k < i && exts[k].provider != null ==>
            exts[k].kind == Plugin
            && ProvidedBy(exts[k], exts[..k])
    ensures forall k :: i < k < |exts| ==> exts[k].provider == null
  {
    forall k | 0 <= k < |exts|
      ensures exts[k].Traced() && Backed(exts[k]) && ProvidedBefore(exts, k)
    {
    }
  }

  lemma SoundAgain(exts: seq<Extension>, i: nat)
    requires i < |exts| && Distinct(exts)
    requires forall k :: 0 <= k < |exts| ==> exts[k].Traced() && Backed(exts[k])
    requires forall k :: 0 <= k <= i && exts[k].provider != null ==>
             exts[k].kind == Plugin
             && ProvidedBy(exts[k], exts[..k])
    requires forall k :: i < k < |exts| ==> exts[k].provider == null
    ensures Sound(exts)
  {
    hide Extension.Traced, ProvidedBy;
    forall k | 0 <= k < |exts|
      ensures ProvidedBefore(exts, k)
    {
    }
  }

  lemma LoadedIsBacked(o: Snapshot, ext: Extension, before: seq<Extension>, ok: bool)
    requires LoadingResult(o, ext.Now(), ok) && o.state == Resolved && o.languageModule == 0
    requires ext.languageModule == 0 || ext.kind == Module || ProvidedBy(ext, before)
    ensures Backed(ext)
  {
  }

  lemma AnyOrNothing(stage: Stage, o: Snapshot)
    ensures !stage.ShouldProcess(o) ==>
              stage.Result(o, o, true) && forall before, running :: stage.Calls(o, o, before, running, [])
  {
  }

  /** A plugin that was past loading and only changed its state is still backed. */
  lemma StillBacked(o: Snapshot, e: Extension)
    requires e.Now() == o.(state := e.state) && e.kind == Plugin && o.languageModule != 0
    requires e.provider != null && !IsEarly(e.state)
    ensures Backed(e)
  {
  }

  lemma PastLoading(exts: seq<Extension>, i: nat)
    requires i < |exts| && Sound(exts) && exts[i].kind == Plugin && NeedsModule(exts[i].state)
    ensures exts[i].languageModule != 0 && exts[i].provider != null && exts[i].Traced()
    ensures forall k :: 0 <= k < |exts| && k != i ==> exts[k] != exts[i]
  {
    assert Backed(exts[i]);
  }

  class ExportingStage {
    const loader: ExtensionLoader
    const failures: Failures
    var runningModules: seq<Extension>

    constructor (loader: ExtensionLoader, failures: Failures)
      ensures this.loader == loader && this.failures == failures && runningModules == []
    {
      this.loader, this.failures, runningModules := loader, failures, [];
    }

    predicate ShouldProcess(ext: Extension)
      reads ext
    {
      ext.state == Loaded && ext.kind == Plugin
    }

    /** The modules to export to have these addresses. */
    ghost predicate Ready(running: seq<Address>)
      reads this, runningModules`languageModule
    {
      && |running| == |runningModules|
      && forall k :: 0 <= k < |running| ==> runningModules[k].languageModule == running[k] != 0
    }

    lemma RunningHaveModules(exts: seq<Extension>, places: seq<nat>)
      requires Sound(exts) && |places| == |runningModules|
      requires forall k :: 0 <= k < |places| ==>
                 places[k] < |exts| && runningModules[k] == exts[places[k]] && exts[places[k]].state == Running
      ensures forall k :: 0 <= k < |places| ==> runningModules[k].languageModule != 0
    {
      forall k | 0 <= k < |places|
        ensures runningModules[k].languageModule != 0
      {
        assert Backed(exts[places[k]]);
      }
    }

    /** Collects the modules that are running, in the order of the list. */
    method Setup(exts: seq<Extension>) returns (ghost places: seq<nat>)
      requires Sound(exts) && runningModules == []
      modifies this`runningModules
      ensures |places| == |runningModules|
      ensures forall k :: 0 <= k < |places| ==>
                places[k] < |exts| && runningModules[k] == exts[places[k]] && exts[places[k]].languageModule != 0
      ensures forall a, b :: 0 <= a < b < |places| ==> places[a] < places[b]
      ensures forall i :: 0 <= i < |exts| ==> (i in places <==> exts[i].kind == Module && exts[i].state == Running)
    {
      hide Sound, Ready;
      places := [];
      for i := 0 to |exts|
        invariant |places| == |runningModules|
        invariant forall k :: 0 <= k < |places| ==> places[k] < i && runningModules[k] == exts[places[k]]
        invariant forall a, b :: 0 <= a < b < |places| ==> places[a] < places[b]
        invariant forall k :: 0 <= k < i ==> (k in places <==> exts[k].kind == Module && exts[k].state == Running)
      {
        if exts[i].kind == Module && exts[i].state == Running {
          runningModules := runningModules + [exts[i]];
          places := places + [i];
        }
      }
      forall k | 0 <= k < |places|
        ensures exts[places[k]].state == Running
      {
        assert places[k] in places;
      }
      RunningHaveModules(exts, places);
    }

    method ProcessItem(ext: Extension, ghost running: seq<Address>) returns (ok: bool, ghost calls: seq<Event>)
      requires ext.Traced() && ext.state == Loaded && ext.kind == Plugin && Ready(running)
      modifies ext`state, ext`history, failures.tracker, loader.modules
      ensures ext.Traced() && ExportingResult(old(ext.Now()), ext.Now(), ok)
      ensures ExportCalls(old(ext.Now()), ext.Now(), running, calls)
              && loader.modules.log == old(loader.modules.log) + calls
      ensures Handled(failures, ext.Now(), old(failures.tracker.failed), failures.tracker.failed)
    {
      hide IsHistory;
      if failures.MustSkip(ext) {
        failures.HandleDependencyFailure(ext);
        return false, [];
      }
      ok, calls := DoProcessItem(ext, running);
    }

    method DoProcessItem(ext: Extension, ghost running: seq<Address>) returns (ok: bool, ghost calls: seq<Event>)
      requires ext.Traced() && ext.state == Loaded && ext.kind == Plugin && Ready(running) && !failures.MustSkip(ext)
      modifies ext`state, ext`history, failures.tracker, loader.modules
      ensures ext.Traced() && ExportingResult(old(ext.Now()), ext.Now(), ok)
      ensures ExportCalls(old(ext.Now()), ext.Now(), running, calls)
              && loader.modules.log == old(loader.modules.log) + calls
      ensures Handled(failures, ext.Now(), old(failures.tracker.failed), failures.tracker.failed)
    {
      hide IsValidTransition, Extension.Traced, EntriesOf;
      ExportingTransitions();
      ext.StartOperation(Exporting);
      calls := [];
      for i := 0 to |runningModules|
        invariant Ready(running) && ext.Traced() && ext.Now() == old(ext.Now()).(state := Exporting)
        invariant loader.modules.log == old(loader.modules.log) + calls
        invariant if !ext.table.hasExport then calls == []
                  else |calls| == i && forall k :: 0 <= k < i ==>
                    calls[k] == AnsweredEvent(OnMethodExport, runningModules[k].languageModule, ext.id, Accepted)
        invariant unchanged(failures.tracker)
      {
        ok := loader.MethodExport(runningModules[i], ext);
        if ext.table.hasExport {
          calls := calls + [AnsweredEvent(OnMethodExport, runningModules[i].languageModule, ext.id,
                                          if ok then Accepted else Refused)];
        }
        if !ok {
          failures.HandleOperationFailure(ext);
          return;
        }
      }
      ext.EndOperation(Exported);
      ok := true;
    }

    method ProcessAt(exts: seq<Extension>, i: nat, ghost running: seq<Address>)
        returns (ok: bool, ghost calls: seq<Event>)
      requires i < |exts| && Sound(exts) && ShouldProcess(exts[i]) && Ready(running)
      modifies exts[i], failures.tracker, loader.modules
      ensures Sound(exts)
      ensures ExportingResult(old(exts[i].Now()), exts[i].Now(), ok)
      ensures ExportCalls(old(exts[i].Now()), exts[i].Now(), running, calls)
              && loader.modules.log == old(loader.modules.log) + calls
      ensures Handled(failures, exts[i].Now(), old(failures.tracker.failed), failures.tracker.failed)
      ensures forall k :: 0 <= k < |exts| && k != i ==> unchanged(exts[k])
      ensures Ready(running)
    {
      hide IsHistory, ExportCalls, Handled;
      PastLoading(exts, i);
      ok, calls := ProcessItem(exts[i], running);
      StillBacked(old(exts[i].Now()), exts[i]);
      forall k | 0 <= k < |exts|
        ensures ProvidedBefore(exts, k) && exts[k].Traced() && Backed(exts[k])
      {
        assert old(ProvidedBefore(exts, k)) && old(Backed(exts[k])) && old(exts[k].Traced());
      }
    }

    /** Processes the extensions of a list, one after the other. */
    method ProcessEach(exts: seq<Extension>, ghost running: seq<Address>)
        returns (stats: Stats, ghost calls: seq<seq<Event>>)
      requires Sound(exts) && Ready(running)
      modifies exts, failures.tracker, loader.modules
      ensures Sound(exts)
      ensures ExportingStageOf.Results(old(Snapshots(exts)), Snapshots(exts), stats.failed)
      ensures stats.succeeded + stats.failed == ExportingStageOf.Work(old(Snapshots(exts)))
              && stats.errors == stats.failed
      ensures stats.itemsIn == stats.itemsOut == |exts|
      ensures loader.modules.log == old(loader.modules.log) + Flatten(calls)
      ensures failures.tracker.failed
              == ExportingStageOf.Marked(failures.depGraph, old(failures.tracker.failed), old(Snapshots(exts)),
                                         Snapshots(exts))
      ensures ExportingStageOf.Tracked(failures, old(failures.tracker.failed), old(Snapshots(exts)), Snapshots(exts),
                                       running, calls)
    {
      hide Sound, Stage.Counted, Stage.Results, ExportingResult, ExportCalls, Handled, Stage.Tracked, Stage.Marked,
           Flatten, Ready;
      ghost var was, failed := Snapshots(exts), failures.tracker.failed;
      stats := Stats(|exts|, |exts|, 0, 0, 0);
      ExportingStageOf.CountedNone(was);
      ghost var done: seq<Snapshot> := [];
      calls := [];
      ExportingStageOf.TrackedNone(failures, failed, was, running);
      for i := 0 to |exts|
        invariant Sound(exts) && Ready(running)
        invariant |done| == i && ExportingStageOf.Counted(was, done, stats)
        invariant forall k :: 0 <= k < i ==> done[k] == exts[k].Now()
        invariant forall k :: i <= k < |exts| ==> exts[k].Now() == was[k]
        invariant ExportingStageOf.Tracked(failures, failed, was, done, running, calls)
        invariant failures.tracker.failed == ExportingStageOf.Marked(failures.depGraph, failed, was, done)
        invariant loader.modules.log == old(loader.modules.log) + Flatten(calls)
      {
        ghost var before := stats;
        AnyOrNothing(ExportingStageOf, was[i]);
        var ok := true;
        ghost var more: seq<Event> := [];
        if ShouldProcess(exts[i]) {
          ok, more := ProcessAt(exts, i, running);
          if ok {
            stats := stats.(succeeded := stats.succeeded + 1);
          } else {
            stats := stats.(failed := stats.failed + 1, errors := stats.errors + 1);
          }
        }
        ExportingStageOf.CountedOne(was, done, before, exts[i].Now(), ok, stats);
        ExportingStageOf.TrackedOne(failures, failed, was, done, running, calls, exts[i].Now(), more,
                                 failures.tracker.failed);
        FlattenAppend(calls, more);
        Associative(old(loader.modules.log), Flatten(calls), more);
        done, calls := done + [exts[i].Now()], calls + [more];
      }
      assert done == Snapshots(exts);
      ExportingStageOf.CountedAll(was, done, stats);
    }

    method Execute(exts: seq<Extension>) returns (stats: Stats, ghost calls: seq<seq<Event>>, ghost places: seq<nat>)
      requires Sound(exts) && runningModules == []
      modifies this`runningModules, exts, failures.tracker, loader.modules
      ensures Sound(exts)
      ensures ExportingStageOf.Results(old(Snapshots(exts)), Snapshots(exts), stats.failed)
      ensures stats.succeeded + stats.failed == ExportingStageOf.Work(old(Snapshots(exts)))
              && stats.errors == stats.failed
      ensures stats.itemsIn == stats.itemsOut == |exts|
      ensures loader.modules.log == old(loader.modules.log) + Flatten(calls)
      ensures (forall a, b :: 0 <= a < b < |places| ==> places[a] < places[b])
              && (forall k :: 0 <= k < |places| ==> places[k] < |exts|)
              && forall i :: 0 <= i < |exts| ==>
                   (i in places <==> exts[i].kind == Module && old(exts[i].state) == Running)
      ensures failures.tracker.failed
              == ExportingStageOf.Marked(failures.depGraph, old(failures.tracker.failed), old(Snapshots(exts)),
                                         Snapshots(exts))
      ensures ExportingStageOf.Tracked(failures, old(failures.tracker.failed), old(Snapshots(exts)), Snapshots(exts),
                                       AddressesAt(old(Snapshots(exts)), places), calls)
      ensures |calls| == |exts| && forall i :: 0 <= i < |exts| ==>
                var o, n := old(exts[i].Now()), exts[i].Now();
                if o.state != Loaded || o.kind != Plugin then n == o && calls[i] == []
                else if n.state == Skipped || !o.table.hasExport then calls[i] == [] && n.state != Failed
                else
                  && (if n.state == Failed then 0 < |calls[i]| <= |places| else |calls[i]| == |places|)
                  && forall k :: 0 <= k < |calls[i]| ==>
                       calls[i][k] == AnsweredEvent(OnMethodExport, old(exts[places[k]].languageModule), o.id,
                         if n.state == Failed && k == |calls[i]| - 1 then Refused else Accepted)
    {
      hide Sound, Stage.Results, Stage.Tracked, Flatten;
      ghost var was, failed := Snapshots(exts), failures.tracker.failed;
      places := Setup(exts);
      stats, calls := ProcessEach(exts, AddressesAt(was, places));
      ExportCallsAre(failures, failed, was, Snapshots(exts), stats.failed, AddressesAt(was, places), calls);
    }
  }

  lemma ExportCallsAre(failures: Failures, failed: set<int>, was: seq<Snapshot>, now: seq<Snapshot>, k: nat,
                   running: seq<Address>, calls: seq<seq<Event>>)
    requires |now| == |was| && ExportingStageOf.Tracked(failures, failed, was, now, running, calls)
    requires ExportingStageOf.Results(was, now, k)
    ensures |calls| == |was| && forall i :: 0 <= i < |was| ==>
              var o, n := was[i], now[i];
              if o.state != Loaded || o.kind != Plugin then n == o && calls[i] == []
              else if n.state == Skipped || !o.table.hasExport then calls[i] == [] && n.state != Failed
              else
                && (if n.state == Failed then 0 < |calls[i]| <= |running| else |calls[i]| == |running|)
                && forall k :: 0 <= k < |calls[i]| ==>
                     calls[i][k] == AnsweredEvent(OnMethodExport, running[k], o.id,
                       if n.state == Failed && k == |calls[i]| - 1 then Refused else Accepted)
  {
    forall i | 0 <= i < |was|
      ensures ExportingStageOf.Calls(was[i], now[i], now[..i], running, calls[i])
      ensures ExportingStageOf.Result(was[i], now[i], true) || ExportingStageOf.Result(was[i], now[i], false)
    {
    }
  }

  ghost function AddressesAt(s: seq<Snapshot>, places: seq<nat>): seq<Address>
    requires forall k :: 0 <= k < |places| ==> places[k] < |s|
  {
    seq(|places|, k requires 0 <= k < |places| => s[places[k]].languageModule)
  }

  lemma StartCallsAre(failures: Failures, failed: set<int>, was: seq<Snapshot>, now: seq<Snapshot>, k: nat,
                  calls: seq<seq<Event>>)
    requires |now| == |was| && StartingStageOf.Tracked(failures, failed, was, now, [], calls)
    requires StartingStageOf.Results(was, now, k)
    ensures |calls| == |was| && forall i :: 0 <= i < |was| ==>
              var o, n := was[i], now[i];
              if o.state != Exported || o.kind != Plugin then n == o && calls[i] == []
              else
                && (n.state == Running || (n.state == Failed && o.table.hasStart) || n.state == Skipped)
                && calls[i] == if !o.table.hasStart || n.state == Skipped then []
                               else [AnsweredEvent(OnPluginStart, o.languageModule, o.id,
                                                   if n.state == Failed then Refused else Accepted)]
  {
    forall i | 0 <= i < |was|
      ensures StartingStageOf.Calls(was[i], now[i], now[..i], [], calls[i])
      ensures StartingStageOf.Result(was[i], now[i], true) || StartingStageOf.Result(was[i], now[i], false)
    {
    }
  }

  class StartingStage {
    const loader: ExtensionLoader
    const failures: Failures

    constructor (loader: ExtensionLoader, failures: Failures)
      ensures this.loader == loader && this.failures == failures
    {
      this.loader, this.failures := loader, failures;
    }

    predicate ShouldProcess(ext: Extension)
      reads ext
    {
      ext.state == Exported && ext.kind == Plugin
    }

    method ProcessItem(ext: Extension) returns (ok: bool, ghost calls: seq<Event>)
      requires ext.Traced() && ext.state == Exported && ext.kind == Plugin && ext.languageModule != 0
      modifies ext`state, ext`history, failures.tracker, loader.modules
      ensures ext.Traced() && StartingResult(old(ext.Now()), ext.Now(), ok)
      ensures StartCalls(old(ext.Now()), ext.Now(), calls) && loader.modules.log == old(loader.modules.log) + calls
      ensures Handled(failures, ext.Now(), old(failures.tracker.failed), failures.tracker.failed)
    {
      hide IsHistory;
      if failures.MustSkip(ext) {
        failures.HandleDependencyFailure(ext);
        return false, [];
      }
      ok, calls := DoProcessItem(ext);
    }

    method DoProcessItem(ext: Extension) returns (ok: bool, ghost calls: seq<Event>)
      requires ext.Traced() && ext.state == Exported && ext.kind == Plugin && ext.languageModule != 0
      requires !failures.MustSkip(ext)
      modifies ext`state, ext`history, failures.tracker, loader.modules
      ensures ext.Traced() && StartingResult(old(ext.Now()), ext.Now(), ok)
      ensures StartCalls(old(ext.Now()), ext.Now(), calls) && loader.modules.log == old(loader.modules.log) + calls
      ensures Handled(failures, ext.Now(), old(failures.tracker.failed), failures.tracker.failed)
    {
      hide IsValidTransition, Extension.Traced, EntriesOf;
      StartingTransitions();
      ext.StartOperation(Starting);
      ok := loader.StartPlugin(ext);
      calls := if !ext.table.hasStart then []
               else [AnsweredEvent(OnPluginStart, ext.languageModule, ext.id, if ok then Accepted else Refused)];
      if !ok {
        failures.HandleOperationFailure(ext);
        return;
      }
      ext.EndOperation(Started);
      ext.StartOperation(Running);
    }

    method ProcessAt(exts: seq<Extension>, i: nat) returns (ok: bool, ghost calls: seq<Event>)
      requires i < |exts| && Sound(exts) && ShouldProcess(exts[i])
      modifies exts[i], failures.tracker, loader.modules
      ensures Sound(exts)
      ensures StartingResult(old(exts[i].Now()), exts[i].Now(), ok)
      ensures StartCalls(old(exts[i].Now()), exts[i].Now(), calls)
              && loader.modules.log == old(loader.modules.log) + calls
      ensures Handled(failures, exts[i].Now(), old(failures.tracker.failed), failures.tracker.failed)
      ensures forall k :: 0 <= k < |exts| && k != i ==> unchanged(exts[k])
    {
      hide IsHistory, StartCalls, Handled;
      PastLoading(exts, i);
      ok, calls := ProcessItem(exts[i]);
      StillBacked(old(exts[i].Now()), exts[i]);
      forall k | 0 <= k < |exts|
        ensures ProvidedBefore(exts, k) && exts[k].Traced() && Backed(exts[k])
      {
        assert old(ProvidedBefore(exts, k)) && old(Backed(exts[k])) && old(exts[k].Traced());
      }
    }

    method Execute(exts: seq<Extension>) returns (stats: Stats, ghost calls: seq<seq<Event>>)
      requires Sound(exts)
      modifies exts, failures.tracker, loader.modules
      ensures Sound(exts)
      ensures StartingStageOf.Results(old(Snapshots(exts)), Snapshots(exts), stats.failed)
      ensures stats.succeeded + stats.failed == StartingStageOf.Work(old(Snapshots(exts)))
              && stats.errors == stats.failed
      ensures stats.itemsIn == stats.itemsOut == |exts|
      ensures loader.modules.log == old(loader.modules.log) + Flatten(calls)
      ensures failures.tracker.failed
              == StartingStageOf.Marked(failures.depGraph, old(failures.tracker.failed), old(Snapshots(exts)),
                                        Snapshots(exts))
      ensures StartingStageOf.Tracked(failures, old(failures.tracker.failed), old(Snapshots(exts)), Snapshots(exts), [],
                                      calls)
      ensures |calls| == |exts| && forall i :: 0 <= i < |exts| ==>
                var o, n := old(exts[i].Now()), exts[i].Now();
                if o.state != Exported || o.kind != Plugin then n == o && calls[i] == []
                else
                  && (n.state == Running || (n.state == Failed && o.table.hasStart) || n.state == Skipped)
                  && calls[i] == if !o.table.hasStart || n.state == Skipped then []
                                 else [AnsweredEvent(OnPluginStart, o.languageModule, o.id,
                                                     if n.state == Failed then Refused else Accepted)]
    {
      hide Sound, Stage.Counted, Stage.Results, StartingResult, StartCalls, Handled, Stage.Tracked, Stage.Marked,
           Flatten;
      ghost var was, failed := Snapshots(exts), failures.tracker.failed;
      stats := Stats(|exts|, |exts|, 0, 0, 0);
      StartingStageOf.CountedNone(was);
      ghost var done: seq<Snapshot> := [];
      calls := [];
      StartingStageOf.TrackedNone(failures, failed, was, []);
      for i := 0 to |exts|
        invariant Sound(exts)
        invariant |done| == i && StartingStageOf.Counted(was, done, stats)
        invariant forall k :: 0 <= k < i ==> done[k] == exts[k].Now()
        invariant forall k :: i <= k < |exts| ==> exts[k].Now() == was[k]
        invariant StartingStageOf.Tracked(failures, failed, was, done, [], calls)
        invariant failures.tracker.failed == StartingStageOf.Marked(failures.depGraph, failed, was, done)
        invariant loader.modules.log == old(loader.modules.log) + Flatten(calls)
      {
        ghost var before := stats;
        AnyOrNothing(StartingStageOf, was[i]);
        var ok := true;
        ghost var more: seq<Event> := [];
        if ShouldProcess(exts[i]) {
          ok, more := ProcessAt(exts, i);
          if ok {
            stats := stats.(succeeded := stats.succeeded + 1);
          } else {
            stats := stats.(failed := stats.failed + 1, errors := stats.errors + 1);
          }
        }
        StartingStageOf.CountedOne(was, done, before, exts[i].Now(), ok, stats);
        StartingStageOf.TrackedOne(failures, failed, was, done, [], calls, exts[i].Now(), more,
                                 failures.tracker.failed);
        FlattenAppend(calls, more);
        Associative(old(loader.modules.log), Flatten(calls), more);
        done, calls := done + [exts[i].Now()], calls + [more];
      }
      assert done == Snapshots(exts);
      StartingStageOf.CountedAll(was, done, stats);
      StartCallsAre(failures, failed, was, done, stats.failed, calls);
    }
  }
}
