/**
 * What has happened to a list of extensions once some of the stages have been run over it: which of them are to be
 * loaded, the calls that were made for each, and which of them were skipped.
 */
module StartupRuns {
  import opened Blocks
  import opened Wrappers
  import opened Extensions
  import opened ExtensionLoading
  import opened StartupStages
  import opened ExtensionResolution

  /** The calls that each stage has made for each extension, and the places of the modules that were exported to. */
  datatype Calls = Calls(loads: seq<seq<Event>>, exports: seq<seq<Event>>, starts: seq<seq<Event>>,
                         running: seq<nat>) {
    function All(): seq<Event> {
      Flatten(loads) + Flatten(exports) + Flatten(starts)
    }
  }

  /** The extension is not among those to load. */
  predicate Excluded(s: Snapshot) {
    s.state == Disabled || s.state == Unresolved
  }

  /** It was parsed, and the policy and the resolver decided whether it is to be loaded. */
  ghost predicate Decided(s: Snapshot, policy: Policy, order: seq<int>) {
    && s.file.manifest == Some(s.manifest)
    && s.state != Parsed && s.state != Resolving && s.state != Corrupted
    && (s.state == Disabled <==> !Included(s.(state := Parsed), policy))
    && (s.state == Unresolved ==> s.id !in order)
    && (!Excluded(s) ==> s.id in order)
  }

  /** Those to load come first, in the order in which the load order first names them. */
  ghost predicate Ordered(s: seq<Snapshot>, order: seq<int>) {
    forall i, j :: 0 <= i < j < |s| && !Excluded(s[j]) ==> !Excluded(s[i]) && Before(order, s[i].id, s[j].id)
  }

  /** The call for loading the extension, where last says that loading was the last stage that was run. */
  ghost predicate LoadMade(n: Snapshot, before: seq<Snapshot>, calls: seq<Event>, last: bool) {
    if Excluded(n) || (last && n.state == Skipped) then calls == []
    else LoadAttempt(n.(state := Resolved, languageModule := 0), n, before, last && n.state == Failed, calls)
  }

  ghost predicate ExportMade(n: Snapshot, running: seq<Address>, calls: seq<Event>, last: bool) {
    if n.kind != Plugin || Excluded(n) || (last && n.state == Skipped) then calls == []
    else ExportCalls(n.(state := Loaded), n.(state := if last && n.state == Failed then Failed else Exported), running,
                     calls)
  }

  ghost predicate StartMade(n: Snapshot, calls: seq<Event>) {
    if n.kind != Plugin || Excluded(n) then calls == [] else StartCalls(n.(state := Exported), n, calls)
  }

  ghost predicate LoadsMade(s: seq<Snapshot>, loads: seq<seq<Event>>, last: bool) {
    |loads| == |s| && forall i :: 0 <= i < |s| ==> LoadMade(s[i], s[..i], loads[i], last)
  }

  ghost predicate ExportsMade(s: seq<Snapshot>, running: seq<nat>, exports: seq<seq<Event>>, last: bool) {
    && (forall k :: 0 <= k < |running| ==> running[k] < |s|)
    && (forall a, b :: 0 <= a < b < |running| ==> running[a] < running[b])
    && (forall i :: 0 <= i < |s| ==> (i in running <==> s[i].kind == Module && s[i].state == Running))
    && |exports| == |s|
    && forall i :: 0 <= i < |s| ==> ExportMade(s[i], AddressesAt(s, running), exports[i], last)
  }

  ghost predicate StartsMade(s: seq<Snapshot>, starts: seq<seq<Event>>) {
    |starts| == |s| && forall i :: 0 <= i < |s| ==> StartMade(s[i], starts[i])
  }

  /** One of the extensions in front failed and has d as its id or entry, or was skipped and has it as its id. */
  ghost predicate MarkedInFront(s: seq<Snapshot>, i: nat, depGraph: Graph, d: int)
    requires i <= |s|
  {
    exists k :: 0 <= k < i && d in MarkOf(depGraph, s[k])
  }

  /** Of the extensions that the last stage processed those were skipped that have an entry that is marked. */
  ghost predicate SkipsMade(s: seq<Snapshot>, answer: Report, stages: nat) {
    forall i :: 0 <= i < |s| && !Excluded(s[i]) && (stages == 3 || s[i].kind == Plugin) ==>
      (s[i].state == Skipped <==>
       exists d :: d in EntriesOf(answer.reverseDepGraph, s[i].id) && MarkedInFront(s, i, answer.depGraph, d))
  }

  /** All that is known after the given number of stages, of which only the last one may have counted failures. */
  ghost predicate Progress(s: seq<Snapshot>, stages: nat, clean: bool, policy: Policy, answer: Report, c: Calls) {
    && (stages == 1 && clean ==> forall i :: 0 <= i < |s| ==> s[i].file.manifest == Some(s[i].manifest))
    && (stages > 2 || (stages == 2 && clean) ==>
          Ordered(s, answer.loadOrder) && forall i :: 0 <= i < |s| ==> Decided(s[i], policy, answer.loadOrder))
    && (if stages < 3 then c.loads == [] else LoadsMade(s, c.loads, stages == 3))
    && (if stages < 4 then c.exports == [] && c.running == [] else ExportsMade(s, c.running, c.exports, stages == 4))
    && (if stages < 5 then c.starts == [] else StartsMade(s, c.starts))
    && (stages > 2 ==> SkipsMade(s, answer, stages))
  }

  // --- what one more stage leaves as it was ---------------------------------------------------------

  /** How one of the last three stages may change an extension that has been decided about. */
  ghost predicate Later(o: Snapshot, n: Snapshot) {
    && n == o.(state := n.state, languageModule := n.languageModule, table := n.table)
    && (Excluded(o) ==> n == o) && (!Excluded(o) ==> !Excluded(n))
    && n.state != Parsed && n.state != Resolving && n.state != Corrupted
  }

  lemma ResultIsLater(stage: Stage, o: Snapshot, n: Snapshot, ok: bool, policy: Policy, order: seq<int>)
    requires !stage.ParsingStageOf? && stage.Result(o, n, ok) && Decided(o, policy, order)
    ensures Later(o, n) && Decided(n, policy, order)
    ensures !stage.LoadingStageOf? ==> n == o.(state := n.state)
  {
  }

  lemma ResultsAreLater(stage: Stage, o: seq<Snapshot>, n: seq<Snapshot>, failed: nat, policy: Policy, order: seq<int>)
    requires !stage.ParsingStageOf? && stage.Results(o, n, failed)
    requires Ordered(o, order) && forall i :: 0 <= i < |o| ==> Decided(o[i], policy, order)
    ensures |n| == |o| && Ordered(n, order)
    ensures forall i :: 0 <= i < |n| ==> Later(o[i], n[i]) && Decided(n[i], policy, order)
    ensures !stage.LoadingStageOf? ==> forall i :: 0 <= i < |n| ==> n[i] == o[i].(state := n[i].state)
  {
    hide Decided, Before, Stage.Result;
    forall i | 0 <= i < |n|
      ensures Later(o[i], n[i]) && Decided(n[i], policy, order)
      ensures !stage.LoadingStageOf? ==> n[i] == o[i].(state := n[i].state)
    {
      if stage.Result(o[i], n[i], true) {
        ResultIsLater(stage, o[i], n[i], true, policy, order);
      } else {
        ResultIsLater(stage, o[i], n[i], false, policy, order);
      }
    }
  }

  /** A state alone makes no difference for which address is provided. */
  lemma {:induction false} SameProvided(a: seq<Snapshot>, b: seq<Snapshot>, language: string)
    requires |a| == |b| && forall k :: 0 <= k < |a| ==> b[k] == a[k].(state := b[k].state)
    ensures ProvidedAddress(a, language) == ProvidedAddress(b, language)
  {
    if a != [] {
      SameProvided(a[..|a| - 1], b[..|b| - 1], language);
    }
  }

  lemma LoadsStay(o: seq<Snapshot>, n: seq<Snapshot>, loads: seq<seq<Event>>, last: bool)
    requires LoadsMade(o, loads, last) && |n| == |o|
    requires forall i :: 0 <= i < |o| ==>
               && n[i] == o[i].(state := n[i].state) && (Excluded(o[i]) <==> Excluded(n[i]))
               && o[i].state != Failed && o[i].state != Skipped
    ensures LoadsMade(n, loads, false)
  {
    hide ProvidedAddress;
    forall i | 0 <= i < |n|
      ensures LoadMade(n[i], n[..i], loads[i], false)
    {
      assert LoadMade(o[i], o[..i], loads[i], last);
      SameProvided(o[..i], n[..i], o[i].manifest.language);
    }
  }

  lemma ExportsStay(o: seq<Snapshot>, n: seq<Snapshot>, running: seq<nat>, exports: seq<seq<Event>>, last: bool)
    requires ExportsMade(o, running, exports, last) && |n| == |o|
    requires forall i :: 0 <= i < |o| ==>
               && n[i] == o[i].(state := n[i].state) && (Excluded(o[i]) <==> Excluded(n[i]))
               && o[i].state != Failed && o[i].state != Skipped
               && (o[i].kind == Module ==> n[i] == o[i])
    ensures ExportsMade(n, running, exports, false)
  {
    assert AddressesAt(o, running) == AddressesAt(n, running);
    forall i | 0 <= i < |n|
      ensures ExportMade(n[i], AddressesAt(n, running), exports[i], false)
    {
      assert ExportMade(o[i], AddressesAt(o, running), exports[i], last);
    }
  }

  // --- which extensions a stage skips ---------------------------------------------------------------

  lemma {:induction false} MarkedIff(stage: Stage, depGraph: Graph, o: seq<Snapshot>, n: seq<Snapshot>, i: nat, d: int)
    requires i <= |n| == |o|
    requires forall k :: 0 <= k < i && !stage.ShouldProcess(o[k]) ==> MarkOf(depGraph, n[k]) == {}
    ensures d in stage.Marked(depGraph, {}, o, n[..i]) <==> MarkedInFront(n, i, depGraph, d)
  {
    hide MarkOf, Stage.ShouldProcess;
    if i > 0 {
      MarkedIff(stage, depGraph, o, n, i - 1, d);
      assert n[..i][..i - 1] == n[..i - 1] && n[..i][i - 1] == n[i - 1];
      assert MarkedInFront(n, i, depGraph, d)
             <==> MarkedInFront(n, i - 1, depGraph, d) || d in MarkOf(depGraph, n[i - 1]);
    }
  }

  /** A stage without a failure marks nothing. */
  lemma NothingMarked(stage: Stage, depGraph: Graph, o: seq<Snapshot>, n: seq<Snapshot>)
    requires stage.Results(o, n, 0) && forall k :: 0 <= k < |o| ==> o[k].state != Failed && o[k].state != Skipped
    ensures stage.Marked(depGraph, {}, o, n) == {}
    ensures forall k :: 0 <= k < |n| ==> n[k].state != Failed && n[k].state != Skipped
  {
    forall k | 0 <= k < |n|
      ensures n[k].state != Failed && n[k].state != Skipped
    {
      assert stage.Result(o[k], n[k], true);
    }
    forall d
      ensures d !in stage.Marked(depGraph, {}, o, n)
    {
      MarkedIff(stage, depGraph, o, n, |n|, d);
      assert n[..|n|] == n;
    }
  }

  lemma SkipsTracked(stage: Stage, failures: Failures, o: seq<Snapshot>, n: seq<Snapshot>, failed: nat, answer: Report,
                     running: seq<Address>, calls: seq<seq<Event>>, stages: nat)
    requires stage.Tracked(failures, {}, o, n, running, calls) && stage.Results(o, n, failed)
    requires o != [] ==> failures.depGraph == answer.depGraph && failures.reverseDepGraph == answer.reverseDepGraph
    requires forall k :: 0 <= k < |o| ==> o[k].state != Failed && o[k].state != Skipped
    requires forall k :: 0 <= k < |n| && !Excluded(n[k]) && (stages == 3 || n[k].kind == Plugin) ==>
               stage.ShouldProcess(o[k])
    ensures SkipsMade(n, answer, stages)
  {
    hide MarkOf, EntriesOf, Stage.Calls, Stage.Marked;
    forall k | 0 <= k < |n| && !stage.ShouldProcess(o[k])
      ensures MarkOf(answer.depGraph, n[k]) == {}
    {
      NotProcessedNotMarked(stage, answer.depGraph, o[k], n[k]);
    }
    forall i, d | 0 <= i < |n|
      ensures d in stage.Marked(answer.depGraph, {}, o, n[..i]) <==> MarkedInFront(n, i, answer.depGraph, d)
    {
      MarkedIff(stage, answer.depGraph, o, n, i, d);
    }
  }

  lemma NotProcessedNotMarked(stage: Stage, depGraph: Graph, o: Snapshot, n: Snapshot)
    requires (stage.Result(o, n, true) || stage.Result(o, n, false)) && !stage.ShouldProcess(o)
    requires o.state != Failed && o.state != Skipped
    ensures MarkOf(depGraph, n) == {}
  {
  }

  // --- one more stage ---------------------------------------------------------------------------------

  lemma ParsingProgress(o: seq<Snapshot>, n: seq<Snapshot>, failed: nat, policy: Policy, answer: Report, c: Calls)
    requires Progress(o, 0, true, policy, answer, c) && ParsingStageOf.Results(o, n, failed)
    requires forall i :: 0 <= i < |o| ==> o[i].state == Discovered
    ensures Progress(n, 1, failed == 0, policy, answer, c)
  {
    if failed == 0 {
      forall i | 0 <= i < |n|
        ensures n[i].file.manifest == Some(n[i].manifest)
      {
        assert ParsingStageOf.Result(o[i], n[i], true);
      }
    }
  }

  lemma DecidedNow(o: Snapshot, n: Snapshot, policy: Policy, order: seq<int>)
    requires o.state == Parsed && o.file.manifest == Some(o.manifest) && ResolutionResult(o, n, policy, true, order)
    ensures Decided(n, policy, order) && (Excluded(n) || n.state == Resolved)
  {
    assert Included(n.(state := Parsed), policy) <==> Included(o, policy);
  }

  lemma ResolutionProgress(items: seq<Extension>, was: seq<Snapshot>, result: seq<Extension>, policy: Policy,
                           answer: Report, c: Calls)
    requires |was| == |items| && Progress(was, 1, true, policy, answer, c) && SameExtensions(result, items)
    requires forall i :: 0 <= i < |was| ==> was[i].state == Parsed
    requires forall i :: 0 <= i < |items| ==> ResolutionResult(was[i], items[i].Now(), policy, true, answer.loadOrder)
    requires forall i, j :: 0 <= i < j < |result| && result[j].state == Resolved ==>
               result[i].state == Resolved && Before(answer.loadOrder, result[i].id, result[j].id)
    ensures Progress(Snapshots(result), 2, true, policy, answer, c)
  {
    hide Decided, Before, ResolutionResult;
    forall i | 0 <= i < |items|
      ensures Decided(items[i].Now(), policy, answer.loadOrder)
              && (Excluded(items[i].Now()) || items[i].state == Resolved)
    {
      DecidedNow(was[i], items[i].Now(), policy, answer.loadOrder);
    }
    forall k | 0 <= k < |result|
      ensures Decided(result[k].Now(), policy, answer.loadOrder)
              && (Excluded(result[k].Now()) || result[k].state == Resolved)
    {
      assert result[k] in multiset(result) && result[k] in multiset(items);
      assert result[k] in items;
    }
  }

  lemma NoProgress(s: seq<Snapshot>, policy: Policy, answer: Report)
    ensures Progress(s, 0, true, policy, answer, Calls([], [], [], [])) && Calls([], [], [], []).All() == []
  {
  }

  /** A resolution that does not succeed makes no calls. */
  lemma FailedProgress(was: seq<Snapshot>, now: seq<Snapshot>, policy: Policy, answer: Report, c: Calls)
    requires Progress(was, 1, true, policy, answer, c)
    ensures Progress(now, 2, false, policy, answer, c) && (now == [] ==> Progress(now, 2, true, policy, answer, c))
  {
  }

  /** The calls of one more stage come behind those of the others. */
  lemma OneMoreStageOfCalls(s: seq<Snapshot>, stages: nat, policy: Policy, answer: Report, c: Calls,
                            calls: seq<seq<Event>>, running: seq<nat>)
    requires Progress(s, stages, true, policy, answer, c)
    ensures stages == 2 ==> c.(loads := calls).All() == c.All() + Flatten(calls)
    ensures stages == 3 ==> c.(exports := calls, running := running).All() == c.All() + Flatten(calls)
    ensures stages == 4 ==> c.(starts := calls).All() == c.All() + Flatten(calls)
  {
    hide LoadsMade, ExportsMade, StartsMade, SkipsMade, Ordered, Decided;
    assert stages < 5 ==> Flatten(c.starts) == [];
    assert stages < 4 ==> Flatten(c.exports) == [];
    assert stages < 3 ==> Flatten(c.loads) == [];
  }

  lemma LoadedNow(o: Snapshot, n: Snapshot, before: seq<Snapshot>, calls: seq<Event>)
    requires LoadingStageOf.Calls(o, n, before, [], calls) && Later(o, n)
    requires (Excluded(o) || o.state == Resolved) && o.languageModule == 0
    ensures LoadMade(n, before, calls, true)
    ensures o.state != Failed && o.state != Skipped && (!Excluded(n) ==> LoadingStageOf.ShouldProcess(o))
  {
    hide ProvidedAddress;
  }

  lemma ExportedNow(o: Snapshot, n: Snapshot, before: seq<Snapshot>, running: seq<Address>, calls: seq<Event>)
    requires ExportingStageOf.Calls(o, n, before, running, calls) && Later(o, n) && ToExport(o)
    requires ExportingStageOf.Result(o, n, true) || ExportingStageOf.Result(o, n, false)
    ensures ExportMade(n, running, calls, true)
    ensures o.state != Failed && o.state != Skipped && (Excluded(n) <==> Excluded(o))
    ensures (o.kind == Module ==> n == o) && (n.kind == Plugin && !Excluded(n) ==> ExportingStageOf.ShouldProcess(o))
  {
  }

  lemma StartedNow(o: Snapshot, n: Snapshot, before: seq<Snapshot>, calls: seq<Event>)
    requires StartingStageOf.Calls(o, n, before, [], calls) && Later(o, n) && ToStart(o)
    requires StartingStageOf.Result(o, n, true) || StartingStageOf.Result(o, n, false)
    ensures StartMade(n, calls)
    ensures o.state != Failed && o.state != Skipped && (Excluded(n) <==> Excluded(o))
    ensures (o.kind == Module ==> n == o) && (n.kind == Plugin && !Excluded(n) ==> StartingStageOf.ShouldProcess(o))
  {
  }

  lemma LoadingProgress(failures: Failures, o: seq<Snapshot>, n: seq<Snapshot>, failed: nat, policy: Policy,
                        answer: Report, c: Calls, calls: seq<seq<Event>>)
    requires Progress(o, 2, true, policy, answer, c) && LoadingStageOf.Results(o, n, failed)
    requires LoadingStageOf.Tracked(failures, {}, o, n, [], calls)
    requires o != [] ==> failures.depGraph == answer.depGraph && failures.reverseDepGraph == answer.reverseDepGraph
    requires forall i :: 0 <= i < |o| ==> (Excluded(o[i]) || o[i].state == Resolved) && o[i].languageModule == 0
    ensures Progress(n, 3, failed == 0, policy, answer, c.(loads := calls))
  {
    hide Decided, Ordered, Before, SkipsMade, ProvidedAddress, Stage.Marked, EntriesOf, Stage.Calls, Stage.Result,
         LoadMade, ExportMade, StartMade, Excluded, ToExport, ToStart, Stage.ShouldProcess;
    ResultsAreLater(LoadingStageOf, o, n, failed, policy, answer.loadOrder);
    forall i | 0 <= i < |n|
      ensures LoadMade(n[i], n[..i], calls[i], true)
      ensures o[i].state != Failed && o[i].state != Skipped && (!Excluded(n[i]) ==> LoadingStageOf.ShouldProcess(o[i]))
    {
      LoadedNow(o[i], n[i], n[..i], calls[i]);
    }
    SkipsTracked(LoadingStageOf, failures, o, n, failed, answer, [], calls, 3);
  }

  /** What is left to do after loading without a failure. */
  predicate ToExport(s: Snapshot) {
    Excluded(s) || (s.kind == Module && s.state == Running) || (s.kind == Plugin && s.state == Loaded)
  }

  predicate ToStart(s: Snapshot) {
    Excluded(s) || (s.kind == Module && s.state == Running) || (s.kind == Plugin && s.state == Exported)
  }

  lemma ExportingProgress(failures: Failures, o: seq<Snapshot>, n: seq<Snapshot>, failed: nat, policy: Policy,
                          answer: Report, c: Calls, calls: seq<seq<Event>>, running: seq<nat>)
    requires Progress(o, 3, true, policy, answer, c) && ExportingStageOf.Results(o, n, failed)
    requires (forall k :: 0 <= k < |running| ==> running[k] < |o|)
             && (forall a, b :: 0 <= a < b < |running| ==> running[a] < running[b])
    requires forall i :: 0 <= i < |o| ==> (i in running <==> o[i].kind == Module && o[i].state == Running)
    requires ExportingStageOf.Tracked(failures, {}, o, n, AddressesAt(o, running), calls)
    requires o != [] ==> failures.depGraph == answer.depGraph && failures.reverseDepGraph == answer.reverseDepGraph
    requires forall i :: 0 <= i < |o| ==> ToExport(o[i])
    ensures Progress(n, 4, failed == 0, policy, answer, c.(exports := calls, running := running))
  {
    hide Decided, Ordered, Before, SkipsMade, LoadsMade, Stage.Marked, EntriesOf, Stage.Calls, Stage.Result,
         LoadMade, ExportMade, StartMade, Excluded, ToExport, ToStart, Stage.ShouldProcess;
    ResultsAreLater(ExportingStageOf, o, n, failed, policy, answer.loadOrder);
    assert AddressesAt(o, running) == AddressesAt(n, running);
    forall i | 0 <= i < |n|
      ensures ExportMade(n[i], AddressesAt(n, running), calls[i], true)
      ensures o[i].state != Failed && o[i].state != Skipped && (Excluded(n[i]) <==> Excluded(o[i]))
      ensures n[i].kind == Module ==> n[i] == o[i]
      ensures n[i].kind == Plugin && !Excluded(n[i]) ==> ExportingStageOf.ShouldProcess(o[i])
    {
      ExportedNow(o[i], n[i], n[..i], AddressesAt(o, running), calls[i]);
    }
    LoadsStay(o, n, c.loads, true);
    SkipsTracked(ExportingStageOf, failures, o, n, failed, answer, AddressesAt(o, running), calls, 4);
  }

  lemma StartingProgress(failures: Failures, o: seq<Snapshot>, n: seq<Snapshot>, failed: nat, policy: Policy,
                         answer: Report, c: Calls, calls: seq<seq<Event>>)
    requires Progress(o, 4, true, policy, answer, c) && StartingStageOf.Results(o, n, failed)
    requires StartingStageOf.Tracked(failures, {}, o, n, [], calls)
    requires o != [] ==> failures.depGraph == answer.depGraph && failures.reverseDepGraph == answer.reverseDepGraph
    requires forall i :: 0 <= i < |o| ==> ToStart(o[i])
    ensures Progress(n, 5, failed == 0, policy, answer, c.(starts := calls))
  {
    hide Decided, Ordered, Before, SkipsMade, LoadsMade, ExportsMade, Stage.Marked, EntriesOf, Stage.Calls,
         Stage.Result, LoadMade, ExportMade, StartMade, Excluded, ToExport, ToStart, Stage.ShouldProcess;
    ResultsAreLater(StartingStageOf, o, n, failed, policy, answer.loadOrder);
    forall i | 0 <= i < |n|
      ensures StartMade(n[i], calls[i]) && (o[i].kind == Module ==> n[i] == o[i])
      ensures o[i].state != Failed && o[i].state != Skipped && (Excluded(n[i]) <==> Excluded(o[i]))
      ensures n[i].kind == Plugin && !Excluded(n[i]) ==> StartingStageOf.ShouldProcess(o[i])
    {
      StartedNow(o[i], n[i], n[..i], calls[i]);
    }
    LoadsStay(o, n, c.loads, false);
    ExportsStay(o, n, c.running, c.exports, true);
    SkipsTracked(StartingStageOf, failures, o, n, failed, answer, [], calls, 5);
  }

  // --- what that comes to, extension by extension -----------------------------------------------------

  lemma DecidedMeans(s: Snapshot, policy: Policy, order: seq<int>)
    requires Decided(s, policy, order)
    ensures s.file.manifest == Some(s.manifest)
    ensures var name, platforms := s.manifest.name, s.manifest.platforms;
            var excluded := || (policy.whitelist != {} && name !in policy.whitelist) || name in policy.blacklist
                            || (platforms != [] && policy.platform !in platforms);
            && (s.state == Disabled <==> excluded) && (s.state == Unresolved <==> !excluded && s.id !in order)
  {
  }

  /** Which extensions are running, if none failed, and in which order. */
  lemma StatesAre(exts: seq<Extension>, policy: Policy, answer: Report, c: Calls)
    requires Progress(Snapshots(exts), 5, true, policy, answer, c)
    requires forall i :: 0 <= i < |exts| ==> exts[i].state == Running || Excluded(exts[i].Now())
    ensures forall i :: 0 <= i < |exts| ==>
              var n := exts[i].Now();
              var name, platforms := n.manifest.name, n.manifest.platforms;
              && n.file.manifest == Some(n.manifest)
              && n.state == if || (policy.whitelist != {} && name !in policy.whitelist) || name in policy.blacklist
                               || (platforms != [] && policy.platform !in platforms)
                            then Disabled
                            else if n.id !in answer.loadOrder then Unresolved
                            else Running
    ensures forall i, j :: 0 <= i < j < |exts| && exts[j].state == Running ==>
              exts[i].state == Running && Before(answer.loadOrder, exts[i].id, exts[j].id)
  {
    hide Decided, LoadsMade, ExportsMade, StartsMade, SkipsMade, Before;
    var s := Snapshots(exts);
    forall i | 0 <= i < |exts|
      ensures s[i] == exts[i].Now() && Decided(s[i], policy, answer.loadOrder)
    {
    }
    forall i | 0 <= i < |exts| {
      DecidedMeans(exts[i].Now(), policy, answer.loadOrder);
    }
  }

  /** The call that loaded an extension, when a later stage was run. */
  lemma LoadedBefore(exts: seq<Extension>, i: nat, calls: seq<Event>)
    requires i < |exts| && LoadMade(exts[i].Now(), Snapshots(exts[..i]), calls, false)
    ensures var n := exts[i].Now();
            if Excluded(n) then calls == []
            else
              && n.languageModule != 0 && n.kind != UnknownType
              && calls == [AnsweredEvent(if n.kind == Module then OnInitialize else OnPluginLoad, n.languageModule,
                                         n.id, LoadedWith(n.table))]
              && if n.kind == Module then n.languageModule == n.file.languageModule
                 else exists j :: LastProvider(exts[..i], n.manifest.language, j)
                        && exts[j].languageModule == n.languageModule
  {
    hide Snapshots, ProvidedAddress, Provides;
    var n := exts[i].Now();
    var j := FindProvider(exts[..i], n.manifest.language);
    if !Excluded(n) {
      assert calls == [calls[0]];
    }
  }

  /** The calls of all stages, if the last stage was run. */
  lemma CallsAre(exts: seq<Extension>, clean: bool, policy: Policy, answer: Report, c: Calls)
    requires Progress(Snapshots(exts), 5, clean, policy, answer, c)
    ensures |c.loads| == |c.exports| == |c.starts| == |exts|
    ensures forall a, b :: 0 <= a < b < |c.running| ==> c.running[a] < c.running[b]
    ensures forall k :: 0 <= k < |c.running| ==> c.running[k] < |exts|
    ensures forall i :: 0 <= i < |exts| ==> (i in c.running <==> exts[i].kind == Module && exts[i].state == Running)
    ensures forall i :: 0 <= i < |exts| ==>
              var n := exts[i].Now();
              if n.state == Disabled || n.state == Unresolved then c.loads[i] == c.exports[i] == c.starts[i] == []
              else
                && c.loads[i] == [AnsweredEvent(if n.kind == Module then OnInitialize else OnPluginLoad,
                                                n.languageModule, n.id, LoadedWith(n.table))]
                && (if n.kind == Module then n.languageModule == n.file.languageModule
                    else exists j :: LastProvider(exts[..i], n.manifest.language, j)
                           && exts[j].languageModule == n.languageModule)
                && (if n.kind != Plugin || !n.table.hasExport then c.exports[i] == []
                    else |c.exports[i]| == |c.running| && forall k :: 0 <= k < |c.running| ==>
                           c.exports[i][k] == AnsweredEvent(OnMethodExport, exts[c.running[k]].languageModule, n.id,
                                                            Accepted))
                && (n.kind == Plugin && n.state == Failed ==> n.table.hasStart)
                && c.starts[i] == if n.kind != Plugin || !n.table.hasStart || n.state == Skipped then []
                                  else [AnsweredEvent(OnPluginStart, n.languageModule, n.id,
                                                      if n.state == Failed then Refused else Accepted)]
  {
    hide Decided, Ordered, SkipsMade, LoadMade, ProvidedAddress, LastProvider;
    var s := Snapshots(exts);
    var running := AddressesAt(s, c.running);
    forall i | 0 <= i < |exts|
      ensures LoadMade(exts[i].Now(), Snapshots(exts[..i]), c.loads[i], false)
      ensures ExportMade(exts[i].Now(), running, c.exports[i], false) && StartMade(exts[i].Now(), c.starts[i])
    {
      assert s[i] == exts[i].Now() && s[..i] == Snapshots(exts[..i]);
    }
    forall i | 0 <= i < |exts| {
      LoadedBefore(exts, i, c.loads[i]);
    }
  }

  /** The call for loading an extension, and what became of it, if loading was the last stage. */
  lemma LoadsAre(exts: seq<Extension>, clean: bool, policy: Policy, answer: Report, c: Calls)
    requires Progress(Snapshots(exts), 3, clean, policy, answer, c)
    ensures |c.loads| == |exts| && c.exports == [] && c.starts == []
    ensures forall i :: 0 <= i < |exts| ==>
              var n := exts[i].Now();
              if n.state == Disabled || n.state == Unresolved || n.state == Skipped || n.kind == UnknownType
              then c.loads[i] == []
              else if n.kind == Module then
                if n.file.languageModule == 0 then c.loads[i] == [] && n.state == Failed
                else
                  exists a :: c.loads[i] == [AnsweredEvent(OnInitialize, n.file.languageModule, n.id, a)]
                    && if a.LoadedWith? then n.state != Failed && n.table == a.table else n.state == Failed
              else
                || (&& c.loads[i] == [] && n.state == Failed
                    && forall j :: 0 <= j < i ==> !Provides(exts[..i][j], n.manifest.language))
                || exists j, a :: LastProvider(exts[..i], n.manifest.language, j)
                     && n.languageModule == exts[..i][j].languageModule
                     && c.loads[i] == [AnsweredEvent(OnPluginLoad, n.languageModule, n.id, a)]
                     && if a.LoadedWith? then n.state != Failed && n.table == a.table else n.state == Failed
  {
    hide Decided, Ordered, SkipsMade, LoadMade, ProvidedAddress, LastProvider, Provides;
    var s := Snapshots(exts);
    forall i | 0 <= i < |exts|
      ensures LoadMade(exts[i].Now(), Snapshots(exts[..i]), c.loads[i], true)
    {
      assert s[i] == exts[i].Now() && s[..i] == Snapshots(exts[..i]);
    }
    forall i | 0 <= i < |exts| {
      LoadedLast(exts[i].Now(), exts[..i], c.loads[i]);
    }
  }

  lemma LoadedLast(n: Snapshot, before: seq<Extension>, calls: seq<Event>)
    requires LoadMade(n, Snapshots(before), calls, true)
    ensures if n.state == Disabled || n.state == Unresolved || n.state == Skipped || n.kind == UnknownType
            then calls == []
            else if n.kind == Module then
              if n.file.languageModule == 0 then calls == [] && n.state == Failed
              else
                exists a :: calls == [AnsweredEvent(OnInitialize, n.file.languageModule, n.id, a)]
                  && if a.LoadedWith? then n.state != Failed && n.table == a.table else n.state == Failed
            else
              || (&& calls == [] && n.state == Failed
                  && forall j :: 0 <= j < |before| ==> !Provides(before[j], n.manifest.language))
              || exists j, a :: LastProvider(before, n.manifest.language, j)
                   && n.languageModule == before[j].languageModule
                   && calls == [AnsweredEvent(OnPluginLoad, n.languageModule, n.id, a)]
                   && if a.LoadedWith? then n.state != Failed && n.table == a.table else n.state == Failed
  {
    hide Snapshots, ProvidedAddress, Provides, LastProvider;
    var j := FindProvider(before, n.manifest.language);
    if calls != [] {
      assert calls == [calls[0]];
    }
  }

  /** The calls that export to an extension, and what became of it, if exporting was the last stage. */
  lemma ExportsAre(s: seq<Snapshot>, clean: bool, policy: Policy, answer: Report, c: Calls)
    requires Progress(s, 4, clean, policy, answer, c)
    ensures |c.exports| == |s| && c.starts == [] && forall k :: 0 <= k < |c.running| ==> c.running[k] < |s|
    ensures forall i :: 0 <= i < |s| ==>
              var n := s[i];
              if n.kind != Plugin || n.state == Disabled || n.state == Unresolved || n.state == Skipped
              then c.exports[i] == []
              else if !n.table.hasExport then c.exports[i] == [] && n.state != Failed
              else
                && (if n.state == Failed then 0 < |c.exports[i]| <= |c.running| else |c.exports[i]| == |c.running|)
                && forall k :: 0 <= k < |c.exports[i]| ==>
                     c.exports[i][k] == AnsweredEvent(OnMethodExport, s[c.running[k]].languageModule, n.id,
                       if n.state == Failed && k == |c.exports[i]| - 1 then Refused else Accepted)
  {
    hide Decided, Ordered, SkipsMade, LoadsMade;
    forall i | 0 <= i < |s|
      ensures ExportMade(s[i], AddressesAt(s, c.running), c.exports[i], true)
    {
    }
  }

  /**
   * An extension is skipped exactly if something in its entries in the one graph is an extension in front of it that
   * was skipped or failed, or is an entry, in the other graph, of one in front of it that failed.
   */
  lemma SkipsAre(s: seq<Snapshot>, stages: nat, clean: bool, policy: Policy, answer: Report, c: Calls)
    requires 3 <= stages && Progress(s, stages, clean, policy, answer, c)
    ensures forall i :: 0 <= i < |s| && s[i].state != Disabled && s[i].state != Unresolved
                        && (stages == 3 || s[i].kind == Plugin) ==>
              (s[i].state == Skipped <==>
               exists k, d :: 0 <= k < i && d in EntriesOf(answer.reverseDepGraph, s[i].id)
                 && (s[k].state == Skipped || s[k].state == Failed)
                 && (d == s[k].id || (s[k].state == Failed && d in EntriesOf(answer.depGraph, s[k].id))))
  {
    hide Decided, Ordered, LoadsMade, ExportsMade, StartsMade, EntriesOf;
    forall i, d | 0 <= i < |s|
      ensures MarkedInFront(s, i, answer.depGraph, d) <==>
              exists k :: 0 <= k < i && (s[k].state == Skipped || s[k].state == Failed)
                && (d == s[k].id || (s[k].state == Failed && d in EntriesOf(answer.depGraph, s[k].id)))
    {
    }
  }
}
