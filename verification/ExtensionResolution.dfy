/** The barrier stage that decides which extensions are loaded, and in which order. */
module ExtensionResolution {
  import opened Blocks
  import opened Extensions
  import opened StartupStages

  /** The part of the configuration that excludes extensions. */
  datatype Policy = Policy(whitelist: set<string>, blacklist: set<string>, platform: string)

  /** The answer of the dependency resolver. */
  datatype Report = Report(isLoadOrderValid: bool, loadOrder: seq<int>, depGraph: Graph, reverseDepGraph: Graph)

  predicate SupportsPlatform(platforms: seq<string>, platform: string) {
    platforms == [] || platform in platforms
  }

  predicate Included(s: Snapshot, policy: Policy) {
    && s.state == Parsed
    && (policy.whitelist == {} || s.manifest.name in policy.whitelist)
    && (policy.blacklist == {} || s.manifest.name !in policy.blacklist)
    && SupportsPlatform(s.manifest.platforms, policy.platform)
  }

  function Filtered(s: Snapshot, policy: Policy): Snapshot {
    if Included(s, policy) then s.(state := Resolving) else if s.state == Parsed then s.(state := Disabled) else s
  }

  /** The extensions that the policy includes, or those that it does not, in their order. */
  function Selected(items: seq<Extension>, s: seq<Snapshot>, policy: Policy, wanted: bool): (r: seq<Extension>)
    requires |items| == |s|
    ensures |r| <= |items|
  {
    if items == [] then [] else
      var n := |items| - 1;
      Selected(items[..n], s[..n], policy, wanted) + (if Included(s[n], policy) == wanted then [items[n]] else [])
  }

  lemma NoneSelected(policy: Policy)
    ensures forall wanted :: Selected([], [], policy, wanted) == []
  {
  }

  lemma SelectedOneMore(items: seq<Extension>, s: seq<Snapshot>, policy: Policy, i: nat)
    requires i < |items| == |s|
    ensures forall wanted :: Selected(items[..i + 1], s[..i + 1], policy, wanted)
              == Selected(items[..i], s[..i], policy, wanted)
                  + (if Included(s[i], policy) == wanted then [items[i]] else [])
  {
    assert items[..i + 1][..i] == items[..i] && s[..i + 1][..i] == s[..i];
  }

  lemma LastIsNew(items: seq<Extension>, n: nat)
    requires NoDuplicates(items) && |items| == n + 1
    ensures NoDuplicates(items[..n]) && items[n] !in items[..n] && items == items[..n] + [items[n]]
  {
  }

  lemma {:induction false} SelectedElements(items: seq<Extension>, s: seq<Snapshot>, policy: Policy, wanted: bool)
    requires |items| == |s| && NoDuplicates(items)
    ensures NoDuplicates(Selected(items, s, policy, wanted))
    ensures forall i :: 0 <= i < |items| ==>
            (items[i] in Selected(items, s, policy, wanted) <==> Included(s[i], policy) == wanted)
    ensures forall e :: e in Selected(items, s, policy, wanted) ==> e in items
  {
    if items != [] {
      var n := |items| - 1;
      SelectedElements(items[..n], s[..n], policy, wanted);
      var front := Selected(items[..n], s[..n], policy, wanted);
      assert Selected(items, s, policy, wanted) == front + if Included(s[n], policy) == wanted then [items[n]] else [];
      hide Selected, Included;
      LastIsNew(items, n);
      assert items[n] !in front;
    }
  }

  // --- load orders ------------------------------------------------------------------------------------

  /** The elements of an order that are among ids, each at its first occurrence. */
  function FirstOccurrences(order: seq<int>, ids: set<int>): seq<int> {
    if order == [] then []
    else if order[0] in ids then [order[0]] + FirstOccurrences(order[1..], ids - {order[0]})
    else FirstOccurrences(order[1..], ids)
  }

  function FirstIndex(order: seq<int>, id: int): (i: nat)
    requires id in order
    ensures i < |order| && order[i] == id && id !in order[..i]
  {
    if order[0] == id then 0 else 1 + FirstIndex(order[1..], id)
  }

  lemma {:induction false} OccurrencesAreAll(order: seq<int>, ids: set<int>)
    ensures forall id :: id in FirstOccurrences(order, ids) <==> id in order && id in ids
  {
    if order != [] {
      OccurrencesAreAll(order[1..], if order[0] in ids then ids - {order[0]} else ids);
    }
  }

  /** Both occur, and the one does so first. */
  predicate Before(order: seq<int>, a: int, b: int) {
    a in order && b in order && FirstIndex(order, a) < FirstIndex(order, b)
  }

  lemma BeforeBehind(order: seq<int>, a: int, b: int)
    requires order != [] && a != order[0] && b != order[0] && Before(order[1..], a, b)
    ensures Before(order, a, b)
  {
  }

  lemma FirstBefore(order: seq<int>, b: int)
    requires order != [] && b != order[0] && b in order[1..]
    ensures Before(order, order[0], b)
  {
  }

  /** They are all of them, none twice, in the order in which they first occur. */
  lemma {:induction false} FirstOccurrencesInOrder(order: seq<int>, ids: set<int>)
    ensures forall id :: id in FirstOccurrences(order, ids) <==> id in order && id in ids
    ensures forall i, j :: 0 <= i < j < |FirstOccurrences(order, ids)| ==>
              Before(order, FirstOccurrences(order, ids)[i], FirstOccurrences(order, ids)[j])
  {
    OccurrencesAreAll(order, ids);
    if order != [] {
      var first := order[0] in ids;
      var rest := if first then ids - {order[0]} else ids;
      var behind := FirstOccurrences(order[1..], rest);
      FirstOccurrencesInOrder(order[1..], rest);
      forall k | 0 <= k < |behind|
        ensures behind[k] in order[1..] && behind[k] != order[0]
      {
        assert behind[k] in behind;
      }
      StillInOrder(order, behind);
    }
  }

  /** Elements that are in order in the rest are so in the whole, with the first one in front of them. */
  lemma StillInOrder(order: seq<int>, behind: seq<int>)
    requires order != []
    requires forall k :: 0 <= k < |behind| ==> behind[k] in order[1..] && behind[k] != order[0]
    requires forall i, j :: 0 <= i < j < |behind| ==> Before(order[1..], behind[i], behind[j])
    ensures forall i, j :: 0 <= i < j < |behind| ==> Before(order, behind[i], behind[j])
    ensures forall k :: 0 <= k < |behind| ==> Before(order, order[0], behind[k])
  {
    hide Before;
    forall k | 0 <= k < |behind|
      ensures Before(order, order[0], behind[k])
    {
      FirstBefore(order, behind[k]);
    }
    forall i, j | 0 <= i < j < |behind|
      ensures Before(order, behind[i], behind[j])
    {
      BeforeBehind(order, behind[i], behind[j]);
    }
  }

  // --- the stage ---------------------------------------------------------------------------------------

  ghost function Ids(exts: seq<Extension>): set<int> {
    set e | e in exts :: e.id
  }

  /** The two lists have the same extensions, each as often. */
  ghost predicate SameExtensions(a: seq<Extension>, b: seq<Extension>) {
    multiset(a) == multiset(b)
  }

  /** Before loading nothing refers to a language module. */
  ghost predicate AllEarly(exts: seq<Extension>)
    reads exts
  {
    forall i :: 0 <= i < |exts| ==> IsEarly(exts[i].state)
  }

  class ResolutionStage {
    const policy: Policy

    constructor (policy: Policy)
      ensures this.policy == policy
    {
      this.policy := policy;
    }

    /** Whether to resolve an extension, which says so by its state. */
    method Decide(ext: Extension) returns (included: bool)
      requires ext.Traced()
      modifies ext`state, ext`history
      ensures ext.Traced() && ext.Now() == Filtered(old(ext.Now()), policy)
      ensures included == Included(old(ext.Now()), policy)
    {
      included := ext.state == Parsed;
      if included && policy.whitelist != {} && ext.manifest.name !in policy.whitelist {
        included := false;
      }
      if included && policy.blacklist != {} && ext.manifest.name in policy.blacklist {
        included := false;
      }
      if included && !SupportsPlatform(ext.manifest.platforms, policy.platform) {
        included := false;
      }
      if included {
        ext.SetState(Resolving);
      } else if ext.state == Parsed {
        ext.SetState(Disabled);
      }
    }

    /** Splits the list into what is to be resolved and what the policy excludes. */
    method FilterByPolicy(items: seq<Extension>) returns (filtered: seq<Extension>, excluded: seq<Extension>)
      requires Distinct(items) && AllTraced(items)
      modifies items
      ensures AllTraced(items)
      ensures filtered == Selected(items, old(Snapshots(items)), policy, true)
      ensures excluded == Selected(items, old(Snapshots(items)), policy, false)
      ensures forall i :: 0 <= i < |items| ==> items[i].Now() == Filtered(old(items[i].Now()), policy)
      ensures forall i :: 0 <= i < |items| ==> items[i].provider == old(items[i].provider)
    {
      hide Extension.Traced, Filtered, Included, Selected;
      ghost var was := Snapshots(items);
      filtered, excluded := [], [];
      NoneSelected(policy);
      for i := 0 to |items|
        invariant AllTraced(items)
        invariant filtered == Selected(items[..i], was[..i], policy, true)
        invariant excluded == Selected(items[..i], was[..i], policy, false)
        invariant forall k :: 0 <= k < i ==> items[k].Now() == Filtered(was[k], policy)
        invariant forall k :: i <= k < |items| ==> items[k].Now() == was[k]
        invariant forall k :: 0 <= k < |items| ==> items[k].provider == old(items[k].provider)
      {
        var ext := items[i];
        SelectedOneMore(items, was, policy, i);
        var included := Decide(ext);
        if included {
          filtered := filtered + [ext];
        } else {
          excluded := excluded + [ext];
        }
      }
      assert items[..|items|] == items && was[..|items|] == was;
    }

    /** Enters the extensions into a table by id. */
    method Index(filtered: seq<Extension>) returns (table: map<int, Extension>)
      requires Distinct(filtered)
      ensures Indexes(table, filtered)
    {
      table := map[];
      for i := 0 to |filtered|
        invariant Indexes(table, filtered[..i])
      {
        assert filtered[..i + 1] == filtered[..i] + [filtered[i]];
        table := table[filtered[i].id := filtered[i]];
      }
      assert filtered[..|filtered|] == filtered;
    }

    /** Takes the extensions that the load order names out of the table; each is named at most once. */
    method TakeInOrder(table: map<int, Extension>, order: seq<int>, ghost filtered: seq<Extension>)
      returns (resolved: seq<Extension>, rest: map<int, Extension>)
      requires Indexes(table, filtered)
      requires forall id :: id in table ==> table[id].state == Resolving && table[id].Traced()
      modifies filtered`state, filtered`history
      ensures forall id :: id in rest <==> id in table && id !in order
      ensures forall id :: id in rest ==> rest[id] == table[id]
      ensures |resolved| == |FirstOccurrences(order, table.Keys)|
      ensures forall k :: 0 <= k < |resolved| ==> FirstOccurrences(order, table.Keys)[k] in table
                                                  && resolved[k] == table[FirstOccurrences(order, table.Keys)[k]]
      ensures forall id :: id in table ==>
                table[id].Traced() && table[id].state == if id in order then Resolved else Resolving
    {
      hide Extension.Traced, TakenSoFar;
      resolved, rest := [], table;
      ghost var taken: seq<int> := [];
      TakenNone(table, order);
      for i := 0 to |order|
        invariant rest.Keys <= table.Keys && TakenSoFar(table, order, i, taken, resolved, rest)
        invariant forall id :: id in table ==> table[id].Traced()
        invariant forall id :: id in table ==> table[id].state == if id in rest then Resolving else Resolved
      {
        var id := order[i];
        TakenNext(table, order, i, taken, resolved, rest);
        if id in rest {
          var ext := rest[id];
          ext.SetState(Resolved);
          resolved := resolved + [ext];
          taken := taken + [id];
          rest := rest - {id};
        }
      }
      TakenAll(table, order, taken, resolved, rest);
    }

    /** The rest of the table, in whatever order. */
    method TakeRest(rest: map<int, Extension>, ghost filtered: seq<Extension>) returns (unresolved: seq<Extension>)
      requires forall id :: id in rest ==>
               rest[id] in filtered && rest[id].id == id && rest[id].state == Resolving
               && rest[id].Traced()
      modifies filtered`state, filtered`history
      ensures NoDuplicates(unresolved)
      ensures forall e :: e in unresolved <==> e.id in rest && rest[e.id] == e
      ensures forall id :: id in rest ==> rest[id].Traced() && rest[id].state == Unresolved
      ensures forall e :: e in filtered && !(e.id in rest && rest[e.id] == e) ==> unchanged(e)
    {
      hide Extension.Traced;
      unresolved := [];
      var left := rest.Keys;
      while left != {}
        invariant left <= rest.Keys
        invariant NoDuplicates(unresolved)
        invariant forall e :: e in unresolved <==> e.id in rest && rest[e.id] == e && e.id !in left
        invariant forall id :: id in rest ==> rest[id].Traced()
        invariant forall id :: id in rest ==> rest[id].state == if id in left then Resolving else Unresolved
        invariant forall e :: e in filtered && !(e.id in rest && rest[e.id] == e) ==> unchanged(e)
        decreases left
      {
        EmptyOrNot(left);
        var id :| id in left;
        var ext := rest[id];
        ext.SetState(Unresolved);
        unresolved := unresolved + [ext];
        left := left - {id};
      }
    }

    /** The resolved extensions in load order, the unresolved ones, and the excluded ones. */
    method BuildResultInOrder(filtered: seq<Extension>, excluded: seq<Extension>, order: seq<int>)
        returns (result: seq<Extension>)
      requires Distinct(filtered) && AllTraced(filtered)
      requires forall i :: 0 <= i < |filtered| ==> filtered[i].state == Resolving
      modifies filtered`state, filtered`history
      ensures AllTraced(filtered) && InLoadOrder(result, filtered, excluded, order)
      ensures forall e :: e in filtered ==> e.state == if e.id in order then Resolved else Unresolved
    {
      hide Extension.Traced, FirstOccurrences, InLoadOrder, Distinct, NoDuplicates, SameExtensions, Indexes;
      var table := Index(filtered);
      AllInTable(table, filtered);
      var resolved, rest := TakeInOrder(table, order, filtered);
      var unresolved := TakeRest(rest, filtered);
      assert forall e :: e in filtered ==> e.Traced() && e.state == if e.id in order then Resolved else Unresolved;
      result := resolved + unresolved + excluded;
      TableIds(table, filtered);
      ResultInOrder(table, filtered, order, resolved, unresolved, excluded);
    }

    /** Every exit that reports an error gives the extensions back. */
    method RestoreResult(filtered: seq<Extension>, excluded: seq<Extension>) returns (result: seq<Extension>)
      ensures result == filtered + excluded
    {
      result := filtered + excluded;
    }

    /** Rearranges what was filtered as the resolver answers. */
    method Resolve(filtered: seq<Extension>, excluded: seq<Extension>, report: Report)
        returns (ok: bool, result: seq<Extension>)
      requires Distinct(filtered) && AllTraced(filtered)
      requires forall i :: 0 <= i < |filtered| ==> filtered[i].state == Resolving
      modifies filtered`state, filtered`history
      ensures AllTraced(filtered) && SameExtensions(result, filtered + excluded)
      ensures ok <==> filtered != [] && report.isLoadOrderValid && report.loadOrder != []
      ensures ok ==> InLoadOrder(result, filtered, excluded, report.loadOrder)
      ensures forall e :: e in filtered ==>
                e.state == if !ok then Resolving else if e.id in report.loadOrder then Resolved else Unresolved
    {
      hide IsHistory, FirstOccurrences;
      ok := filtered != [] && report.isLoadOrderValid && report.loadOrder != [];
      if ok {
        result := BuildResultInOrder(filtered, excluded, report.loadOrder);
        assert result == result[..|filtered|] + excluded;
      } else {
        result := RestoreResult(filtered, excluded);
      }
    }

    /**
     * Filters, resolves and orders. An extension that was parsed is disabled unless it is on the whitelist, if there
     * is one, not on the blacklist, and made for this platform, if it names any.
     */
    method ProcessAll(items: seq<Extension>, report: Report) returns (ok: bool, result: seq<Extension>)
      requires Sound(items) && AllEarly(items)
      modifies items
      ensures Sound(result) && AllEarly(result)
      ensures SameExtensions(result, items)
      ensures ok
              <==> Selected(items, old(Snapshots(items)), policy, true) != [] && report.isLoadOrderValid
                   && report.loadOrder != []
      ensures forall i :: 0 <= i < |items| ==>
                ResolutionResult(old(items[i].Now()), items[i].Now(), policy, ok, report.loadOrder)
      ensures ok ==> InLoadOrder(result, Selected(items, old(Snapshots(items)), policy, true),
                                 Selected(items, old(Snapshots(items)), policy, false), report.loadOrder)
      ensures ok <==> report.isLoadOrderValid && report.loadOrder != []
                      && exists i :: 0 <= i < |items| && old(items[i].state) == Parsed && items[i].state != Disabled
      ensures forall i :: 0 <= i < |items| ==>
                var o, n := old(items[i].Now()), items[i].Now();
                var name, platforms := o.manifest.name, o.manifest.platforms;
                n == o.(state :=
                  if o.state != Parsed then o.state
                  else if policy.whitelist != {} && name !in policy.whitelist then Disabled
                  else if name in policy.blacklist then Disabled
                  else if platforms != [] && policy.platform !in platforms then Disabled
                  else if !ok then Resolving
                  else if o.id in report.loadOrder then Resolved
                  else Unresolved)
    {
      hide Extension.Traced, IsHistory, FirstOccurrences, InLoadOrder, Selected, SameExtensions, Distinct, NoDuplicates,
           Sound, Filtered, Included, ResolutionResult;
      ghost var was := Snapshots(items);
      AllStillEarly(items);
      var filtered, excluded := FilterByPolicy(items);
      FilteredParts(items, was, filtered, excluded);
      ok, result := Resolve(filtered, excluded, report);
      SameAsWell(result, filtered + excluded, items);
      forall i | 0 <= i < |items|
        ensures ResolutionResult(was[i], items[i].Now(), policy, ok, report.loadOrder) && items[i].Traced()
        ensures IsEarly(items[i].state) && items[i].provider == null && items[i].languageModule == 0
      {
        FilteredIsEarly(was[i], policy, ok, report.loadOrder);
      }
      forall i | 0 <= i < |items|
        ensures items[i] in filtered <==> was[i].state == Parsed && items[i].state != Disabled
      {
        IncludedIsNotDisabled(was[i], items[i].Now(), policy, ok, report.loadOrder);
      }
      if filtered != [] {
        assert filtered[0] in items && filtered[0] in filtered;
      }
      forall i | 0 <= i < |items| {
        ResolutionStateIs(was[i], items[i].Now(), policy, ok, report.loadOrder);
      }
      EarlyListIsSound(result, items);
    }

    /** The two parts of a list that has been filtered. */
    lemma FilteredParts(items: seq<Extension>, was: seq<Snapshot>, filtered: seq<Extension>, excluded: seq<Extension>)
      requires |was| == |items| && Distinct(items)
      requires filtered == Selected(items, was, policy, true) && excluded == Selected(items, was, policy, false)
      requires forall i :: 0 <= i < |items| ==> items[i].Traced() && items[i].Now() == Filtered(was[i], policy)
      ensures Distinct(filtered) && AllTraced(filtered)
      ensures forall i :: 0 <= i < |filtered| ==> filtered[i].state == Resolving
      ensures forall i :: 0 <= i < |filtered| ==> filtered[i] in items
      ensures forall i :: 0 <= i < |items| ==> (items[i] in filtered <==> Included(was[i], policy))
      ensures SameExtensions(filtered + excluded, items)
    {
      hide Extension.Traced, Selected;
      SelectedElements(items, was, policy, true);
      SelectedPartition(items, was, policy);
      DistinctPart(items, filtered);
      forall i | 0 <= i < |filtered|
        ensures filtered[i].Traced() && filtered[i].state == Resolving
      {
        assert filtered[i] in filtered;
        var k :| 0 <= k < |items| && items[k] == filtered[i];
        assert items[k].Now() == Filtered(was[k], policy);
      }
    }

    lemma FilteredIsEarly(o: Snapshot, policy: Policy, ok: bool, order: seq<int>)
      requires IsEarly(o.state)
      ensures IsEarly(Filtered(o, policy).state) && Filtered(o, policy).languageModule == o.languageModule
      ensures ResolutionResult(o, if Included(o, policy) && ok
              then o.(state := if o.id in order then Resolved else Unresolved)
                                  else Filtered(o, policy), policy, ok, order)
      ensures Included(o, policy) ==> Filtered(o, policy) == o.(state := Resolving)
      ensures IsEarly(Resolved) && IsEarly(Unresolved)
    {
    }
  }

  lemma {:induction false} SelectedPartition(items: seq<Extension>, s: seq<Snapshot>, policy: Policy)
    requires |items| == |s|
    ensures SameExtensions(Selected(items, s, policy, true) + Selected(items, s, policy, false), items)
  {
    if items != [] {
      var n := |items| - 1;
      SelectedPartition(items[..n], s[..n], policy);
      assert items == items[..n] + [items[n]];
    }
  }

  lemma AllStillEarly(items: seq<Extension>)
    requires Sound(items) && AllEarly(items)
    ensures Distinct(items) && NoDuplicates(items) && AllTraced(items)
    ensures forall i :: 0 <= i < |items| ==>
            IsEarly(items[i].state) && items[i].provider == null
            && items[i].languageModule == 0
  {
    forall i | 0 <= i < |items|
      ensures items[i].provider == null && items[i].languageModule == 0
    {
      assert Backed(items[i]);
    }
  }

  lemma SameAsWell(a: seq<Extension>, b: seq<Extension>, c: seq<Extension>)
    requires SameExtensions(a, b) && SameExtensions(b, c)
    ensures SameExtensions(a, c)
  {
  }

  lemma DistinctPart(items: seq<Extension>, part: seq<Extension>)
    requires Distinct(items) && NoDuplicates(part) && forall e :: e in part ==> e in items
    ensures Distinct(part)
  {
    forall i, j | 0 <= i < j < |part|
      ensures part[i].id != part[j].id
    {
      assert part[i] in items && part[j] in items;
    }
  }

  /** A rearrangement of extensions that nothing was loaded for is a sound list. */
  lemma EarlyListIsSound(result: seq<Extension>, items: seq<Extension>)
    requires Distinct(items) && SameExtensions(result, items)
    requires forall i :: 0 <= i < |items| ==>
               && items[i].Traced() && IsEarly(items[i].state) && items[i].provider == null
                  && items[i].languageModule == 0
    ensures Sound(result) && AllEarly(result)
  {
    forall i | 0 <= i < |result|
      ensures result[i] in items
    {
      assert result[i] in multiset(items);
    }
    forall i, j | 0 <= i < j < |result|
      ensures result[i] != result[j]
    {
      CountsOnce(items, result[i]);
      if result[i] == result[j] {
        TwiceCounted(result, i, j);
      }
    }
    DistinctPart(items, result);
  }

  /** What resolution makes of one extension: it only changes the state, and not beyond what resolution decides. */
  predicate ResolutionResult(o: Snapshot, n: Snapshot, policy: Policy, ok: bool, order: seq<int>) {
    n == if !Included(o, policy) || !ok then Filtered(o, policy)
        else o.(state := if o.id in order then Resolved else Unresolved)
  }

  lemma IncludedIsNotDisabled(o: Snapshot, n: Snapshot, policy: Policy, ok: bool, order: seq<int>)
    requires ResolutionResult(o, n, policy, ok, order)
    ensures Included(o, policy) <==> o.state == Parsed && n.state != Disabled
  {
  }

  lemma ResolutionStateIs(o: Snapshot, n: Snapshot, policy: Policy, ok: bool, order: seq<int>)
    requires ResolutionResult(o, n, policy, ok, order)
    ensures var name, platforms := o.manifest.name, o.manifest.platforms;
            n == o.(state :=
              if o.state != Parsed then o.state
              else if policy.whitelist != {} && name !in policy.whitelist then Disabled
              else if name in policy.blacklist then Disabled
              else if platforms != [] && policy.platform !in platforms then Disabled
              else if !ok then Resolving
              else if o.id in order then Resolved
              else Unresolved)
  {
  }

  /**
   * The list is that of the extensions that the load order names, in the order in which it first names
   * them, then the other filtered ones, then the excluded ones.
   */
  ghost predicate InLoadOrder(result: seq<Extension>, filtered: seq<Extension>, excluded: seq<Extension>,
                              order: seq<int>) {
    var occurring := FirstOccurrences(order, Ids(filtered));
    && |occurring| <= |filtered| && |result| == |filtered| + |excluded|
    && (forall i :: 0 <= i < |occurring| ==> result[i].id == occurring[i])
    && (forall i :: |occurring| <= i < |filtered| ==> result[i].id !in order)
    && SameExtensions(result[..|filtered|], filtered)
    && result[|filtered|..] == excluded
  }

  lemma TableIds(table: map<int, Extension>, exts: seq<Extension>)
    requires Indexes(table, exts)
    ensures table.Keys == Ids(exts)
  {
    forall id
      ensures id in table.Keys <==> id in Ids(exts)
    {
    }
  }

  lemma AllInTable(table: map<int, Extension>, filtered: seq<Extension>)
    requires Indexes(table, filtered)
    ensures forall i :: 0 <= i < |filtered| ==> filtered[i].id in table && table[filtered[i].id] == filtered[i]
    ensures forall id :: id in table ==> table[id] in filtered && table[id].id == id
  {
  }

  lemma ResultInOrder(table: map<int, Extension>, filtered: seq<Extension>, order: seq<int>, resolved: seq<Extension>,
                      unresolved: seq<Extension>, excluded: seq<Extension>)
    requires Distinct(filtered) && Indexes(table, filtered) && table.Keys == Ids(filtered)
    requires |resolved| == |FirstOccurrences(order, table.Keys)|
    requires forall k :: 0 <= k < |resolved| ==> FirstOccurrences(order, table.Keys)[k] in table
                                                 && resolved[k] == table[FirstOccurrences(order, table.Keys)[k]]
    requires NoDuplicates(unresolved)
    requires forall e :: e in unresolved <==> e.id in table && e.id !in order && table[e.id] == e
    ensures InLoadOrder(resolved + unresolved + excluded, filtered, excluded, order)
  {
    hide FirstOccurrences;
    var occurring, both := FirstOccurrences(order, table.Keys), resolved + unresolved;
    FirstOccurrencesInOrder(order, table.Keys);
    forall i, j | 0 <= i < j < |both|
      ensures both[i] != both[j]
    {
      if j < |resolved| {
        assert occurring[i] != occurring[j];
      } else if i < |resolved| {
        assert both[j] in unresolved && occurring[i] in order;
      }
    }
    forall e
      ensures e in both <==> e in filtered
    {
      if e in filtered && e.id in order {
        assert e.id in occurring;
        var k :| 0 <= k < |occurring| && occurring[k] == e.id;
        assert resolved[k] == e;
      }
    }
    SameElementsSameCounts(both, filtered);
    assert (both + excluded)[..|filtered|] == both;
  }

  lemma EmptyOrNot(s: set<int>)
    ensures s == {} || exists x :: x in s
  {
    if forall x :: x !in s {
      assert s == {};
    }
  }

  /** What has been taken out of the table when the first i elements of the order have been seen. */
  ghost predicate TakenSoFar(table: map<int, Extension>, order: seq<int>, i: nat, taken: seq<int>,
                             resolved: seq<Extension>, rest: map<int, Extension>) {
    && i <= |order|
    && (forall id :: id in rest <==> id in table && id !in order[..i])
    && (forall id :: id in rest ==> rest[id] == table[id])
    && FirstOccurrences(order, table.Keys) == taken + FirstOccurrences(order[i..], rest.Keys)
    && |resolved| == |taken| && (forall k :: 0 <= k < |taken| ==> taken[k] in table && resolved[k] == table[taken[k]])
  }

  lemma TakenNone(table: map<int, Extension>, order: seq<int>)
    ensures TakenSoFar(table, order, 0, [], [], table)
  {
    assert order[0..] == order && [] + FirstOccurrences(order, table.Keys) == FirstOccurrences(order, table.Keys);
  }

  lemma TakenNext(table: map<int, Extension>, order: seq<int>, i: nat, taken: seq<int>, resolved: seq<Extension>,
                  rest: map<int, Extension>)
    requires TakenSoFar(table, order, i, taken, resolved, rest) && i < |order|
    ensures var id := order[i];
            if id in rest then
              rest[id] == table[id] && TakenSoFar(table, order, i + 1, taken + [id], resolved + [rest[id]], rest - {id})
            else TakenSoFar(table, order, i + 1, taken, resolved, rest)
  {
    OccurrencesStep(order, i, taken, rest.Keys);
    hide FirstOccurrences;
    OneMoreElement(order, i);
    assert order[i] in rest ==> rest.Keys - {order[i]} == (rest - {order[i]}).Keys;
  }

  lemma TakenAll(table: map<int, Extension>, order: seq<int>, taken: seq<int>, resolved: seq<Extension>,
                 rest: map<int, Extension>)
    requires TakenSoFar(table, order, |order|, taken, resolved, rest)
    ensures forall id :: id in rest <==> id in table && id !in order
    ensures forall id :: id in rest ==> rest[id] == table[id]
    ensures taken == FirstOccurrences(order, table.Keys) && |resolved| == |taken|
    ensures forall k :: 0 <= k < |taken| ==> taken[k] in table && resolved[k] == table[taken[k]]
  {
    assert order[..|order|] == order && order[|order|..] == [];
    NoOccurrences(rest.Keys);
    assert taken + [] == taken;
  }

  lemma OneMoreElement(order: seq<int>, i: nat)
    requires i < |order|
    ensures forall id :: id in order[..i + 1] <==> id in order[..i] || id == order[i]
  {
    assert order[..i + 1] == order[..i] + [order[i]];
  }

  lemma NoOccurrences(ids: set<int>)
    ensures FirstOccurrences([], ids) == []
  {
  }

  /** The table has exactly the given extensions, each under its id. */
  ghost predicate Indexes(table: map<int, Extension>, exts: seq<Extension>) {
    && (forall e :: e in exts ==> e.id in table && table[e.id] == e)
    && (forall id :: id in table ==> table[id] in exts && table[id].id == id)
  }

  lemma OccurrencesStep(order: seq<int>, i: nat, taken: seq<int>, ids: set<int>)
    requires i < |order|
    ensures taken + FirstOccurrences(order[i..], ids)
            == if order[i] in ids then taken + [order[i]] + FirstOccurrences(order[i + 1..], ids - {order[i]})
               else taken + FirstOccurrences(order[i + 1..], ids)
  {
    assert order[i..][1..] == order[i + 1..];
  }

  /** The resolved extensions come first, in the order in which the load order first names them. */
  lemma ResolvedComeFirst(result: seq<Extension>, filtered: seq<Extension>, excluded: seq<Extension>, order: seq<int>)
    requires InLoadOrder(result, filtered, excluded, order)
    requires forall e :: e in filtered ==> e.state == if e.id in order then Resolved else Unresolved
    requires forall e :: e in excluded ==> e.state != Resolved
    ensures forall i, j :: 0 <= i < j < |result| && result[j].state == Resolved ==>
              result[i].state == Resolved && Before(order, result[i].id, result[j].id)
  {
    hide FirstOccurrences;
    var occurring := FirstOccurrences(order, Ids(filtered));
    FirstOccurrencesInOrder(order, Ids(filtered));
    forall k | 0 <= k < |result|
      ensures result[k].state == Resolved <==> k < |occurring|
    {
      if k < |filtered| {
        assert result[k] == result[..|filtered|][k];
        assert result[k] in multiset(result[..|filtered|]);
        assert result[k] in filtered;
      } else {
        assert result[k] == excluded[k - |filtered|];
      }
    }
    forall i, j | 0 <= i < j < |result| && result[j].state == Resolved
      ensures result[i].state == Resolved && Before(order, result[i].id, result[j].id)
    {
      assert result[i].id == occurring[i] && result[j].id == occurring[j];
    }
  }
}
