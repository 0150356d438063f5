/**
 * Resolving a manifest: register the declared definitions, collect the inline ones, link the names,
 * reject cycles and publish the tables in name order.
 */
module ManifestResolution {
  import opened Blocks
  import opened Wrappers
  import opened Lexicographic
  import opened Digraph
  import opened ManifestModel
  import opened DefinitionWalks
  import opened WrittenManifests
  import opened TypeTables
  import opened PrototypeCycles

  function ListOf<D>(list: Option<seq<D>>): seq<D> {
    match list
    case None => []
    case Some(ds) => ds
  }

  /** The table a list of definitions denotes; a later entry wins. */
  ghost function TableOf(ms: seq<Method>): (t: map<string, Method>)
    ensures forall n :: n in t ==> t[n] in ms && t[n].name == n
    ensures forall m :: m in ms ==> m.name in t
  {
    if ms == [] then map[] else
      var last := ms[|ms| - 1];
      assert ms == ms[..|ms| - 1] + [last];
      TableOf(ms[..|ms| - 1])[last.name := last]
  }

  ghost function EnumTableOf(es: seq<EnumType>): (t: map<string, EnumType>)
    ensures forall n :: n in t ==> t[n] in es && t[n].name == n
    ensures forall e :: e in es ==> e.name in t
  {
    if es == [] then map[] else
      var last := es[|es| - 1];
      assert es == es[..|es| - 1] + [last];
      EnumTableOf(es[..|es| - 1])[last.name := last]
  }

  ghost predicate DistinctPrototypes(ms: seq<Method>) {
    && (forall i, j :: 0 <= i < j < |ms| ==> ms[i].name != ms[j].name)
    && (forall m :: m in ms ==> m.name != "")
  }

  ghost predicate DistinctEnums(es: seq<EnumType>) {
    && (forall i, j :: 0 <= i < j < |es| ==> es[i].name != es[j].name)
    && (forall e :: e in es ==> e.name != "")
  }

  /** The entries of a table under the given names, in their order. */
  ghost function Entries<D>(names: seq<string>, table: map<string, D>): (ds: seq<D>)
    requires forall n :: n in names ==> n in table
    ensures |ds| == |names|
    ensures forall i :: 0 <= i < |names| ==> ds[i] == table[names[i]]
  {
    seq(|names|, i requires 0 <= i < |names| => assert names[i] in names; table[names[i]])
  }

  /** The entries of a table in name order. */
  ghost function Listing<D>(table: map<string, D>): (ds: seq<D>) {
    var names := SortedNames(table.Keys);
    assert forall n :: n in names ==> n in Elements(names);
    Entries(names, table)
  }

  lemma ListingIsDistinct(table: map<string, Method>)
    requires forall n :: n in table ==> table[n].name == n && n != ""
    ensures DistinctPrototypes(Listing(table))
    ensures forall n :: n in table ==> table[n] in Listing(table)
    ensures forall m :: m in Listing(table) ==> m.name in table && table[m.name] == m
    ensures forall i, j :: 0 <= i < j < |Listing(table)| ==> Less(Listing(table)[i].name, Listing(table)[j].name)
  {
    var names := SortedNames(table.Keys);
    var ds := Listing(table);
    forall i | 0 <= i < |names| ensures names[i] in table && ds[i].name == names[i] {
      assert names[i] in Elements(names);
    }
    forall i, j | 0 <= i < j < |ds| ensures Less(ds[i].name, ds[j].name) {
      assert Less(names[i], names[j]);
    }
    forall n | n in table ensures table[n] in ds {
      assert n in Elements(names);
      var i :| 0 <= i < |names| && names[i] == n;
      assert ds[i] == table[n];
    }
  }

  lemma EnumListingIsDistinct(table: map<string, EnumType>)
    requires forall n :: n in table ==> table[n].name == n && n != ""
    ensures DistinctEnums(Listing(table))
    ensures forall n :: n in table ==> table[n] in Listing(table)
    ensures forall m :: m in Listing(table) ==> m.name in table && table[m.name] == m
    ensures forall i, j :: 0 <= i < j < |Listing(table)| ==> Less(Listing(table)[i].name, Listing(table)[j].name)
  {
    var names := SortedNames(table.Keys);
    var ds := Listing(table);
    forall i | 0 <= i < |names| ensures names[i] in table && ds[i].name == names[i] {
      assert names[i] in Elements(names);
    }
    forall i, j | 0 <= i < j < |ds| ensures Less(ds[i].name, ds[j].name) {
      assert Less(names[i], names[j]);
    }
    forall n | n in table ensures table[n] in ds {
      assert n in Elements(names);
      var i :| 0 <= i < |names| && names[i] == n;
      assert ds[i] == table[n];
    }
  }

  /** Publishing a table and reading the list back gives the table again. */
  lemma TableOfListing(table: map<string, Method>)
    requires forall n :: n in table ==> table[n].name == n && n != ""
    ensures TableOf(Listing(table)) == table
  {
    ListingIsDistinct(table);
    var t := TableOf(Listing(table));
    forall n | n in table ensures n in t && t[n] == table[n] {
      assert table[n] in Listing(table);
    }
  }

  lemma EnumTableOfListing(table: map<string, EnumType>)
    requires forall n :: n in table ==> table[n].name == n && n != ""
    ensures EnumTableOf(Listing(table)) == table
  {
    EnumListingIsDistinct(table);
    var t := EnumTableOf(Listing(table));
    forall n | n in table ensures n in t && t[n] == table[n] {
      assert table[n] in Listing(table);
    }
  }

  /** Lists a table in name order, whatever order it is traversed in. */
  method Publish<D>(field: Option<seq<D>>, table: map<string, D>) returns (published: Option<seq<D>>)
    ensures table == map[] ==> published == field
    ensures table != map[] ==> published == Some(Listing(table))
  {
    if table == map[] {
      return field;
    }
    var names := SortNames(table.Keys);
    assert forall n :: n in names ==> n in Elements(names);
    var merged := seq(|names|, i requires 0 <= i < |names| => assert names[i] in names; table[names[i]]);
    assert merged == Entries(names, table);
    published := Some(merged);
  }

  /** What resolving may do to one field, whether or not it succeeds in the end. */
  ghost predicate EvolvedPrototype(u: Universe, f: Definition<Method?>, g: Definition<Method?>) {
    || g == f
    || (&& f.Inline? && g.Inline? && f.target != null && g.target != null
        && f.target.name == g.target.name && u.Meaning(f.target) == u.Meaning(g.target))
    || (f.Reference? && g.Inline? && g.target != null && g.target.name == f.name)
  }

  ghost predicate EvolvedEnum(f: Definition<EnumType?>, g: Definition<EnumType?>) {
    || g == f
    || (&& f.Inline? && g.Inline? && f.target != null && g.target != null
        && f.target.name == g.target.name && f.target.values == g.target.values)
    || (f.Reference? && g.Inline? && g.target != null && g.target.name == f.name)
  }

  /** Every field keeps denoting the same name, and a collapsed definition means what it meant. */
  ghost predicate Evolved(u: Universe, s: Snapshot, t: Snapshot) {
    && u.Valid() && u.Describes(t)
    && s.Keys == t.Keys
    && (forall p :: p in s ==> EvolvedPrototype(u, s[p].prototype, t[p].prototype))
    && (forall p :: p in s ==> EvolvedEnum(s[p].enumerate, t[p].enumerate))
  }

  lemma CollectedEvolves(u: Universe, s: State, t: State)
    requires s.Valid(u) && t.Valid(u) && Collected(u, s, t)
    ensures Evolved(u, s.fields, t.fields)
  {
    forall p | p in s.fields
      ensures EvolvedPrototype(u, s.fields[p].prototype, t.fields[p].prototype)
      ensures EvolvedEnum(s.fields[p].enumerate, t.fields[p].enumerate)
    {
      assert CollectedProperty(u, s, t, p);
    }
  }

  lemma LinkedEvolves(u: Universe, f: Snapshot, t: State, v: State)
    requires t.Valid(u) && v.Valid(u) && Evolved(u, f, t.fields) && LinkedTo(t, v)
    ensures Evolved(u, f, v.fields)
  {
    forall p | p in f
      ensures EvolvedPrototype(u, f[p].prototype, v.fields[p].prototype)
      ensures EvolvedEnum(f[p].enumerate, v.fields[p].enumerate)
    {
      assert EvolvedPrototype(u, f[p].prototype, t.fields[p].prototype);
      assert EvolvedEnum(f[p].enumerate, t.fields[p].enumerate);
      assert LinkedPrototypeField(t, t.fields[p].prototype, v.fields[p].prototype);
      assert LinkedEnumField(t, t.fields[p].enumerate, v.fields[p].enumerate);
    }
  }

  /** Collects from a list of methods, in order. */
  method CollectAll(table: TypeTable, ms: seq<Method>, ghost u: Universe) returns (r: Outcome<Error>)
    requires table.Now(u).Valid(u) && forall m :: m in ms ==> m in u.methods
    modifies table, u.props
    ensures CollectPost(u, old(table.Now(u)), table.Now(u), ListProps(ms), r)
    ensures old(forall m :: m in ms ==> table.Now(u).HoistedMethod(m)) ==> r.Pass? && table.Now(u) == old(table.Now(u))
  {
    hide CollectPost, State.Valid, State.HoistedMethod, InUniverse, Collected, Universe.Describes, InOrder;
    ghost var s := table.Now(u);
    ghost var hoisted := forall m :: m in ms ==> s.HoistedMethod(m);
    ValidParts(u, s);
    CollectPostNothing(u, s);
    var i := 0;
    while i < |ms|
      invariant 0 <= i <= |ms|
      invariant CollectPost(u, s, table.Now(u), ListProps(ms[..i]), Pass)
      invariant hoisted ==> table.Now(u) == s
    {
      ghost var t := table.Now(u);
      CollectPostValid(u, s, t, ListProps(ms[..i]), Pass);
      r := table.CollectMethod(ms[i], u);
      CollectPostCompose(u, s, t, table.Now(u), ListProps(ms[..i]), InOrder(ms[i]), r);
      ListPropsNext(ms, i);
      if r.Fail? {
        ListPropsSplit(ms, i + 1);
        ListPropsInUniverse(u, ms[i + 1..]);
        CollectPostFail(u, s, table.Now(u), ListProps(ms[..i + 1]), ListProps(ms[i + 1..]), r.error);
        return;
      }
      i := i + 1;
    }
    assert ms[..i] == ms;
    r := Pass;
  }

  /** Links a list of methods, in order. */
  method LinkAll(table: TypeTable, ms: seq<Method>, ghost u: Universe) returns (r: Outcome<Error>)
    requires table.Now(u).Valid(u) && forall m :: m in ms ==> m in u.methods
    modifies u.props
    ensures LinkPost(u, old(table.Now(u)), table.Now(u), PropsOf(ms), r)
    ensures old(forall m :: m in ms ==> table.Now(u).LinkedMethod(m)) ==> r.Pass? && table.Now(u) == old(table.Now(u))
  {
    hide LinkPost, State.Valid, State.LinkedMethod;
    ghost var s := table.Now(u);
    LinkPostNothing(u, s);
    assert PropsOf(ms[..0]) == {};
    var i := 0;
    while i < |ms|
      invariant 0 <= i <= |ms|
      invariant LinkPost(u, s, table.Now(u), PropsOf(ms[..i]), Pass)
      invariant (forall m :: m in ms ==> s.LinkedMethod(m)) ==> table.Now(u) == s
    {
      ghost var t := table.Now(u);
      LinkPostValid(u, s, t, PropsOf(ms[..i]), Pass);
      r := table.LinkMethod(ms[i], u);
      LinkPostCompose(u, s, t, table.Now(u), PropsOf(ms[..i]), ms[i].Props(), r);
      assert ms[..i + 1] == ms[..i] + [ms[i]];
      assert PropsOf(ms[..i + 1]) == PropsOf(ms[..i]) + ms[i].Props();
      if r.Fail? {
        LinkPostFail(u, s, table.Now(u), PropsOf(ms[..i + 1]), PropsOf(ms), r.error);
        return;
      }
      i := i + 1;
    }
    assert ms[..i] == ms;
    r := Pass;
  }

  lemma TableInUniverse(u: Universe, s: State)
    requires s.Valid(u)
    ensures forall n :: n in s.prototypes ==> s.prototypes[n] in u.methods && s.prototypes[n].name == n && n != ""
    ensures forall n :: n in s.enums ==> s.enums[n] in u.enums && s.enums[n].name == n && n != ""
  {
  }

  /** Links every prototype of the table, in whatever order it is traversed. */
  method LinkTable(table: TypeTable, ghost u: Universe) returns (r: Outcome<Error>)
    requires table.Now(u).Valid(u)
    modifies u.props
    ensures LinkPost(u, old(table.Now(u)), table.Now(u), TableProps(table.prototypes, table.prototypes.Keys), r)
    ensures old(forall n :: n in table.prototypes ==> table.Now(u).LinkedMethod(table.prototypes[n])) ==>
              r.Pass? && table.Now(u) == old(table.Now(u))
  {
    hide LinkPost, State.LinkedMethod, State.Valid, Universe.Describes, LinkedTo, TableProps;
    ghost var s := table.Now(u);
    ghost var all, seen := table.prototypes.Keys, {};
    ghost var linked := forall n :: n in all ==> s.LinkedMethod(table.prototypes[n]);
    TableInUniverse(u, s);
    LinkPostNothing(u, s);
    TablePropsOfNone(table.prototypes);
    var left := table.prototypes.Keys;
    while left != {}
      invariant left <= all && seen == all - left
      invariant LinkPost(u, s, table.Now(u), TableProps(table.prototypes, seen), Pass)
      invariant linked ==> table.Now(u) == s
      decreases left
    {
      var name :| name in left;
      ghost var t, done := table.Now(u), TableProps(table.prototypes, seen);
      LinkPostValid(u, s, t, done, Pass);
      r := table.LinkMethod(table.prototypes[name], u);
      LinkPostCompose(u, s, t, table.Now(u), done, table.prototypes[name].Props(), r);
      TablePropsOfOneMore(table.prototypes, seen, name);
      left, seen := left - {name}, seen + {name};
      if r.Fail? {
        TablePropsOfMore(table.prototypes, seen, all);
        LinkPostFail(u, s, table.Now(u), TableProps(table.prototypes, seen), TableProps(table.prototypes, all),
            r.error);
        return;
      }
    }
    assert seen == all;
    r := Pass;
  }

  /** A list of declared prototypes after some of its entries were replaced by equivalent ones. */
  ghost predicate KeptPrototypes(u: Universe, before: seq<Method>, after: seq<Method>) {
    && |after| == |before|
    && forall i :: 0 <= i < |before| ==>
         after[i] in u.methods && after[i].name == before[i].name && u.Meaning(after[i]) == u.Meaning(before[i])
  }

  ghost predicate KeptEnums(u: Universe, before: seq<EnumType>, after: seq<EnumType>) {
    && |after| == |before|
    && forall i :: 0 <= i < |before| ==>
         after[i] in u.enums && after[i].name == before[i].name && after[i].values == before[i].values
  }

  /** The declared prototypes registered so far are the table's, and the table holds nothing else. */
  ghost predicate DeclaredIn(table: map<string, Method>, declared: seq<Method>) {
    && (forall m :: m in declared ==> m.name in table && table[m.name] == m)
    && (forall n :: n in table ==> table[n] in declared)
  }

  lemma DeclareNext(u: Universe, s: State, declared: seq<Method>, m: Method)
    requires s.Valid(u) && m in u.methods && DeclaredIn(s.prototypes, declared)
    ensures match RegisteredPrototype(u, s.prototypes, m)
            case Introduced(table) => s.(prototypes := table).Valid(u) && DeclaredIn(table, declared + [m])
            case Known(kept) =>
              DeclaredIn(s.prototypes, declared + [kept]) && kept in u.methods && kept.name == m.name
                  && u.Meaning(kept) == u.Meaning(m)
            case Rejected(e) => true
  {
    match RegisteredPrototype(u, s.prototypes, m)
    case Introduced(table) =>
      IntroducedPrototype(u, s, m);
      assert forall d :: d in declared ==> d.name != m.name;
    case Known(kept) =>
    case Rejected(e) =>
  }

  lemma DeclareDistinct(ms: seq<Method>, i: nat)
    requires DistinctPrototypes(ms) && i < |ms|
    ensures ms[i].name != "" && ms[i].name !in TableOf(ms[..i])
    ensures TableOf(ms[..i + 1]) == TableOf(ms[..i])[ms[i].name := ms[i]]
  {
    assert ms[..i + 1][..i] == ms[..i];
    forall d | d in ms[..i] ensures d.name != ms[i].name {
    }
  }

  lemma DeclareDistinctEnum(es: seq<EnumType>, i: nat)
    requires DistinctEnums(es) && i < |es|
    ensures es[i].name != "" && es[i].name !in EnumTableOf(es[..i])
    ensures EnumTableOf(es[..i + 1]) == EnumTableOf(es[..i])[es[i].name := es[i]]
  {
    assert es[..i + 1][..i] == es[..i];
    forall d | d in es[..i] ensures d.name != es[i].name {
    }
  }

  /** Registering the declared prototypes: the first i entries of the list are done. */
  ghost predicate Declaring(u: Universe, s: State, before: seq<Method>, list: seq<Method>, i: nat) {
    && s.Valid(u) && KeptPrototypes(u, before, list) && i <= |list|
    && (forall k :: i <= k < |before| ==> list[k] == before[k])
    && DeclaredIn(s.prototypes, list[..i]) && RegisterAll(u, before[..i]) == Ok(s.prototypes)
    && (DistinctPrototypes(before) ==> list == before && s.prototypes == TableOf(before[..i]))
  }

  lemma DeclaringStart(u: Universe, s: State, before: seq<Method>)
    requires s.Valid(u) && s.prototypes == map[] && forall m :: m in before ==> m in u.methods
    ensures Declaring(u, s, before, before, 0)
  {
  }

  lemma DeclaringStep(u: Universe, s: State, before: seq<Method>, list: seq<Method>, i: nat)
    requires Declaring(u, s, before, list, i) && i < |list|
    ensures list[i := list[i]] == list
    ensures match RegisteredPrototype(u, s.prototypes, list[i])
            case Introduced(table) => Declaring(u, s.(prototypes := table), before, list, i + 1)
            case Known(kept) => Declaring(u, s, before, list[i := kept], i + 1)
            case Rejected(e) => RegisterAll(u, before) == Err(e) && !DistinctPrototypes(before)
  {
    hide Declaring, State.Valid, DistinctPrototypes, DeclaredIn, RegisterAll;
    DeclaringMember(u, s, before, list, i);
    match RegisteredPrototype(u, s.prototypes, list[i])
    case Introduced(table) => DeclaringIntroduced(u, s, before, list, i);
    case Known(kept) => DeclaringKnown(u, s, before, list, i);
    case Rejected(e) =>
      DeclaringNext(u, s, before, list, i);
      RegisterAllStops(u, before, i + 1);
      if DistinctPrototypes(before) {
        DeclaringDistinct(u, s, before, list, i);
      }
  }

  lemma DeclaringNext(u: Universe, s: State, before: seq<Method>, list: seq<Method>, i: nat)
    requires Declaring(u, s, before, list, i) && i < |list|
    ensures |before| == |list| && RegisterAll(u, before[..i + 1]) == WithPrototype(u, s.prototypes, list[i])
  {
    hide State.Valid, KeptPrototypes, DeclaredIn, DistinctPrototypes, WithPrototype, TableOf, Universe.Meaning;
    KeptLength(u, before, list);
    var front := before[..i + 1];
    assert front[..i] == before[..i] && front != [] && front[i] == before[i] == list[i];
  }

  lemma KeptLength(u: Universe, before: seq<Method>, after: seq<Method>)
    requires KeptPrototypes(u, before, after)
    ensures |before| == |after|
  {
  }

  lemma DeclaringMember(u: Universe, s: State, before: seq<Method>, list: seq<Method>, i: nat)
    requires Declaring(u, s, before, list, i) && i < |list|
    ensures s.Valid(u) && list[i] in u.methods && DeclaredIn(s.prototypes, list[..i])
  {
  }

  lemma DeclaringDistinct(u: Universe, s: State, before: seq<Method>, list: seq<Method>, i: nat)
    requires Declaring(u, s, before, list, i) && i < |list| && DistinctPrototypes(before)
    ensures s.prototypes == TableOf(before[..i]) && list == before
    ensures RegisteredPrototype(u, s.prototypes, list[i]) == Introduced(TableOf(before[..i + 1]))
  {
    DeclareDistinct(before, i);
  }

  lemma DeclaringIntroduced(u: Universe, s: State, before: seq<Method>, list: seq<Method>, i: nat)
    requires Declaring(u, s, before, list, i) && i < |list|
    requires RegisteredPrototype(u, s.prototypes, list[i]).Introduced?
    ensures Declaring(u, s.(prototypes := s.prototypes[list[i].name := list[i]]), before, list, i + 1)
  {
    hide State.Valid, KeptPrototypes, DistinctPrototypes, RegisterAll;
    DeclaringMember(u, s, before, list, i);
    DeclaringNext(u, s, before, list, i);
    DeclareNext(u, s, list[..i], list[i]);
    assert list[..i + 1] == list[..i] + [list[i]];
    if DistinctPrototypes(before) {
      DeclaringDistinct(u, s, before, list, i);
    }
  }

  lemma DeclaringKnown(u: Universe, s: State, before: seq<Method>, list: seq<Method>, i: nat)
    requires Declaring(u, s, before, list, i) && i < |list|
    requires RegisteredPrototype(u, s.prototypes, list[i]).Known?
    ensures Declaring(u, s, before, list[i := RegisteredPrototype(u, s.prototypes, list[i]).kept], i + 1)
  {
    hide State.Valid, DistinctPrototypes, KeptPrototypes, DeclaredIn, RegisteredPrototype, RegisterAll;
    DeclaringNext(u, s, before, list, i);
    var kept := RegisteredPrototype(u, s.prototypes, list[i]).kept;
    DeclaringMember(u, s, before, list, i);
    DeclareNext(u, s, list[..i], list[i]);
    KeptUpdate(u, before, list, i, kept);
    assert list[i := kept][..i + 1] == list[..i] + [kept];
    if DistinctPrototypes(before) {
      DeclaringDistinct(u, s, before, list, i);
    }
  }

  lemma KeptUpdate(u: Universe, before: seq<Method>, list: seq<Method>, i: nat, kept: Method)
    requires KeptPrototypes(u, before, list) && i < |list| && kept in u.methods
    requires kept.name == list[i].name && u.Meaning(kept) == u.Meaning(list[i])
    ensures |before| == |list| && KeptPrototypes(u, before, list[i := kept])
  {
  }

  lemma DeclaringEnd(u: Universe, s: State, before: seq<Method>, list: seq<Method>, i: nat)
    requires Declaring(u, s, before, list, i)
    ensures s.Valid(u) && KeptPrototypes(u, before, list)
    ensures i == |list| ==> DeclaredIn(s.prototypes, list) && RegisterAll(u, before) == Ok(s.prototypes)
    ensures i == |list| ==> list == Kept(before, s.prototypes)
    ensures i == |list| && DistinctPrototypes(before) ==> list == before && s.prototypes == TableOf(list)
  {
    hide RegisterAll, State.Valid, Universe.Meaning, DistinctPrototypes, TableOf;
    assert list[..|list|] == list;
    if i == |list| {
      assert before[..i] == before;
      forall k | 0 <= k < |list|
        ensures list[k] == s.prototypes[before[k].name]
      {
        assert list[k] in list;
      }
    }
  }

  /** Registering the declared enums: the first i entries of the list are done. */
  ghost predicate DeclaringEnums(u: Universe, s: State, before: seq<EnumType>, list: seq<EnumType>, i: nat) {
    && s.Valid(u) && KeptEnums(u, before, list) && i <= |list|
    && (forall k :: i <= k < |before| ==> list[k] == before[k])
    && (forall k :: 0 <= k < i ==> list[k].name in s.enums)
    && RegisterAllEnums(before[..i]) == Ok(s.enums)
    && (DistinctEnums(before) ==> list == before && s.enums == EnumTableOf(before[..i]))
  }

  lemma DeclaringEnumsStart(u: Universe, s: State, before: seq<EnumType>)
    requires s.Valid(u) && s.enums == map[] && forall e :: e in before ==> e in u.enums
    ensures DeclaringEnums(u, s, before, before, 0)
  {
  }

  lemma DeclaringEnumsStep(u: Universe, s: State, before: seq<EnumType>, list: seq<EnumType>, i: nat)
    requires DeclaringEnums(u, s, before, list, i) && i < |list|
    ensures list[i := list[i]] == list
    ensures match RegisteredEnum(s.enums, list[i])
            case Introduced(table) => DeclaringEnums(u, s.(enums := table), before, list, i + 1)
            case Known(kept) => DeclaringEnums(u, s, before, list[i := kept], i + 1)
            case Rejected(e) => RegisterAllEnums(before) == Err(e) && !DistinctEnums(before)
  {
    hide DeclaringEnums, DistinctEnums, RegisterAllEnums, State.Valid;
    DeclaringEnumsNext(u, s, before, list, i);
    match RegisteredEnum(s.enums, list[i])
    case Introduced(table) => DeclaringEnumsIntroduced(u, s, before, list, i);
    case Known(kept) => DeclaringEnumsKnown(u, s, before, list, i);
    case Rejected(e) =>
      assert WithEnum(s.enums, list[i]) == Err(e);
      RegisterAllEnumsStops(before, i + 1);
  }

  lemma DeclaringEnumsNext(u: Universe, s: State, before: seq<EnumType>, list: seq<EnumType>, i: nat)
    requires DeclaringEnums(u, s, before, list, i) && i < |list|
    ensures |before| == |list| && before[i] == list[i] && list[i] in u.enums
    ensures RegisterAllEnums(before[..i + 1]) == WithEnum(s.enums, list[i])
    ensures DistinctEnums(before) ==> RegisteredEnum(s.enums, list[i]) == Introduced(EnumTableOf(before[..i + 1]))
  {
    hide EnumTableOf, State.Valid;
    assert before[..i + 1][..i] == before[..i];
    if DistinctEnums(before) {
      DeclareDistinctEnum(before, i);
    }
  }

  lemma DeclaringEnumsIntroduced(u: Universe, s: State, before: seq<EnumType>, list: seq<EnumType>, i: nat)
    requires DeclaringEnums(u, s, before, list, i) && i < |list| && RegisteredEnum(s.enums, list[i]).Introduced?
    ensures DeclaringEnums(u, s.(enums := RegisteredEnum(s.enums, list[i]).table), before, list, i + 1)
  {
    hide EnumTableOf, State.Valid, DistinctEnums, RegisterAllEnums;
    DeclaringEnumsNext(u, s, before, list, i);
    IntroducedEnum(u, s, list[i]);
  }

  lemma DeclaringEnumsKnown(u: Universe, s: State, before: seq<EnumType>, list: seq<EnumType>, i: nat)
    requires DeclaringEnums(u, s, before, list, i) && i < |list| && RegisteredEnum(s.enums, list[i]).Known?
    ensures DeclaringEnums(u, s, before, list[i := RegisteredEnum(s.enums, list[i]).kept], i + 1)
  {
    hide EnumTableOf, DistinctEnums, RegisterAllEnums;
    DeclaringEnumsNext(u, s, before, list, i);
  }

  lemma DeclaringEnumsEnd(u: Universe, s: State, before: seq<EnumType>, list: seq<EnumType>, i: nat)
    requires DeclaringEnums(u, s, before, list, i)
    ensures s.Valid(u) && KeptEnums(u, before, list)
    ensures i == |list| ==> (forall e :: e in list ==> e.name in s.enums) && RegisterAllEnums(before) == Ok(s.enums)
    ensures i == |list| && DistinctEnums(before) ==> list == before && s.enums == EnumTableOf(list)
  {
    assert i == |list| ==> before[..i] == before;
  }

  ghost predicate AllHoisted(s: State, ms: seq<Method>) {
    && (forall m :: m in ms ==> s.HoistedMethod(m))
    && (forall n :: n in s.prototypes ==> s.HoistedMethod(s.prototypes[n]))
  }

  ghost predicate AllLinked(s: State, ms: seq<Method>) {
    && (forall m :: m in ms ==> s.LinkedMethod(m))
    && (forall n :: n in s.prototypes ==> s.LinkedMethod(s.prototypes[n]))
  }

  lemma CollectedAll(u: Universe, s: State, t: State, v: State, ms: seq<Method>, declared: seq<Method>)
    requires CollectPost(u, s, t, ListProps(ms), Pass) && CollectPost(u, t, v, ListProps(declared), Pass)
    requires DeclaredIn(s.prototypes, declared)
    ensures v.Valid(u) && Collected(u, s, v) && AllHoisted(v, ms)
  {
    hide CollectPost, Collected, State.Valid, State.Hoisted, ListProps;
    CollectPostCompose(u, s, t, v, ListProps(ms), ListProps(declared), Pass);
    CollectPostHoists(u, s, v, ListProps(ms) + ListProps(declared));
    ListPropsOf(ms);
    ListPropsOf(declared);
    forall m, p | m in ms + declared && p in m.Props() ensures v.Hoisted(p) {
      assert p in PropsOf(ms) + PropsOf(declared);
      assert p in (set q | q in ListProps(ms)) + (set q | q in ListProps(declared));
    }
    forall n | n in v.prototypes ensures v.HoistedMethod(v.prototypes[n]) {
      if n in s.prototypes {
        assert v.prototypes[n] == s.prototypes[n] && s.prototypes[n] in declared;
      }
    }
  }

  lemma CollectPostHoists(u: Universe, s: State, t: State, todo: seq<Property>)
    requires CollectPost(u, s, t, todo, Pass)
    ensures t.Valid(u) && Collected(u, s, t) && t.HoistedSince(s.prototypes) && forall p :: p in todo ==> t.Hoisted(p)
    ensures forall n :: n in s.prototypes ==> n in t.prototypes && t.prototypes[n] == s.prototypes[n]
  {
  }

  lemma LinkedAll(u: Universe, s: State, t: State, v: State, ms: seq<Method>)
    requires s.Valid(u) && AllHoisted(s, ms)
    requires LinkPost(u, s, t, PropsOf(ms), Pass)
    requires LinkPost(u, t, v, TableProps(t.prototypes, t.prototypes.Keys), Pass)
    ensures Settled(u, v) && LinkedTo(s, v) && AllHoisted(v, ms) && AllLinked(v, ms)
  {
    LinkPostCompose(u, s, t, v, PropsOf(ms), TableProps(t.prototypes, t.prototypes.Keys), Pass);
    LinkedKeepsAllHoisted(u, s, v, ms);
    forall m | m in ms ensures v.LinkedMethod(m) {
      forall p | p in m.Props() ensures v.Linked(p) {
        assert p in PropsOf(ms);
      }
    }
    forall n | n in v.prototypes ensures v.LinkedMethod(v.prototypes[n]) {
      forall p | p in v.prototypes[n].Props() ensures v.Linked(p) {
        assert p in TableProps(t.prototypes, t.prototypes.Keys);
      }
    }
  }

  lemma LinkedKeepsAllHoisted(u: Universe, s: State, v: State, ms: seq<Method>)
    requires s.Valid(u) && AllHoisted(s, ms) && LinkedTo(s, v)
    ensures AllHoisted(v, ms)
  {
    forall m | s.HoistedMethod(m) ensures v.HoistedMethod(m) {
      forall p | p in m.Props() ensures v.Hoisted(p) {
        LinkedToKeepsHoisted(u, s, v, p);
      }
    }
  }

  lemma KeptPrototypesWithin(u: Universe, before: seq<Method>, after: seq<Method>)
    ensures (forall m :: m in before ==> m in u.methods) ==> KeptPrototypes(u, before, before)
    ensures KeptPrototypes(u, before, after) ==> forall m :: m in after ==> m in u.methods
    ensures KeptPrototypes(u, before, after) ==> forall m :: m in before ==> exists k :: k in after && k.name == m.name
  {
    if KeptPrototypes(u, before, after) {
      forall m | m in before ensures exists k :: k in after && k.name == m.name {
        var i :| 0 <= i < |before| && before[i] == m;
        assert after[i] in after;
      }
    }
  }

  lemma KeptEnumsReflexive(u: Universe, es: seq<EnumType>)
    requires forall e :: e in es ==> e in u.enums
    ensures KeptEnums(u, es, es)
  {
  }

  lemma DeclaredHoisted(u: Universe, s: State, ms: seq<Method>, declared: seq<Method>)
    requires s.Valid(u) && DeclaredIn(s.prototypes, declared)
    ensures forall m :: m in declared ==> m in u.methods
    ensures AllHoisted(s, ms) ==> forall m :: m in ms || m in declared ==> s.HoistedMethod(m)
  {
  }

  lemma CollectPostResult(u: Universe, s: State, t: State, todo: seq<Property>, r: Outcome<Error>)
    requires CollectPost(u, s, t, todo, r)
    ensures u.Valid() && u.Describes(s.fields) && InUniverse(u, todo)
    ensures Walk(u, s.fields, todo, s.Table()) == match r case Pass => Ok(t.Table()) case Fail(e) => Err(e)
  {
  }

  lemma LinkPostError(u: Universe, s: State, t: State, v: State, methods: seq<Method>, props: set<Property>,
                      r: Outcome<Error>)
    requires LinkedTo(s, t) && LinkPost(u, t, v, props, r) && r.Fail? && props <= UsedProps(methods, s.Table())
    ensures Explains(u, s.fields, methods, s.Table(), r.error) && !Connectable(u, s.fields, methods, s.Table())
  {
    ReferencesStay(s, t);
    if r.error.kind == PrototypeKind {
      var p :| p in props && p in t.fields && t.fields[p].prototype == Reference(r.error.name);
      assert !Referenced(s.fields[p], s.Table());
    } else {
      var p :| p in props && p in t.fields && t.fields[p].enumerate == Reference(r.error.name);
      assert !Referenced(s.fields[p], s.Table());
    }
  }

  /** What has been linked without an error held only names of the table. */
  lemma LinkPostReferenced(u: Universe, s: State, t: State, props: set<Property>)
    requires LinkPost(u, s, t, props, Pass)
    ensures AllReferenced(s.fields, props, s.Table())
  {
    forall p | p in props && p in s.fields
      ensures Referenced(s.fields[p], s.Table())
    {
      assert t.Linked(p) && LinkedPrototypeField(s, s.fields[p].prototype, t.fields[p].prototype);
      assert LinkedEnumField(s, s.fields[p].enumerate, t.fields[p].enumerate);
    }
  }

  /** After both passes, what the fields hold is what they denote. */
  lemma SettledGraph(u: Universe, s: State)
    requires Settled(u, s)
    ensures GraphOf(s) == NameGraph(u, s.prototypes)
  {
    forall n | n in s.prototypes
      ensures TargetNames(s.prototypes[n], s.fields) == NamedTargets(u, s.prototypes[n])
    {
      var m := s.prototypes[n];
      assert s.HoistedMethod(m) && s.LinkedMethod(m);
      forall p | p in m.Props()
        ensures p in s.fields && p in u.prototypeNames
        ensures PrototypeOf(s.fields[p].prototype) != null <==> u.prototypeNames[p] != ""
        ensures PrototypeOf(s.fields[p].prototype) != null ==>
                PrototypeOf(s.fields[p].prototype).name == u.prototypeNames[p]
      {
        assert s.Hoisted(p) && s.HoistedPrototype(p) && s.Linked(p) && u.DescribesField(p, s.fields[p]);
      }
    }
  }

  lemma CycleExplains(u: Universe, f: Snapshot, methods: seq<Method>, s: State, e: Error)
    requires Settled(u, s) && OnCycle(GraphOf(s), e)
    ensures Explains(u, f, methods, s.Table(), e)
  {
    SettledGraph(u, s);
  }

  lemma ConnectableIff(u: Universe, s: State, methods: seq<Method>)
    requires AllReferenced(s.fields, PropsOf(methods) + TableProps(s.prototypes, s.prototypes.Keys), s.Table())
    ensures Connectable(u, s.fields, methods, s.Table()) <==> !Cyclic(NameGraph(u, s.prototypes))
  {
  }

  lemma LinkedTables(s: State, t: State)
    requires LinkedTo(s, t)
    ensures t.Table() == s.Table()
  {
  }

  lemma LinkedReflexive(s: State)
    ensures LinkedTo(s, s)
  {
  }

  /** Collecting neither makes nor removes references. */
  lemma ReferencesCollected(u: Universe, s: State, t: State)
    requires Collected(u, s, t)
    ensures forall p, n :: p in s.fields ==>
            (s.fields[p].prototype == Reference(n) <==> t.fields[p].prototype == Reference(n))
    ensures forall p, n :: p in s.fields ==>
            (s.fields[p].enumerate == Reference(n) <==> t.fields[p].enumerate == Reference(n))
  {
    forall p | p in s.fields
      ensures s.fields[p].prototype.Reference? || t.fields[p].prototype.Reference? ==>
              s.fields[p].prototype == t.fields[p].prototype
      ensures s.fields[p].enumerate.Reference? || t.fields[p].enumerate.Reference? ==>
              s.fields[p].enumerate == t.fields[p].enumerate
    {
      assert CollectedProperty(u, s, t, p);
    }
  }

  lemma ConnectableCollected(u: Universe, s: State, t: State, methods: seq<Method>, e: Error)
    requires Collected(u, s, t)
    ensures Connectable(u, s.fields, methods, t.Table()) <==> Connectable(u, t.fields, methods, t.Table())
    ensures Explains(u, s.fields, methods, t.Table(), e) <==> Explains(u, t.fields, methods, t.Table(), e)
  {
    hide Collected, UsedProps, NameGraph;
    ReferencesCollected(u, s, t);
    assert s.fields.Keys == t.fields.Keys by { CollectedKeys(u, s, t); }
    forall p | p in s.fields
      ensures Referenced(s.fields[p], t.Table()) <==> Referenced(t.fields[p], t.Table())
    {
      if s.fields[p].prototype.Reference? {
        assert s.fields[p].prototype == Reference(s.fields[p].prototype.name);
      }
      if s.fields[p].enumerate.Reference? {
        assert s.fields[p].enumerate == Reference(s.fields[p].enumerate.name);
      }
    }
  }

  lemma CollectedFromStart(u: Universe, s: State)
    ensures Collected(u, State(s.fields, map[], map[]), s)
  {
  }

  lemma CollectedKeys(u: Universe, s: State, t: State)
    requires Collected(u, s, t)
    ensures s.fields.Keys == t.fields.Keys
  {
  }

  /** The table has a definition under each of the declared names. */
  ghost predicate NamesIn(s: State, ms: seq<Method>, es: seq<EnumType>) {
    (forall m :: m in ms ==> m.name in s.prototypes) && (forall e :: e in es ==> e.name in s.enums)
  }

  lemma DeclaredNames(u: Universe, s: State, t: State, before: seq<Method>, after: seq<Method>,
                      beforeEnums: seq<EnumType>, afterEnums: seq<EnumType>)
    requires KeptPrototypes(u, before, after) && KeptEnums(u, beforeEnums, afterEnums)
    requires DeclaredIn(s.prototypes, after) && (forall e :: e in afterEnums ==> e.name in s.enums)
    requires Collected(u, s, t)
    ensures NamesIn(t, after, afterEnums)
  {
  }

  lemma NamesStay(t: State, v: State, ms: seq<Method>, es: seq<EnumType>)
    requires NamesIn(t, ms, es) && LinkedTo(t, v)
    ensures NamesIn(v, ms, es)
  {
  }

  lemma UnchangedEvolves(u: Universe, s: Snapshot)
    requires u.Valid() && u.Describes(s)
    ensures Evolved(u, s, s)
  {
  }

  /** What is published is the table: reading the list back gives the table it was made from. */
  lemma PublishedBack(v: State, list: Option<seq<Method>>, published: Option<seq<Method>>)
    requires forall n :: n in v.prototypes ==> v.prototypes[n].name == n && n != ""
    requires forall m :: m in ListOf(list) ==> m.name in v.prototypes
    requires published == if v.prototypes == map[] then list else Some(Listing(v.prototypes))
    ensures TableOf(ListOf(published)) == v.prototypes && ListOf(published) == Listing(v.prototypes)
  {
    TableOfListing(v.prototypes);
    if v.prototypes == map[] {
      ListingIsDistinct(v.prototypes);
      EmptyList(ListOf(list));
      EmptyList(Listing(v.prototypes));
    }
  }

  lemma PublishedEnumsBack(v: State, list: Option<seq<EnumType>>, published: Option<seq<EnumType>>)
    requires forall n :: n in v.enums ==> v.enums[n].name == n && n != ""
    requires forall e :: e in ListOf(list) ==> e.name in v.enums
    requires published == if v.enums == map[] then list else Some(Listing(v.enums))
    ensures EnumTableOf(ListOf(published)) == v.enums && ListOf(published) == Listing(v.enums)
  {
    EnumTableOfListing(v.enums);
    if v.enums == map[] {
      EnumListingIsDistinct(v.enums);
      EmptyList(ListOf(list));
      EmptyList(Listing(v.enums));
    }
  }

  lemma HasElement<D>(ds: seq<D>)
    requires ds != []
    ensures exists d :: d in ds
  {
    assert ds[0] in ds;
  }

  lemma EmptyList<D>(ds: seq<D>)
    requires forall d :: d !in ds
    ensures ds == []
  {
    if ds != [] {
      HasElement(ds);
    }
  }

  /** Publishing a published table again gives the same field. */
  lemma RepublishedSame<D>(field: Option<seq<D>>, table: map<string, D>, published: Option<seq<D>>)
    requires ListOf(field) == Listing(table)
    requires published == if table == map[] then field else Some(Listing(table))
    ensures table != map[] ==> field.Some? && published == field
    ensures published == field
  {
    if table != map[] {
      var n :| n in table;
      assert n in Elements(SortedNames(table.Keys));
      assert Listing(table) != [];
    }
  }

  class Manifest {
    const methods: Option<seq<Method>>
    const classes: Option<seq<ClassDef>>
    var prototypes: Option<seq<Method>>
    var enums: Option<seq<EnumType>>

    constructor (methods: Option<seq<Method>>, classes: Option<seq<ClassDef>>, prototypes: Option<seq<Method>>,
                 enums: Option<seq<EnumType>>)
      ensures this.methods == methods && this.classes == classes && this.prototypes == prototypes && this.enums == enums
    {
      this.methods, this.classes, this.prototypes, this.enums := methods, classes, prototypes, enums;
    }

    /** The universe covers the manifest, and its fields denote the recorded names. */
    ghost predicate Within(u: Universe)
      reads this, u.props
    {
      && u.Valid() && u.Describes(SnapshotOf(u.props))
      && (forall m :: m in ListOf(methods) ==> m in u.methods)
      && (forall m :: m in ListOf(prototypes) ==> m in u.methods)
      && (forall e :: e in ListOf(enums) ==> e in u.enums)
    }

    /** The published tables, read back as a state. */
    ghost function Published(u: Universe): State
      reads this, u.props
    {
      State(SnapshotOf(u.props), TableOf(ListOf(prototypes)), EnumTableOf(ListOf(enums)))
    }

    /**
     * What a successful resolution establishes: the published tables are sorted by name and hold every
     * definition a method or a published prototype refers to, no field holds a name, and no prototype
     * can reach itself.
     */
    ghost predicate Resolved(u: Universe)
      reads this, u.props
    {
      var s := Published(u);
      && Settled(u, s)
      && AllHoisted(s, ListOf(methods)) && AllLinked(s, ListOf(methods))
      && !Cyclic(GraphOf(s)) && (exists h :: IsRanking(GraphOf(s), h))
      && ListOf(prototypes) == Listing(s.prototypes)
      && ListOf(enums) == Listing(s.enums)
    }

    method RegisterPrototypes(table: TypeTable, ghost u: Universe) returns (r: Result<seq<Method>, Error>)
      requires Within(u) && table.prototypes == map[] && table.enums == map[]
      modifies this`prototypes, table`prototypes
      ensures table.Now(u).Valid(u)
      ensures prototypes.Some? == old(prototypes).Some?
      ensures KeptPrototypes(u, ListOf(old(prototypes)), ListOf(prototypes))
      ensures r.Err? ==> RegisterAll(u, ListOf(old(prototypes))) == Err(r.error)
      ensures r.Ok? ==> RegisterAll(u, ListOf(old(prototypes))) == Ok(table.prototypes)
      ensures r.Ok? ==> r.value == ListOf(prototypes) == Kept(ListOf(old(prototypes)), table.prototypes)
      ensures r.Ok? ==> DeclaredIn(table.prototypes, r.value)
      ensures DistinctPrototypes(ListOf(old(prototypes))) ==>
                && r.Ok? && prototypes == old(prototypes) && table.prototypes == TableOf(ListOf(prototypes))
    {
      hide Declaring, KeptPrototypes, State.Valid, DistinctPrototypes, DeclaredIn, RegisteredPrototype, TableOf,
           Universe.Describes, Universe.Meaning;
      WithinStart(table, u);
      if prototypes.None? {
        return Ok([]);
      }
      ghost var before := prototypes.value;
      DeclaringStart(u, table.Now(u), before);
      var i := 0;
      while i < |prototypes.value|
        invariant prototypes.Some? && 0 <= i <= |prototypes.value|
        invariant Declaring(u, table.Now(u), before, prototypes.value, i)
      {
        var registered := RegisterOne(table, u, before, i);
        if registered.Fail? {
          return Err(registered.error);
        }
        i := i + 1;
      }
      DeclaringEnd(u, table.Now(u), before, prototypes.value, i);
      r := Ok(prototypes.value);
    }

    /** Registers one declared prototype, and keeps the object that the table has for it. */
    method RegisterOne(table: TypeTable, ghost u: Universe, ghost before: seq<Method>, i: nat)
        returns (r: Outcome<Error>)
      requires prototypes.Some? && i < |prototypes.value| && Declaring(u, table.Now(u), before, prototypes.value, i)
      modifies this`prototypes, table`prototypes
      ensures prototypes.Some? && |prototypes.value| == |old(prototypes).value|
      ensures r.Pass? ==> Declaring(u, table.Now(u), before, prototypes.value, i + 1)
      ensures r.Fail? ==>
                && table.Now(u).Valid(u) && KeptPrototypes(u, before, prototypes.value)
                && RegisterAll(u, before) == Err(r.error) && !DistinctPrototypes(before)
    {
      hide Declaring, KeptPrototypes, State.Valid, DistinctPrototypes, RegisteredPrototype, Universe.Describes,
           Universe.Meaning, RegisterAll;
      ghost var s := table.Now(u);
      DeclaringMember(u, s, before, prototypes.value, i);
      DeclaringStep(u, s, before, prototypes.value, i);
      var registered, kept := table.RegisterPrototype(prototypes.value[i], u);
      if registered.Err? {
        DeclaringEnd(u, s, before, prototypes.value, i);
        return Fail(registered.error);
      }
      prototypes := Some(prototypes.value[i := kept]);
      assert table.Now(u) == s.(prototypes := table.prototypes);
      r := Pass;
    }

    method RegisterEnums(table: TypeTable, ghost u: Universe) returns (r: Outcome<Error>)
      requires table.Now(u).Valid(u) && table.enums == map[]
      requires forall e :: e in ListOf(enums) ==> e in u.enums
      modifies this`enums, table`enums
      ensures table.Now(u).Valid(u)
      ensures enums.Some? == old(enums).Some?
      ensures KeptEnums(u, ListOf(old(enums)), ListOf(enums))
      ensures r.Fail? ==> RegisterAllEnums(ListOf(old(enums))) == Err(r.error)
      ensures r.Pass? ==> RegisterAllEnums(ListOf(old(enums))) == Ok(table.enums)
      ensures r.Pass? ==> forall e :: e in ListOf(enums) ==> e.name in table.enums
      ensures DistinctEnums(ListOf(old(enums))) ==>
                && r.Pass? && enums == old(enums) && table.enums == EnumTableOf(ListOf(enums))
    {
      hide DeclaringEnums, KeptEnums, State.Valid, DistinctEnums, RegisteredEnum, EnumTableOf, Universe.Describes;
      KeptEnumsReflexive(u, ListOf(enums));
      if enums.None? {
        return Pass;
      }
      ghost var before := enums.value;
      DeclaringEnumsStart(u, table.Now(u), before);
      var i := 0;
      while i < |enums.value|
        invariant enums.Some? && 0 <= i <= |enums.value|
        invariant DeclaringEnums(u, table.Now(u), before, enums.value, i)
      {
        ghost var s := table.Now(u);
        DeclaringEnumsStep(u, s, before, enums.value, i);
        var registered, kept := table.RegisterEnum(enums.value[i]);
        if registered.Err? {
          DeclaringEnumsEnd(u, s, before, enums.value, i);
          return Fail(registered.error);
        }
        enums := Some(enums.value[i := kept]);
        i := i + 1;
      }
      DeclaringEnumsEnd(u, table.Now(u), before, enums.value, i);
      r := Pass;
    }

    lemma ResolvedIsFixed(u: Universe)
      requires Resolved(u)
      ensures Published(u).fields == SnapshotOf(u.props)
      ensures DistinctPrototypes(ListOf(prototypes)) && DistinctEnums(ListOf(enums))
      ensures Settled(u, Published(u))
      ensures AllHoisted(Published(u), ListOf(methods)) && AllLinked(Published(u), ListOf(methods))
      ensures !Cyclic(GraphOf(Published(u)))
      ensures ListOf(prototypes) == Listing(Published(u).prototypes) && ListOf(enums) == Listing(Published(u).enums)
    {
      var s := Published(u);
      ListingIsDistinct(s.prototypes);
      EnumListingIsDistinct(s.enums);
    }

    /** Registers what the manifest declares. */
    method Declare(table: TypeTable, ghost u: Universe) returns (r: Result<seq<Method>, Error>)
      requires Within(u) && table.prototypes == map[] && table.enums == map[]
      modifies this`prototypes, this`enums, table
      ensures table.Now(u).Valid(u)
      ensures KeptPrototypes(u, ListOf(old(prototypes)), ListOf(prototypes))
              && prototypes.Some? == old(prototypes).Some?
      ensures KeptEnums(u, ListOf(old(enums)), ListOf(enums)) && enums.Some? == old(enums).Some?
      ensures r.Err? ==> DeclaredTables(u, ListOf(old(prototypes)), ListOf(old(enums))) == Err(r.error)
      ensures r.Ok? ==> DeclaredTables(u, ListOf(old(prototypes)), ListOf(old(enums))) == Ok(table.Now(u).Table())
      ensures r.Ok? ==> r.value == ListOf(prototypes) == Kept(ListOf(old(prototypes)), table.prototypes)
      ensures r.Ok? ==> DeclaredIn(table.prototypes, r.value)
      ensures r.Ok? ==> forall e :: e in ListOf(enums) ==> e.name in table.enums
      ensures DistinctPrototypes(ListOf(old(prototypes))) && DistinctEnums(ListOf(old(enums))) ==>
                && r.Ok? && prototypes == old(prototypes) && enums == old(enums)
                && table.prototypes == TableOf(ListOf(prototypes)) && table.enums == EnumTableOf(ListOf(enums))
    {
      hide State.Valid, DistinctPrototypes, DistinctEnums, KeptPrototypes, KeptEnums, DeclaredIn, RegisterAll,
           RegisterAllEnums;
      WithinStart(table, u);
      KeptPrototypesWithin(u, ListOf(prototypes), ListOf(prototypes));
      KeptEnumsReflexive(u, ListOf(enums));
      r := RegisterPrototypes(table, u);
      if r.Err? {
        return;
      }
      var registered := RegisterEnums(table, u);
      if registered.Fail? {
        return Err(registered.error);
      }
    }

    /** Pass one: collects from the methods, then from the declared prototypes. */
    method Gather(table: TypeTable, declared: seq<Method>, ghost u: Universe) returns (r: Outcome<Error>)
      requires table.Now(u).Valid(u) && DeclaredIn(table.prototypes, declared)
      requires forall m :: m in ListOf(methods) ==> m in u.methods
      modifies table, u.props
      ensures table.Now(u).Valid(u) && Collected(u, old(table.Now(u)), table.Now(u))
      ensures old(u.Describes(SnapshotOf(u.props))) && InUniverse(u, ListProps(ListOf(methods)) + ListProps(declared))
      ensures Walk(u, old(SnapshotOf(u.props)), ListProps(ListOf(methods)) + ListProps(declared),
              old(table.Now(u).Table()))
              == match r case Pass => Ok(table.Now(u).Table()) case Fail(e) => Err(e)
      ensures r.Pass? ==> AllHoisted(table.Now(u), ListOf(methods))
      ensures old(AllHoisted(table.Now(u), ListOf(methods))) ==> r.Pass? && table.Now(u) == old(table.Now(u))
    {
      hide State.Valid, Collected, AllHoisted, CollectPost, Walk, InUniverse;
      ghost var s := table.Now(u);
      ghost var a, b := ListProps(ListOf(methods)), ListProps(declared);
      DeclaredHoisted(u, s, ListOf(methods), declared);
      ValidParts(u, s);
      r := CollectAll(table, ListOf(methods), u);
      ghost var t := table.Now(u);
      CollectPostValid(u, s, t, a, r);
      if r.Fail? {
        ListPropsInUniverse(u, declared);
        CollectPostFail(u, s, t, a, b, r.error);
        CollectPostResult(u, s, t, a + b, r);
        return;
      }
      r := CollectAll(table, declared, u);
      ghost var v := table.Now(u);
      CollectPostCompose(u, s, t, v, a, b, r);
      CollectPostValid(u, s, v, a + b, r);
      CollectPostResult(u, s, v, a + b, r);
      if r.Fail? {
        return;
      }
      CollectedAll(u, s, t, v, ListOf(methods), declared);
    }

    /** Pass two: links the methods and the table, then rejects cycles. */
    method Connect(table: TypeTable, ghost u: Universe) returns (r: Outcome<Error>)
      requires table.Now(u).Valid(u) && AllHoisted(table.Now(u), ListOf(methods))
      requires forall m :: m in ListOf(methods) ==> m in u.methods
      modifies u.props
      ensures table.Now(u).Valid(u) && LinkedTo(old(table.Now(u)), table.Now(u))
      ensures r.Pass? ==> Settled(u, table.Now(u))
      ensures r.Pass? ==> AllHoisted(table.Now(u), ListOf(methods)) && AllLinked(table.Now(u), ListOf(methods))
      ensures r.Pass? ==> !Cyclic(GraphOf(table.Now(u))) && exists h :: IsRanking(GraphOf(table.Now(u)), h)
      ensures r.Pass? <==> Connectable(u, old(SnapshotOf(u.props)), ListOf(methods), table.Now(u).Table())
      ensures r.Fail? ==> Explains(u, old(SnapshotOf(u.props)), ListOf(methods), table.Now(u).Table(), r.error)
      ensures old(AllLinked(table.Now(u), ListOf(methods)) && !Cyclic(GraphOf(table.Now(u)))) ==>
                r.Pass? && table.Now(u) == old(table.Now(u))
    {
      hide State.Valid, LinkedTo, AllHoisted, LinkPost, Settled, Cyclic, IsRanking, Connectable, Explains, OnCycle,
           GraphOf, PropsOf, TableProps;
      ghost var s := table.Now(u);
      ghost var a, b := PropsOf(ListOf(methods)), TableProps(s.prototypes, s.prototypes.Keys);
      LinkedReflexive(s);
      r := LinkAll(table, ListOf(methods), u);
      ghost var t := table.Now(u);
      LinkPostValid(u, s, t, a, r);
      if r.Fail? {
        LinkPostError(u, s, s, t, ListOf(methods), a, r);
        return;
      }
      LinkedTables(s, t);
      r := LinkTable(table, u);
      ghost var v := table.Now(u);
      LinkPostCompose(u, s, t, v, a, b, r);
      LinkPostValid(u, s, v, a + b, r);
      LinkedTables(s, v);
      if r.Fail? {
        LinkPostError(u, s, t, v, ListOf(methods), b, r);
        return;
      }
      LinkPostReferenced(u, s, v, a + b);
      LinkedAll(u, s, t, v, ListOf(methods));
      r := DetectCycles(table, u);
      SettledGraph(u, v);
      ConnectableIff(u, s, ListOf(methods));
      if r.Fail? {
        CycleExplains(u, s.fields, ListOf(methods), v, r.error);
      }
    }

    lemma WithinStart(table: TypeTable, u: Universe)
      requires Within(u) && table.prototypes == map[] && table.enums == map[]
      ensures table.Now(u).Valid(u)
      ensures forall m :: m in ListOf(prototypes) ==> m in u.methods
      ensures KeptPrototypes(u, ListOf(prototypes), ListOf(prototypes))
      ensures DeclaredIn(table.prototypes, [])
    {
    }

    /** The manifest as it is written now. */
    ghost function AsWritten(u: Universe): (w: Written)
      requires Within(u)
      reads this, u.props
      ensures w.Valid()
    {
      Written(u, SnapshotOf(u.props), ListOf(methods), ListOf(prototypes), ListOf(enums))
    }

    /** Everything up to the end of pass one. */
    method DeclareAndGather(table: TypeTable, ghost u: Universe) returns (r: Outcome<Error>)
      requires Within(u) && table.prototypes == map[] && table.enums == map[]
      modifies this`prototypes, this`enums, table, u.props
      ensures table.Now(u).Valid(u) && Evolved(u, old(SnapshotOf(u.props)), SnapshotOf(u.props))
      ensures old(AsWritten(u)).Table() == match r case Pass => Ok(table.Now(u).Table()) case Fail(e) => Err(e)
      ensures Collected(u, State(old(SnapshotOf(u.props)), map[], map[]), table.Now(u))
      ensures r.Pass? ==> AllHoisted(table.Now(u), ListOf(methods))
      ensures r.Pass? ==> NamesIn(table.Now(u), ListOf(prototypes), ListOf(enums))
      ensures old(Resolved(u)) ==>
                r.Pass? && prototypes == old(prototypes) && enums == old(enums) && table.Now(u) == old(Published(u))
    {
      hide Resolved, Evolved, State.Valid, Collected, KeptPrototypes, KeptEnums, Walk, DeclaredTables, Gathered,
           ListProps, Kept, InUniverse, Universe.Describes, AllHoisted, AllLinked, Settled, DeclaredIn, Cyclic,
           DistinctPrototypes, DistinctEnums, NamesIn, SnapshotOf, TableOf, EnumTableOf, Listing, GraphOf, IsRanking;
      ghost var f, before, beforeEnums := SnapshotOf(u.props), ListOf(prototypes), ListOf(enums);
      if Resolved(u) {
        ResolvedIsFixed(u);
      }
      UnchangedEvolves(u, f);
      var declared := Declare(table, u);
      ghost var s := table.Now(u);
      CollectedFromStart(u, s);
      GatheredInTwo(u, f, ListOf(methods), before, beforeEnums);
      if declared.Err? {
        return Fail(declared.error);
      }
      r := Gather(table, declared.value, u);
      CollectedEvolves(u, s, table.Now(u));
      CollectedTransitive(u, State(f, map[], map[]), s, table.Now(u));
      if r.Fail? {
        return;
      }
      DeclaredNames(u, s, table.Now(u), before, declared.value, beforeEnums, ListOf(enums));
    }

    /**
     * Resolves the manifest. Whatever the outcome, every field keeps denoting the name it denoted and
     * collapsed definitions mean what they meant. It succeeds exactly if the manifest contributes a table
     * in which every name held by a method or a prototype is defined and no prototype reaches itself; that
     * table is then published, and Resolved holds. An error is the one that collecting stops at, or it
     * names such a name or such a prototype. A manifest that is resolved already is left exactly as it is.
     */
    method Resolve(ghost u: Universe) returns (r: Outcome<Error>)
      requires Within(u)
      modifies this, u.props
      ensures Evolved(u, old(SnapshotOf(u.props)), SnapshotOf(u.props))
      ensures var w := old(AsWritten(u));
              && (r.Pass? <==> w.Accepted()) && (r.Pass? ==> Published(u).Table() == w.Table().value)
              && (r.Fail? ==> if w.Table().Err? then r.error == w.Table().error
                              else Explains(u, w.f, w.methods, w.Table().value, r.error))
      ensures r.Pass? ==> Resolved(u)
      ensures old(Resolved(u)) ==>
                && r.Pass? && prototypes == old(prototypes) && enums == old(enums)
                && SnapshotOf(u.props) == old(SnapshotOf(u.props))
    {
      hide Resolved, Evolved, State.Valid, LinkedTo, AllHoisted, AllLinked, Settled, Connectable, Explains, Collected,
           Cyclic, IsRanking, DistinctPrototypes, DistinctEnums, NamesIn, Universe.Describes, GraphOf, Listing, TableOf,
           EnumTableOf, Gathered, Published, SnapshotOf, Written.Table;
      ghost var f := SnapshotOf(u.props);
      if Resolved(u) {
        ResolvedIsFixed(u);
      }
      var table := new TypeTable();
      r := DeclareAndGather(table, u);
      if r.Fail? {
        return;
      }
      ghost var t := table.Now(u);
      r := Connect(table, u);
      ghost var v := table.Now(u);
      LinkedTables(t, v);
      ConnectableCollected(u, State(f, map[], map[]), t, ListOf(methods), if r.Fail? then r.error else VoidParameter);
      LinkedEvolves(u, f, t, v);
      NamesStay(t, v, ListOf(prototypes), ListOf(enums));
      if r.Fail? {
        return;
      }
      PublishTables(table, u);
      ResolvedFrom(u, v);
    }

    /** Publishes the tables, sorted by name; an empty table leaves its field alone. */
    method PublishTables(table: TypeTable, ghost u: Universe)
      requires table.Now(u).Valid(u) && NamesIn(table.Now(u), ListOf(prototypes), ListOf(enums))
      modifies this`prototypes, this`enums
      ensures Published(u) == table.Now(u)
      ensures ListOf(prototypes) == Listing(table.prototypes) && ListOf(enums) == Listing(table.enums)
      ensures old(ListOf(prototypes)) == Listing(table.prototypes) ==> prototypes == old(prototypes)
      ensures old(ListOf(enums)) == Listing(table.enums) ==> enums == old(enums)
    {
      hide State.Valid;
      ghost var v := table.Now(u);
      TableInUniverse(u, v);
      var list, enumList := prototypes, enums;
      prototypes := Publish(list, table.prototypes);
      enums := Publish(enumList, table.enums);
      PublishedBack(v, list, prototypes);
      PublishedEnumsBack(v, enumList, enums);
      if ListOf(list) == Listing(table.prototypes) {
        RepublishedSame(list, table.prototypes, prototypes);
      }
      if ListOf(enumList) == Listing(table.enums) {
        RepublishedSame(enumList, table.enums, enums);
      }
    }

    lemma ResolvedFrom(u: Universe, v: State)
      requires Published(u) == v && Settled(u, v)
      requires AllHoisted(v, ListOf(methods)) && AllLinked(v, ListOf(methods))
      requires !Cyclic(GraphOf(v)) && exists h :: IsRanking(GraphOf(v), h)
      requires ListOf(prototypes) == Listing(v.prototypes) && ListOf(enums) == Listing(v.enums)
      ensures Resolved(u)
    {
    }
  }
}
