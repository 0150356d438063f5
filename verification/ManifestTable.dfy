/**
 * The table that gathers every prototype and enum of a manifest by name. Collect hoists inline
 * definitions into it and collapses duplicates; Link replaces names by the definitions they denote.
 */
module TypeTables {
  import opened Wrappers
  import opened ManifestModel
  import opened DefinitionWalks

  /** The table and the fields of a universe of properties, as a value. */
  datatype State = State(fields: Snapshot, prototypes: map<string, Method>, enums: map<string, EnumType>)
  {
    ghost predicate Valid(u: Universe) {
      && u.Valid() && u.Describes(fields)
      && (forall n :: n in prototypes ==> prototypes[n] in u.methods && prototypes[n].name == n && n != "")
      && (forall n :: n in enums ==> enums[n] in u.enums && enums[n].name == n && n != "")
    }

    ghost function Table(): Tables {
      Tables(prototypes, enums)
    }

    ghost predicate HoistedPrototype(p: Property)
      requires p in fields
    {
      var m := PrototypeOf(fields[p].prototype);
      m != null ==> m.name in prototypes && prototypes[m.name] == m
    }

    ghost predicate HoistedEnum(p: Property)
      requires p in fields
    {
      var e := EnumOf(fields[p].enumerate);
      e != null ==> e.name in enums && enums[e.name] == e
    }

    /** Each definition the property holds is the table's own object of that name. */
    ghost predicate Hoisted(p: Property) {
      p in fields && HoistedPrototype(p) && HoistedEnum(p)
    }

    ghost predicate HoistedMethod(m: Method) {
      forall p :: p in m.Props() ==> Hoisted(p)
    }

    /** Every prototype registered beyond those of before has been walked. */
    ghost predicate HoistedSince(before: map<string, Method>) {
      forall n :: n in prototypes && n !in before ==> HoistedMethod(prototypes[n])
    }

    /** Neither field of the property holds a name any more. */
    ghost predicate Linked(p: Property) {
      p in fields && fields[p].prototype.Inline? && fields[p].enumerate.Inline?
    }

    ghost predicate LinkedMethod(m: Method) {
      forall p :: p in m.Props() ==> Linked(p)
    }
  }

  /** A field changes at most from one definition to another one that means the same. */
  ghost predicate CollapsedField(u: Universe, f: Fields, g: Fields) {
    && (g.prototype == f.prototype ||
        (var a, b := PrototypeOf(f.prototype), PrototypeOf(g.prototype);
         a != null && b != null && a.name == b.name && u.Meaning(a) == u.Meaning(b)))
    && (g.enumerate == f.enumerate ||
        (var a, b := EnumOf(f.enumerate), EnumOf(g.enumerate);
         a != null && b != null && a.name == b.name && a.values == b.values))
  }

  /**
   * What collecting may do: add entries, and collapse definitions onto the table's ones that mean the
   * same. A property whose definitions are already the table's own does not change at all.
   */
  ghost predicate Collected(u: Universe, s: State, t: State) {
    && s.fields.Keys == t.fields.Keys
    && Extends(s.Table(), t.Table())
    && forall p :: p in s.fields ==> CollectedProperty(u, s, t, p)
  }

  ghost predicate CollectedProperty(u: Universe, s: State, t: State, p: Property)
    requires p in s.fields && p in t.fields
  {
    && CollapsedField(u, s.fields[p], t.fields[p])
    && (s.HoistedPrototype(p) ==> t.fields[p].prototype == s.fields[p].prototype)
    && (s.HoistedEnum(p) ==> t.fields[p].enumerate == s.fields[p].enumerate)
    && (t.fields[p].prototype != s.fields[p].prototype ==> t.HoistedPrototype(p))
    && (t.fields[p].enumerate != s.fields[p].enumerate ==> t.HoistedEnum(p))
  }

  lemma CollectedKeepsHoisted(u: Universe, s: State, t: State, p: Property)
    requires Collected(u, s, t) && s.Hoisted(p)
    ensures t.Hoisted(p) && t.fields[p] == s.fields[p]
  {
    assert CollectedProperty(u, s, t, p);
  }

  lemma CollectedKeepsHoistedMethod(u: Universe, s: State, t: State, m: Method)
    requires Collected(u, s, t) && s.HoistedMethod(m)
    ensures t.HoistedMethod(m)
  {
    forall p | p in m.Props() ensures t.Hoisted(p) {
      CollectedKeepsHoisted(u, s, t, p);
    }
  }

  lemma CollectedTransitive(u: Universe, s: State, t: State, v: State)
    requires Collected(u, s, t) && Collected(u, t, v)
    ensures Collected(u, s, v)
  {
    hide CollectedProperty;
    forall p | p in s.fields ensures CollectedProperty(u, s, v, p) {
      CollectedPropertyTransitive(u, s, t, v, p);
    }
  }

  lemma CollectedPropertyTransitive(u: Universe, s: State, t: State, v: State, p: Property)
    requires p in s.fields && p in t.fields && p in v.fields && Extends(s.Table(), t.Table())
             && Extends(t.Table(), v.Table())
    requires CollectedProperty(u, s, t, p) && CollectedProperty(u, t, v, p)
    ensures CollectedProperty(u, s, v, p)
  {
    hide Universe.Meaning;
  }

  lemma HoistedSinceTransitive(u: Universe, before: map<string, Method>, s: State, t: State)
    requires Collected(u, s, t) && s.HoistedSince(before) && t.HoistedSince(s.prototypes)
    ensures t.HoistedSince(before)
  {
    forall n | n in t.prototypes && n !in before ensures t.HoistedMethod(t.prototypes[n]) {
      if n in s.prototypes {
        CollectedKeepsHoistedMethod(u, s, t, s.prototypes[n]);
      }
    }
  }

  lemma DescribesUpdate(u: Universe, s: Snapshot, p: Property, f: Fields)
    requires u.Valid() && u.Describes(s) && p in s && u.DescribesField(p, f)
    ensures u.Describes(s[p := f])
  {
  }

  lemma CollectedUpdate(u: Universe, s: State, p: Property, t: State)
    requires p in s.fields && p in t.fields && t.fields == s.fields[p := t.fields[p]]
    requires Extends(s.Table(), t.Table()) && CollectedProperty(u, s, t, p)
    ensures Collected(u, s, t)
  {
    hide Extends;
    forall q | q in s.fields ensures CollectedProperty(u, s, t, q) {
      assert q != p ==> t.fields[q] == s.fields[q];
    }
  }

  /** A prototype already known is replaced by the object that stays, which means the same. */
  lemma KnownPrototype(u: Universe, s: State, p: Property)
    requires s.Valid(u) && p in s.fields && PrototypeOf(s.fields[p].prototype) != null
    requires RegisteredPrototype(u, s.prototypes, PrototypeOf(s.fields[p].prototype)).Known?
    ensures var kept := RegisteredPrototype(u, s.prototypes, PrototypeOf(s.fields[p].prototype)).kept;
            var t := s.(fields := s.fields[p := s.fields[p].(prototype := Inline(kept))]);
            t.Valid(u) && Collected(u, s, t) && t.HoistedPrototype(p)
  {
    var m := PrototypeOf(s.fields[p].prototype);
    var kept := s.prototypes[m.name];
    var f := s.fields[p].(prototype := Inline(kept));
    assert u.DescribesField(p, s.fields[p]);
    DescribesUpdate(u, s.fields, p, f);
    CollectedUpdate(u, s, p, s.(fields := s.fields[p := f]));
  }

  lemma KnownEnum(u: Universe, s: State, p: Property)
    requires s.Valid(u) && p in s.fields && EnumOf(s.fields[p].enumerate) != null
    requires RegisteredEnum(s.enums, EnumOf(s.fields[p].enumerate)).Known?
    ensures var kept := RegisteredEnum(s.enums, EnumOf(s.fields[p].enumerate)).kept;
            var t := s.(fields := s.fields[p := s.fields[p].(enumerate := Inline(kept))]);
            t.Valid(u) && Collected(u, s, t) && t.HoistedEnum(p)
  {
    var e := EnumOf(s.fields[p].enumerate);
    var kept := s.enums[e.name];
    var f := s.fields[p].(enumerate := Inline(kept));
    assert u.DescribesField(p, s.fields[p]);
    DescribesUpdate(u, s.fields, p, f);
    CollectedUpdate(u, s, p, s.(fields := s.fields[p := f]));
  }

  lemma IntroducedPrototype(u: Universe, s: State, m: Method)
    requires s.Valid(u) && m in u.methods && RegisteredPrototype(u, s.prototypes, m).Introduced?
    ensures var t := s.(prototypes := s.prototypes[m.name := m]);
            t.Valid(u) && Collected(u, s, t)
  {
  }

  lemma IntroducedEnum(u: Universe, s: State, e: EnumType)
    requires s.Valid(u) && e in u.enums && RegisteredEnum(s.enums, e).Introduced?
    ensures var t := s.(enums := s.enums[e.name := e]);
            t.Valid(u) && Collected(u, s, t)
  {
  }

  /** The outcome of hoisting what one field of a property holds. */
  datatype Hoist = Hoisting(state: State, introduced: bool) | Clash(error: Error)

  ghost function HoistingPrototype(u: Universe, s: State, p: Property): (h: Hoist)
    requires p in s.fields
  {
    var f := s.fields[p];
    var m := PrototypeOf(f.prototype);
    if m == null then Hoisting(s, false) else
    match RegisteredPrototype(u, s.prototypes, m)
    case Introduced(table) => Hoisting(s.(prototypes := table), true)
    case Known(kept) => Hoisting(s.(fields := s.fields[p := f.(prototype := Inline(kept))]), false)
    case Rejected(e) => Clash(e)
  }

  ghost function HoistingEnum(s: State, p: Property): (h: Hoist)
    requires p in s.fields
  {
    var f := s.fields[p];
    var e := EnumOf(f.enumerate);
    if e == null then Hoisting(s, false) else
    match RegisteredEnum(s.enums, e)
    case Introduced(table) => Hoisting(s.(enums := table), true)
    case Known(kept) => Hoisting(s.(fields := s.fields[p := f.(enumerate := Inline(kept))]), false)
    case Rejected(error) => Clash(error)
  }

  /** The definition has no name, or does not mean what the table has under its name. */
  ghost predicate ClashesWith(u: Universe, table: map<string, Method>, m: Method?, e: Error) {
    && m != null
    && if m.name == "" then e == Unnamed(PrototypeKind)
       else e == Conflicting(PrototypeKind, m.name) && m.name in table && u.Meaning(table[m.name]) != u.Meaning(m)
  }

  ghost predicate EnumClashesWith(table: map<string, EnumType>, d: EnumType?, e: Error) {
    && d != null
    && if d.name == "" then e == Unnamed(EnumKind)
       else e == Conflicting(EnumKind, d.name) && d.name in table && table[d.name].values != d.values
  }

  lemma HoistingPrototypeSound(u: Universe, s: State, p: Property)
    requires s.Valid(u) && p in s.fields
    ensures match HoistingPrototype(u, s, p)
            case Hoisting(t, introduced) => t.Valid(u) && Collected(u, s, t) && t.HoistedPrototype(p)
            case Clash(e) => ClashesWith(u, s.prototypes, PrototypeOf(s.fields[p].prototype), e)
  {
    assert u.DescribesField(p, s.fields[p]);
    var m := PrototypeOf(s.fields[p].prototype);
    if m != null {
      match RegisteredPrototype(u, s.prototypes, m)
      case Introduced(_) => IntroducedPrototype(u, s, m);
      case Known(_) => KnownPrototype(u, s, p);
      case Rejected(_) =>
    }
  }

  lemma HoistingEnumSound(u: Universe, s: State, p: Property)
    requires s.Valid(u) && p in s.fields
    ensures match HoistingEnum(s, p)
            case Hoisting(t, introduced) => t.Valid(u) && Collected(u, s, t) && t.HoistedEnum(p)
            case Clash(e) => EnumClashesWith(s.enums, EnumOf(s.fields[p].enumerate), e)
  {
    assert u.DescribesField(p, s.fields[p]);
    var e := EnumOf(s.fields[p].enumerate);
    if e != null {
      match RegisteredEnum(s.enums, e)
      case Introduced(_) => IntroducedEnum(u, s, e);
      case Known(_) => KnownEnum(u, s, p);
      case Rejected(_) =>
    }
  }

  /** Hoisting what is already the table's own changes nothing. */
  lemma HoistingFixed(u: Universe, s: State, p: Property)
    requires s.Valid(u) && p in s.fields
    ensures s.HoistedPrototype(p) ==> HoistingPrototype(u, s, p) == Hoisting(s, false)
    ensures s.HoistedEnum(p) ==> HoistingEnum(s, p) == Hoisting(s, false)
  {
    assert s.fields[p := s.fields[p]] == s.fields;
  }

  lemma CollectedShrinks(u: Universe, s: State, t: State)
    requires Collected(u, s, t)
    ensures Unregistered(u, t.prototypes) <= Unregistered(u, s.prototypes)
  {
  }

  lemma DescentShrinks(u: Universe, s: State, p: Property)
    requires s.Valid(u) && p in s.fields
    requires HoistingPrototype(u, s, p).Hoisting? && HoistingPrototype(u, s, p).introduced
    ensures var m := PrototypeOf(s.fields[p].prototype);
            var t := HoistingPrototype(u, s, p).state;
            && m != null && m in u.methods && m.name != "" && m.name !in s.prototypes
            && t == s.(prototypes := s.prototypes[m.name := m])
            && Unregistered(u, t.prototypes) < Unregistered(u, s.prototypes)
  {
    var m := PrototypeOf(s.fields[p].prototype);
    assert u.DescribesField(p, s.fields[p]);
    assert m.name in u.PrototypeNameSpace();
    assert m.name in Unregistered(u, s.prototypes);
    assert m.name !in Unregistered(u, s.prototypes[m.name := m]);
  }

  /** What collecting from the given properties, in order, achieves, and exactly when it fails. */
  ghost predicate CollectPost(u: Universe, s: State, t: State, todo: seq<Property>, r: Outcome<Error>) {
    && s.Valid(u) && t.Valid(u) && Collected(u, s, t) && InUniverse(u, todo)
    && match r
       case Pass =>
         && Walk(u, s.fields, todo, s.Table()) == Ok(t.Table())
         && t.HoistedSince(s.prototypes) && forall p :: p in todo ==> t.Hoisted(p)
       case Fail(e) => Walk(u, s.fields, todo, s.Table()) == Err(e)
  }

  lemma ValidParts(u: Universe, s: State)
    requires s.Valid(u)
    ensures u.Valid() && u.Describes(s.fields) && s.fields.Keys == u.props
  {
  }

  lemma CollectPostValid(u: Universe, s: State, t: State, todo: seq<Property>, r: Outcome<Error>)
    requires CollectPost(u, s, t, todo, r)
    ensures t.Valid(u) && Collected(u, s, t)
  {
  }

  lemma CollectPostNothing(u: Universe, s: State)
    requires s.Valid(u)
    ensures CollectPost(u, s, s, [], Pass)
    ensures forall m :: m in u.methods ==> m.Props() <= u.props
  {
  }

  /** A walk from what has been collected goes on as it would have from the fields before. */
  lemma WalkFromCollected(u: Universe, s: State, t: State, todo: seq<Property>)
    requires s.Valid(u) && t.Valid(u) && Collected(u, s, t) && InUniverse(u, todo)
    ensures Walk(u, s.fields, todo, t.Table()) == Walk(u, t.fields, todo, t.Table())
  {
    hide Walk, State.Valid, CollectedProperty, SamePrototypeIn, SameEnumIn;
    ValidParts(u, s);
    ValidParts(u, t);
    forall p | p in u.props
      ensures p in s.fields && p in t.fields
      ensures SamePrototypeIn(u, s.fields[p].prototype, t.fields[p].prototype, t.prototypes)
      ensures SameEnumIn(s.fields[p].enumerate, t.fields[p].enumerate, t.enums)
    {
      CollectedAlike(u, s, t, p);
    }
    WalkAlike(u, s.fields, t.fields, todo, t.Table());
  }

  lemma CollectedAlike(u: Universe, s: State, t: State, p: Property)
    requires p in s.fields && p in t.fields && CollectedProperty(u, s, t, p)
    ensures SamePrototypeIn(u, s.fields[p].prototype, t.fields[p].prototype, t.prototypes)
    ensures SameEnumIn(s.fields[p].enumerate, t.fields[p].enumerate, t.enums)
  {
    hide Universe.Meaning;
  }

  /** Once a step has failed it does not matter what else there would have been to do. */
  lemma CollectPostFail(u: Universe, s: State, t: State, a: seq<Property>, b: seq<Property>, e: Error)
    requires CollectPost(u, s, t, a, Fail(e)) && InUniverse(u, b)
    ensures CollectPost(u, s, t, a + b, Fail(e))
  {
    hide Walk, State.Valid, Collected;
    ValidParts(u, s);
    WalkConcat(u, s.fields, a, b, s.Table());
  }

  /** Two collecting steps in a row. */
  lemma CollectPostCompose(u: Universe, s: State, t: State, v: State, a: seq<Property>, b: seq<Property>,
                           r: Outcome<Error>)
    requires CollectPost(u, s, t, a, Pass) && CollectPost(u, t, v, b, r)
    ensures CollectPost(u, s, v, a + b, r)
  {
    hide Collected, State.Valid, Walk;
    ValidParts(u, s);
    ValidParts(u, t);
    CollectedTransitive(u, s, t, v);
    WalkConcat(u, s.fields, a, b, s.Table());
    WalkFromCollected(u, s, t, b);
    if r.Pass? {
      HoistedSinceTransitive(u, s.prototypes, t, v);
      forall p | p in a ensures v.Hoisted(p) {
        CollectedKeepsHoisted(u, t, v, p);
      }
    }
  }

  /** Both fields of a property are hoisted, one after the other. */
  lemma HoistingBoth(u: Universe, s0: State, s1: State, s2: State, p: Property)
    requires s0.Valid(u) && p in s0.fields
    requires HoistingPrototype(u, s0, p).Hoisting? && HoistingPrototype(u, s0, p).state == s1
    requires p in s1.fields && HoistingEnum(s1, p).Hoisting? && HoistingEnum(s1, p).state == s2
    ensures s2.Valid(u) && Collected(u, s0, s2) && s2.Hoisted(p) && s2.prototypes == s1.prototypes
    ensures Entered(u, s0.fields[p], s0.Table()) == Ok(s2.Table())
  {
    hide Collected, State.Valid, RegisteredPrototype, RegisteredEnum;
    HoistingPrototypeSound(u, s0, p);
    HoistingEnumSound(u, s1, p);
    CollectedTransitive(u, s0, s1, s2);
  }

  lemma HoistingIntroduces(u: Universe, s: State, p: Property)
    requires p in s.fields && HoistingPrototype(u, s, p).Hoisting?
    ensures var m := PrototypeOf(s.fields[p].prototype);
            if HoistingPrototype(u, s, p).introduced then m != null && Below(s.fields[p], s.prototypes) == InOrder(m)
            else Below(s.fields[p], s.prototypes) == [] && HoistingPrototype(u, s, p).state.prototypes == s.prototypes
  {
    hide Universe.Meaning;
  }

  lemma WalkOne(u: Universe, f: Snapshot, p: Property, t: Tables)
    requires u.Valid() && u.Describes(f) && p in u.props
    ensures InUniverse(u, [p])
    ensures Entered(u, f[p], t).Err? ==> Walk(u, f, [p], t) == Err(Entered(u, f[p], t).error)
    ensures Entered(u, f[p], t).Ok? ==>
              && InUniverse(u, Below(f[p], t.prototypes))
              && Walk(u, f, [p], t) == Walk(u, f, Below(f[p], t.prototypes), Entered(u, f[p], t).value)
  {
    hide Entered, Below, Unregistered;
    if Entered(u, f[p], t).Ok? {
      EnteredOne(u, f, p, t);
      assert Below(f[p], t.prototypes) + [p][1..] == Below(f[p], t.prototypes);
    }
  }

  /** A property whose fields cannot both be hoisted fails to contribute. */
  lemma HoistingFails(u: Universe, s0: State, p: Property)
    requires s0.Valid(u) && p in u.props && p in s0.fields
    ensures u.Valid() && u.Describes(s0.fields) && InUniverse(u, [p])
    ensures HoistingPrototype(u, s0, p).Clash? ==>
              Walk(u, s0.fields, [p], s0.Table()) == Err(HoistingPrototype(u, s0, p).error)
    ensures HoistingPrototype(u, s0, p).Hoisting? ==>
              var s1 := HoistingPrototype(u, s0, p).state;
              && s1.Valid(u) && Collected(u, s0, s1) && p in s1.fields
              && (HoistingEnum(s1, p).Clash? ==> Walk(u, s0.fields, [p], s0.Table()) == Err(HoistingEnum(s1, p).error))
  {
    hide Collected, RegisteredPrototype, RegisteredEnum, State.Valid, Walk, Below;
    ValidParts(u, s0);
    HoistingPrototypeSound(u, s0, p);
    WalkOne(u, s0.fields, p, s0.Table());
    if HoistingPrototype(u, s0, p).Hoisting? {
      ValidParts(u, HoistingPrototype(u, s0, p).state);
    }
  }

  lemma CollectPropertyFails(u: Universe, s: State, t: State, p: Property, e: Error)
    requires s.Valid(u) && t.Valid(u) && Collected(u, s, t) && p in u.props
    requires u.Valid() && u.Describes(s.fields) && InUniverse(u, [p]) && Walk(u, s.fields, [p], s.Table()) == Err(e)
    ensures CollectPost(u, s, t, [p], Fail(e))
  {
  }

  lemma CollectedReflexive(u: Universe, s: State)
    ensures Collected(u, s, s)
  {
  }

  lemma CollectPropertyKnown(u: Universe, s: State, t: State, p: Property)
    requires s.Valid(u) && t.Valid(u) && Collected(u, s, t) && t.Hoisted(p) && t.prototypes == s.prototypes
    requires p in u.props && p in s.fields
    requires Entered(u, s.fields[p], s.Table()) == Ok(t.Table()) && Below(s.fields[p], s.prototypes) == []
    ensures CollectPost(u, s, t, [p], Pass)
  {
    hide Collected, State.Valid, Entered, Below;
    ValidParts(u, s);
    WalkOne(u, s.fields, p, s.Table());
  }

  /** A property is collected once its fields are hoisted and the prototype it introduced is walked. */
  lemma CollectPropertyPost(u: Universe, s: State, t: State, v: State, p: Property, m: Method, r: Outcome<Error>)
    requires s.Valid(u) && t.Valid(u) && Collected(u, s, t) && t.Hoisted(p) && p in u.props && p in s.fields
    requires t.prototypes == s.prototypes[m.name := m]
    requires Entered(u, s.fields[p], s.Table()) == Ok(t.Table()) && Below(s.fields[p], s.prototypes) == InOrder(m)
    requires CollectPost(u, t, v, InOrder(m), r)
    ensures CollectPost(u, s, v, [p], r)
  {
    hide Entered, Below, State.Valid, Collected, Walk;
    ValidParts(u, s);
    CollectedTransitive(u, s, t, v);
    WalkOne(u, s.fields, p, s.Table());
    WalkFromCollected(u, s, t, InOrder(m));
    if r.Pass? {
      CollectedKeepsHoisted(u, t, v, p);
      InOrderHoisted(v, m);
      WalkedSince(u, s, t, v, m);
    }
  }

  lemma WalkedSince(u: Universe, s: State, t: State, v: State, m: Method)
    requires t.prototypes == s.prototypes[m.name := m] && Collected(u, t, v)
    requires v.HoistedMethod(m) && v.HoistedSince(t.prototypes)
    ensures v.HoistedSince(s.prototypes)
  {
    hide State.HoistedMethod, CollectedProperty;
  }

  lemma RestInUniverse(u: Universe, m: Method, i: nat)
    requires m.Props() <= u.props && i <= |m.paramTypes|
    ensures InUniverse(u, InOrder(m)[i..]) && m.paramTypes[..i] + InOrder(m)[i..] == InOrder(m)
  {
    assert forall p :: p in InOrder(m) ==> p in (set q | q in InOrder(m));
  }

  lemma InOrderHoisted(s: State, m: Method)
    requires forall p :: p in InOrder(m) ==> s.Hoisted(p)
    ensures s.HoistedMethod(m)
  {
    forall p | p in m.Props() ensures s.Hoisted(p) {
      assert p in (set q | q in InOrder(m));
    }
  }

  ghost predicate LinkedPrototypeField(s: State, f: Definition<Method?>, g: Definition<Method?>) {
    g == f || (f.Reference? && f.name in s.prototypes && g == Inline(s.prototypes[f.name]))
  }

  ghost predicate LinkedEnumField(s: State, f: Definition<EnumType?>, g: Definition<EnumType?>) {
    g == f || (f.Reference? && f.name in s.enums && g == Inline(s.enums[f.name]))
  }

  /** What linking may do: replace names by the definitions the table has under them. */
  ghost predicate LinkedTo(s: State, t: State) {
    && t.prototypes == s.prototypes && t.enums == s.enums
    && t.fields.Keys == s.fields.Keys
    && (forall p :: p in s.fields ==> LinkedPrototypeField(s, s.fields[p].prototype, t.fields[p].prototype))
    && (forall p :: p in s.fields ==> LinkedEnumField(s, s.fields[p].enumerate, t.fields[p].enumerate))
  }

  /** What linking the given properties achieves; a failure names a reference that one of them held. */
  ghost predicate LinkPost(u: Universe, s: State, t: State, props: set<Property>, r: Outcome<Error>) {
    && t.Valid(u) && LinkedTo(s, t)
    && match r
       case Pass => forall p :: p in props ==> t.Linked(p)
       case Fail(Unknown(PrototypeKind, n)) =>
         n !in s.prototypes && exists p :: p in props && p in s.fields && s.fields[p].prototype == Reference(n)
       case Fail(Unknown(EnumKind, n)) =>
         n !in s.enums && exists p :: p in props && p in s.fields && s.fields[p].enumerate == Reference(n)
       case _ => false
  }

  lemma LinkedToKeepsLinked(s: State, t: State, p: Property)
    requires LinkedTo(s, t) && s.Linked(p)
    ensures t.Linked(p) && t.fields[p] == s.fields[p]
  {
  }

  lemma LinkedToKeepsHoisted(u: Universe, s: State, t: State, p: Property)
    requires s.Valid(u) && LinkedTo(s, t) && s.Hoisted(p)
    ensures t.Hoisted(p)
  {
    assert s.HoistedPrototype(p) && s.HoistedEnum(p);
    assert LinkedPrototypeField(s, s.fields[p].prototype, t.fields[p].prototype);
    assert LinkedEnumField(s, s.fields[p].enumerate, t.fields[p].enumerate);
  }

  /** Linking makes no new references. */
  lemma ReferencesStay(s: State, t: State)
    requires LinkedTo(s, t)
    ensures forall p :: p in t.fields && t.fields[p].prototype.Reference? ==>
            s.fields[p].prototype == t.fields[p].prototype
    ensures forall p :: p in t.fields && t.fields[p].enumerate.Reference? ==>
            s.fields[p].enumerate == t.fields[p].enumerate
  {
  }

  lemma LinkedToTransitive(s: State, t: State, v: State)
    requires LinkedTo(s, t) && LinkedTo(t, v)
    ensures LinkedTo(s, v)
  {
  }

  lemma LinkPostValid(u: Universe, s: State, t: State, props: set<Property>, r: Outcome<Error>)
    requires LinkPost(u, s, t, props, r)
    ensures t.Valid(u) && LinkedTo(s, t)
  {
  }

  lemma LinkPostNothing(u: Universe, s: State)
    requires s.Valid(u)
    ensures LinkPost(u, s, s, {}, Pass)
    ensures forall m :: m in u.methods ==> m.Props() <= u.props
  {
  }

  lemma LinkPostFail(u: Universe, s: State, t: State, a: set<Property>, b: set<Property>, e: Error)
    requires LinkPost(u, s, t, a, Fail(e)) && a <= b
    ensures LinkPost(u, s, t, b, Fail(e))
  {
  }

  lemma LinkPostCompose(u: Universe, s: State, t: State, v: State, a: set<Property>, b: set<Property>,
                        r: Outcome<Error>)
    requires LinkPost(u, s, t, a, Pass) && LinkPost(u, t, v, b, r)
    ensures LinkPost(u, s, v, a + b, r)
  {
    LinkedToTransitive(s, t, v);
    ReferencesStay(s, t);
    if r.Pass? {
      forall p | p in a ensures v.Linked(p) {
        LinkedToKeepsLinked(t, v, p);
      }
    }
  }

  lemma LinkPrototypeStep(u: Universe, s: State, p: Property)
    requires s.Valid(u) && p in s.fields && s.fields[p].prototype.Reference?
    ensures var n := s.fields[p].prototype.name;
            if n in s.prototypes
            then var t := s.(fields := s.fields[p := s.fields[p].(prototype := Inline(s.prototypes[n]))]);
                 t.Valid(u) && LinkedTo(s, t)
            else LinkPost(u, s, s, {p}, Fail(Unknown(PrototypeKind, n)))
  {
    var n := s.fields[p].prototype.name;
    assert u.DescribesField(p, s.fields[p]);
    if n in s.prototypes {
      DescribesUpdate(u, s.fields, p, s.fields[p].(prototype := Inline(s.prototypes[n])));
    }
  }

  lemma LinkPropertyDone(u: Universe, s: State, t: State, p: Property)
    requires LinkedTo(s, t) && t.Valid(u) && t.Linked(p)
    ensures LinkPost(u, s, t, {p}, Pass)
  {
  }

  lemma LinkEnumStep(u: Universe, s: State, t: State, p: Property)
    requires LinkedTo(s, t) && t.Valid(u)
    requires p in t.fields && t.fields[p].enumerate.Reference? && t.fields[p].enumerate.name in t.enums
    ensures var linked := Inline(t.enums[t.fields[p].enumerate.name]);
            var v := t.(fields := t.fields[p := t.fields[p].(enumerate := linked)]);
            v.Valid(u) && LinkedTo(s, v)
  {
    var f := t.fields[p].(enumerate := Inline(t.enums[t.fields[p].enumerate.name]));
    assert u.DescribesField(p, t.fields[p]);
    DescribesUpdate(u, t.fields, p, f);
    LinkedToTransitive(s, t, t.(fields := t.fields[p := f]));
  }

  lemma LinkEnumUnknown(u: Universe, s: State, t: State, p: Property)
    requires LinkedTo(s, t) && t.Valid(u)
    requires p in t.fields && t.fields[p].enumerate.Reference? && t.fields[p].enumerate.name !in t.enums
    ensures LinkPost(u, s, t, {p}, Fail(Unknown(EnumKind, t.fields[p].enumerate.name)))
  {
    assert u.DescribesField(p, t.fields[p]);
  }

  method SetPrototype(p: Property, target: Method, ghost props: set<Property>)
    requires p in props
    modifies p`prototype
    ensures SnapshotOf(props) == old(SnapshotOf(props))[p := Fields(Inline(target), old(p.enumerate))]
  {
    p.prototype := Inline(target);
  }

  method SetEnum(p: Property, target: EnumType, ghost props: set<Property>)
    requires p in props
    modifies p`enumerate
    ensures SnapshotOf(props) == old(SnapshotOf(props))[p := Fields(old(p.prototype), Inline(target))]
  {
    p.enumerate := Inline(target);
  }

  class TypeTable {
    var prototypes: map<string, Method>
    var enums: map<string, EnumType>

    constructor ()
      ensures prototypes == map[] && enums == map[]
    {
      prototypes, enums := map[], map[];
    }

    ghost function Now(u: Universe): (s: State)
      reads this, u.props
    {
      State(SnapshotOf(u.props), prototypes, enums)
    }

    method RegisterPrototype(definition: Method?, ghost u: Universe) returns (r: Result<bool, Error>, kept: Method?)
      requires Now(u).Valid(u) && (definition != null ==> definition in u.methods)
      modifies this`prototypes
      ensures definition == null ==> r == Ok(false) && kept == null && prototypes == old(prototypes)
      ensures definition != null ==>
                match RegisteredPrototype(u, old(prototypes), definition)
                case Introduced(table) => r == Ok(true) && kept == definition && prototypes == table
                case Known(first) => r == Ok(false) && kept == first && prototypes == old(prototypes)
                case Rejected(e) => r == Err(e) && prototypes == old(prototypes)
    {
      kept := definition;
      if definition == null {
        return Ok(false), kept;
      }
      var name := definition.name;
      if name == "" {
        return Err(Unnamed(PrototypeKind)), kept;
      }
      if name !in prototypes {
        prototypes := prototypes[name := definition];
        return Ok(true), kept;
      }
      kept := prototypes[name];
      SameDefinitionIsSameMeaning(u, kept, definition);
      if kept != definition && !SamePrototype(kept, definition) {
        return Err(Conflicting(PrototypeKind, name)), kept;
      }
      r := Ok(false);
    }

    method RegisterEnum(definition: EnumType?) returns (r: Result<bool, Error>, kept: EnumType?)
      modifies this`enums
      ensures definition == null ==> r == Ok(false) && kept == null && enums == old(enums)
      ensures definition != null ==>
                match RegisteredEnum(old(enums), definition)
                case Introduced(table) => r == Ok(true) && kept == definition && enums == table
                case Known(first) => r == Ok(false) && kept == first && enums == old(enums)
                case Rejected(e) => r == Err(e) && enums == old(enums)
    {
      kept := definition;
      if definition == null {
        return Ok(false), kept;
      }
      var name := definition.name;
      if name == "" {
        return Err(Unnamed(EnumKind)), kept;
      }
      if name !in enums {
        enums := enums[name := definition];
        return Ok(true), kept;
      }
      kept := enums[name];
      if kept != definition && !SameEnum(kept, definition) {
        return Err(Conflicting(EnumKind, name)), kept;
      }
      r := Ok(false);
    }

    /** Hoists the inline prototype of a property; the result says whether it is a new one to walk. */
    method HoistPrototype(p: Property, ghost u: Universe) returns (r: Result<bool, Error>)
      requires Now(u).Valid(u) && p in u.props
      modifies this`prototypes, p`prototype
      ensures match HoistingPrototype(u, old(Now(u)), p)
              case Hoisting(t, introduced) => r == Ok(introduced) && Now(u) == t
              case Clash(e) => r == Err(e) && Now(u) == old(Now(u))
    {
      ghost var s := Now(u);
      var definition := PrototypeOf(p.prototype);
      assert u.DescribesField(p, s.fields[p]);
      var kept;
      r, kept := RegisterPrototype(definition, u);
      if r.Ok? && kept != null {
        SetPrototype(p, kept, u.props);
      }
    }

    method HoistEnum(p: Property, ghost u: Universe) returns (r: Result<bool, Error>)
      requires Now(u).Valid(u) && p in u.props
      modifies this`enums, p`enumerate
      ensures match HoistingEnum(old(Now(u)), p)
              case Hoisting(t, introduced) => r == Ok(introduced) && Now(u) == t
              case Clash(e) => r == Err(e) && Now(u) == old(Now(u))
    {
      ghost var s := Now(u);
      var kept;
      r, kept := RegisterEnum(EnumOf(p.enumerate));
      if r.Ok? && kept != null {
        SetEnum(p, kept, u.props);
      }
    }

    method CollectProperty(p: Property, ghost u: Universe) returns (r: Outcome<Error>)
      requires Now(u).Valid(u) && p in u.props
      modifies this, u.props
      ensures CollectPost(u, old(Now(u)), Now(u), [p], r)
      ensures old(Now(u).Hoisted(p)) ==> r.Pass? && Now(u) == old(Now(u))
      decreases Unregistered(u, prototypes), 0
    {
      hide Collected, CollectPost, Unregistered, State.HoistedSince, State.Valid, Walk, Entered, Below, InUniverse,
           HoistingPrototype, HoistingEnum, State.HoistedPrototype, State.HoistedEnum, Universe.Describes;
      ghost var s0 := Now(u);
      ValidParts(u, s0);
      HoistingFails(u, s0, p);
      HoistingFixed(u, s0, p);
      CollectedReflexive(u, s0);
      var definition := PrototypeOf(p.prototype);
      var prototype := HoistPrototype(p, u);
      if prototype.Err? {
        CollectPropertyFails(u, s0, s0, p, prototype.error);
        return Fail(prototype.error);
      }
      ghost var s1 := Now(u);
      var enumerate := HoistEnum(p, u);
      if enumerate.Err? {
        CollectPropertyFails(u, s0, s1, p, enumerate.error);
        return Fail(enumerate.error);
      }
      ghost var s2 := Now(u);
      HoistingBoth(u, s0, s1, s2, p);
      HoistingIntroduces(u, s0, p);
      if !prototype.value {
        CollectPropertyKnown(u, s0, s2, p);
        return Pass;
      }
      DescentShrinks(u, s0, p);
      r := CollectMethod(definition, u);
      CollectPropertyPost(u, s0, s2, Now(u), p, definition, r);
    }

    method CollectMethod(m: Method, ghost u: Universe) returns (r: Outcome<Error>)
      requires Now(u).Valid(u) && m in u.methods
      modifies this, u.props
      ensures CollectPost(u, old(Now(u)), Now(u), InOrder(m), r)
      ensures old(Now(u).HoistedMethod(m)) ==> r.Pass? && Now(u) == old(Now(u))
      decreases Unregistered(u, prototypes), 1
    {
      hide Collected, CollectPost, Unregistered, State.Valid;
      ghost var s := Now(u);
      CollectPostNothing(u, s);
      assert m.paramTypes[..0] == [];
      var i := 0;
      while i < |m.paramTypes|
        invariant 0 <= i <= |m.paramTypes|
        invariant CollectPost(u, s, Now(u), m.paramTypes[..i], Pass)
        invariant s.HoistedMethod(m) ==> Now(u) == s
      {
        ghost var t := Now(u);
        ghost var walked := m.paramTypes[..i];
        CollectPostValid(u, s, t, walked, Pass);
        CollectedShrinks(u, s, t);
        var p := m.paramTypes[i];
        assert p in m.Props();
        r := CollectProperty(p, u);
        CollectPostCompose(u, s, t, Now(u), walked, [p], r);
        assert m.paramTypes[..i + 1] == walked + [p];
        if r.Fail? {
          RestInUniverse(u, m, i + 1);
          CollectPostFail(u, s, Now(u), walked + [p], InOrder(m)[i + 1..], r.error);
          return;
        }
        i := i + 1;
      }
      ghost var t := Now(u);
      assert m.paramTypes[..i] == m.paramTypes;
      CollectPostValid(u, s, t, m.paramTypes, Pass);
      CollectedShrinks(u, s, t);
      r := CollectProperty(m.retType, u);
      CollectPostCompose(u, s, t, Now(u), m.paramTypes, [m.retType], r);
    }

    method LinkProperty(p: Property, ghost u: Universe) returns (r: Outcome<Error>)
      requires Now(u).Valid(u) && p in u.props
      modifies u.props
      ensures LinkPost(u, old(Now(u)), Now(u), {p}, r)
      ensures old(Now(u).Linked(p)) ==> r.Pass? && Now(u) == old(Now(u))
    {
      hide State.Valid, LinkPost;
      ghost var s := Now(u);
      if p.prototype.Reference? {
        LinkPrototypeStep(u, s, p);
        if p.prototype.name !in prototypes {
          return Fail(Unknown(PrototypeKind, p.prototype.name));
        }
        SetPrototype(p, prototypes[p.prototype.name], u.props);
      }
      ghost var t := Now(u);
      if p.enumerate.Reference? {
        if p.enumerate.name !in enums {
          LinkEnumUnknown(u, s, t, p);
          return Fail(Unknown(EnumKind, p.enumerate.name));
        }
        LinkEnumStep(u, s, t, p);
        SetEnum(p, enums[p.enumerate.name], u.props);
      }
      LinkPropertyDone(u, s, Now(u), p);
      r := Pass;
    }

    method LinkMethod(m: Method, ghost u: Universe) returns (r: Outcome<Error>)
      requires Now(u).Valid(u) && m in u.methods
      modifies u.props
      ensures LinkPost(u, old(Now(u)), Now(u), m.Props(), r)
      ensures old(Now(u).LinkedMethod(m)) ==> r.Pass? && Now(u) == old(Now(u))
    {
      hide LinkPost, State.Valid, LinkedTo;
      ghost var s := Now(u);
      ghost var done: set<Property> := {};
      LinkPostNothing(u, s);
      var i := 0;
      while i < |m.paramTypes|
        invariant 0 <= i <= |m.paramTypes|
        invariant done == set j | 0 <= j < i :: m.paramTypes[j]
        invariant LinkPost(u, s, Now(u), done, Pass)
        invariant s.LinkedMethod(m) ==> Now(u) == s
      {
        ghost var t := Now(u);
        LinkPostValid(u, s, t, done, Pass);
        var p := m.paramTypes[i];
        assert p in m.Props();
        r := LinkProperty(p, u);
        LinkPostCompose(u, s, t, Now(u), done, {p}, r);
        if r.Fail? {
          LinkPostFail(u, s, Now(u), done + {p}, m.Props(), r.error);
          return;
        }
        done := done + {p};
        i := i + 1;
      }
      ghost var t := Now(u);
      LinkPostValid(u, s, t, done, Pass);
      r := LinkProperty(m.retType, u);
      LinkPostCompose(u, s, t, Now(u), done, {m.retType}, r);
      assert done + {m.retType} == m.Props();
    }
  }
}
