/**
 * Which definitions a manifest contributes to its table, as a function of the manifest alone: the
 * declared ones, and those met on a walk through inline definitions. A definition is walked only when
 * its name is new.
 */
module DefinitionWalks {
  import opened Wrappers
  import opened Digraph
  import opened ManifestModel

  /** Registering a definition under its name: the new table and the object that stays, or a clash. */
  datatype Registration<D> = Introduced(table: map<string, D>) | Known(kept: D) | Rejected(error: Error)

  ghost function RegisteredPrototype(u: Universe, table: map<string, Method>, m: Method): (r: Registration<Method>) {
    if m.name == "" then Rejected(Unnamed(PrototypeKind))
    else if m.name !in table then Introduced(table[m.name := m])
    else if u.Meaning(table[m.name]) == u.Meaning(m) then Known(table[m.name])
    else Rejected(Conflicting(PrototypeKind, m.name))
  }

  ghost function RegisteredEnum(table: map<string, EnumType>, e: EnumType): (r: Registration<EnumType>) {
    if e.name == "" then Rejected(Unnamed(EnumKind))
    else if e.name !in table then Introduced(table[e.name := e])
    else if table[e.name].values == e.values then Known(table[e.name])
    else Rejected(Conflicting(EnumKind, e.name))
  }

  datatype Tables = Tables(prototypes: map<string, Method>, enums: map<string, EnumType>)

  /** The table after a definition, if there is one, has been registered. */
  ghost function WithPrototype(u: Universe, table: map<string, Method>, m: Method?)
    : Result<map<string, Method>, Error>
  {
    if m == null then Ok(table) else
    match RegisteredPrototype(u, table, m)
    case Introduced(t) => Ok(t)
    case Known(_) => Ok(table)
    case Rejected(e) => Err(e)
  }

  ghost function WithEnum(table: map<string, EnumType>, e: EnumType?): Result<map<string, EnumType>, Error> {
    if e == null then Ok(table) else
    match RegisteredEnum(table, e)
    case Introduced(t) => Ok(t)
    case Known(_) => Ok(table)
    case Rejected(error) => Err(error)
  }

  /** A property contributes the prototype it holds, and then the enum. */
  ghost function Entered(u: Universe, f: Fields, t: Tables): Result<Tables, Error> {
    match WithPrototype(u, t.prototypes, PrototypeOf(f.prototype))
    case Err(e) => Err(e)
    case Ok(prototypes) =>
      match WithEnum(t.enums, EnumOf(f.enumerate))
      case Err(e) => Err(e)
      case Ok(enums) => Ok(Tables(prototypes, enums))
  }

  /** The parameters in order, and then the return value. */
  ghost function InOrder(m: Method): (ps: seq<Property>)
    ensures (set p | p in ps) == m.Props()
  {
    m.paramTypes + [m.retType]
  }

  /** What there is to walk below a property: nothing, unless it holds a prototype with a new name. */
  ghost function Below(f: Fields, table: map<string, Method>): (ps: seq<Property>) {
    var m := PrototypeOf(f.prototype);
    if m != null && m.name !in table then InOrder(m) else []
  }

  /** The names still free for new prototypes; every descent into an inline prototype takes one. */
  ghost function Unregistered(u: Universe, table: map<string, Method>): set<string> {
    u.PrototypeNameSpace() - table.Keys
  }

  ghost predicate InUniverse(u: Universe, ps: seq<Property>) {
    forall p :: p in ps ==> p in u.props
  }

  lemma EnteredOne(u: Universe, f: Snapshot, p: Property, t: Tables)
    requires u.Valid() && u.Describes(f) && p in u.props && Entered(u, f[p], t).Ok?
    ensures var n := Entered(u, f[p], t).value;
            && (forall k :: k in t.prototypes ==> k in n.prototypes && n.prototypes[k] == t.prototypes[k])
            && (forall k :: k in t.enums ==> k in n.enums && n.enums[k] == t.enums[k])
            && InUniverse(u, Below(f[p], t.prototypes))
            && (Below(f[p], t.prototypes) == [] ==> n.prototypes == t.prototypes)
            && (Below(f[p], t.prototypes) != [] ==> Unregistered(u, n.prototypes) < Unregistered(u, t.prototypes))
  {
    assert u.DescribesField(p, f[p]);
    var m := PrototypeOf(f[p].prototype);
    if m != null && m.name !in t.prototypes {
      assert m.name in u.PrototypeNameSpace();
      assert m.name in Unregistered(u, t.prototypes);
    }
  }

  /** The tables after a list of properties, and everything new below them, has contributed. */
  ghost function Walk(u: Universe, f: Snapshot, todo: seq<Property>, t: Tables): (r: Result<Tables, Error>)
    requires u.Valid() && u.Describes(f) && InUniverse(u, todo)
    decreases Unregistered(u, t.prototypes), |todo|
  {
    if todo == [] then Ok(t) else
    match Entered(u, f[todo[0]], t)
    case Err(e) => Err(e)
    case Ok(n) =>
      EnteredOne(u, f, todo[0], t);
      Walk(u, f, Below(f[todo[0]], t.prototypes) + todo[1..], n)
  }

  lemma {:induction false} WalkConcat(u: Universe, f: Snapshot, a: seq<Property>, b: seq<Property>, t: Tables)
    requires u.Valid() && u.Describes(f) && InUniverse(u, a) && InUniverse(u, b)
    ensures Walk(u, f, a + b, t) == match Walk(u, f, a, t) case Ok(n) => Walk(u, f, b, n) case Err(e) => Err(e)
    decreases Unregistered(u, t.prototypes), |a|
  {
    hide Entered, Below, Unregistered;
    if a == [] {
      assert a + b == b;
    } else {
      assert (a + b)[0] == a[0] && (a + b)[1..] == a[1..] + b;
      if Entered(u, f[a[0]], t).Ok? {
        EnteredOne(u, f, a[0], t);
        var below := Below(f[a[0]], t.prototypes);
        assert below + (a[1..] + b) == below + a[1..] + b;
        WalkConcat(u, f, below + a[1..], b, Entered(u, f[a[0]], t).value);
      }
    }
  }

  /** A walk over properties that contribute nothing new. */
  lemma {:induction false} WalkSteady(u: Universe, f: Snapshot, todo: seq<Property>, t: Tables)
    requires u.Valid() && u.Describes(f) && InUniverse(u, todo)
    requires forall p :: p in todo ==> Entered(u, f[p], t) == Ok(t) && Below(f[p], t.prototypes) == []
    ensures Walk(u, f, todo, t) == Ok(t)
    decreases |todo|
  {
    hide Entered, Below;
    if todo != [] {
      assert [] + todo[1..] == todo[1..];
      WalkSteady(u, f, todo[1..], t);
    }
  }

  /** Two definitions that are the same, or mean the same under a name that the table has already. */
  ghost predicate SamePrototypeIn(u: Universe, f: Definition<Method?>, g: Definition<Method?>,
                                  table: map<string, Method>) {
    var a, b := PrototypeOf(f), PrototypeOf(g);
    a == b || (a != null && b != null && a.name == b.name && u.Meaning(a) == u.Meaning(b) && a.name in table)
  }

  ghost predicate SameEnumIn(f: Definition<EnumType?>, g: Definition<EnumType?>, table: map<string, EnumType>) {
    var a, b := EnumOf(f), EnumOf(g);
    a == b || (a != null && b != null && a.name == b.name && a.values == b.values && a.name in table)
  }

  ghost predicate AlikeIn(u: Universe, f: Snapshot, g: Snapshot, t: Tables) {
    forall p :: p in u.props ==>
      && p in f && p in g
      && SamePrototypeIn(u, f[p].prototype, g[p].prototype, t.prototypes)
      && SameEnumIn(f[p].enumerate, g[p].enumerate, t.enums)
  }

  /** A walk sees no difference between a definition and the one that replaces it. */
  lemma {:induction false} WalkAlike(u: Universe, f: Snapshot, g: Snapshot, todo: seq<Property>, t: Tables)
    requires u.Valid() && u.Describes(f) && u.Describes(g) && InUniverse(u, todo) && AlikeIn(u, f, g, t)
    ensures Walk(u, f, todo, t) == Walk(u, g, todo, t)
    decreases Unregistered(u, t.prototypes), |todo|
  {
    hide Unregistered, Universe.Describes, Universe.Meaning;
    if todo != [] {
      var p := todo[0];
      assert SamePrototypeIn(u, f[p].prototype, g[p].prototype, t.prototypes);
      assert Entered(u, f[p], t) == Entered(u, g[p], t) && Below(f[p], t.prototypes) == Below(g[p], t.prototypes);
      if Entered(u, f[p], t).Ok? {
        EnteredOne(u, f, p, t);
        AlikeLater(u, f, g, p, t);
        WalkAlike(u, f, g, Below(f[p], t.prototypes) + todo[1..], Entered(u, f[p], t).value);
      }
    }
  }

  lemma AlikeLater(u: Universe, f: Snapshot, g: Snapshot, p: Property, t: Tables)
    requires u.Valid() && u.Describes(f) && p in u.props && AlikeIn(u, f, g, t) && Entered(u, f[p], t).Ok?
    ensures AlikeIn(u, f, g, Entered(u, f[p], t).value)
  {
    hide Entered, Universe.Meaning, Universe.Describes;
    EnteredOne(u, f, p, t);
    var n := Entered(u, f[p], t).value;
    forall q | q in u.props
      ensures q in f && q in g && SamePrototypeIn(u, f[q].prototype, g[q].prototype, n.prototypes)
      ensures SameEnumIn(f[q].enumerate, g[q].enumerate, n.enums)
    {
      assert SamePrototypeIn(u, f[q].prototype, g[q].prototype, t.prototypes);
    }
  }

  // --- which definitions a walk meets ---------------------------------------------------------------

  /** Prototypes and enums, as they are declared or held by a field. */
  datatype Definitions = Definitions(prototypes: set<Method>, enums: set<EnumType>)

  ghost predicate HoldsFrom(f: Fields, d: Definitions) {
    && (PrototypeOf(f.prototype) != null ==> PrototypeOf(f.prototype) in d.prototypes)
    && (EnumOf(f.enumerate) != null ==> EnumOf(f.enumerate) in d.enums)
  }

  /** Whatever a property of one of the prototypes holds is among the definitions, too. */
  ghost predicate Nested(f: Snapshot, d: Definitions) {
    forall m, p :: m in d.prototypes && p in m.Props() && p in f ==> HoldsFrom(f[p], d)
  }

  /** The same for the prototypes whose names are not among the given ones. */
  ghost predicate NestedBeyond(f: Snapshot, d: Definitions, names: set<string>) {
    forall m, p :: m in d.prototypes && m.name !in names && p in m.Props() && p in f ==> HoldsFrom(f[p], d)
  }

  ghost predicate AllHold(f: Snapshot, ps: seq<Property>, d: Definitions) {
    forall p :: p in ps && p in f ==> HoldsFrom(f[p], d)
  }

  ghost predicate TakenFrom(t: Tables, d: Definitions) {
    && (forall n :: n in t.prototypes ==> t.prototypes[n] in d.prototypes && t.prototypes[n].name == n)
    && (forall n :: n in t.enums ==> t.enums[n] in d.enums && t.enums[n].name == n)
  }

  /** One of the definitions has no name, or two of the same name do not mean the same. */
  ghost predicate Clashing(u: Universe, d: Definitions, e: Error) {
    match e
    case Unnamed(PrototypeKind) => exists m :: m in d.prototypes && m.name == ""
    case Unnamed(EnumKind) => exists m :: m in d.enums && m.name == ""
    case Conflicting(PrototypeKind, n) =>
      exists a, b :: a in d.prototypes && b in d.prototypes && a.name == n && b.name == n
          && u.Meaning(a) != u.Meaning(b)
    case Conflicting(EnumKind, n) =>
      exists a, b :: a in d.enums && b in d.enums && a.name == n && b.name == n && a.values != b.values
    case _ => false
  }

  lemma EnteredFrom(u: Universe, f: Fields, t: Tables, d: Definitions)
    requires HoldsFrom(f, d) && TakenFrom(t, d)
    ensures match Entered(u, f, t) case Ok(n) => TakenFrom(n, d) case Err(e) => Clashing(u, d, e)
  {
    hide Universe.Meaning;
  }

  lemma BelowHolds(u: Universe, f: Snapshot, p: Property, t: Tables, d: Definitions)
    requires p in f && HoldsFrom(f[p], d) && NestedBeyond(f, d, t.prototypes.Keys)
    ensures AllHold(f, Below(f[p], t.prototypes), d)
  {
    if Below(f[p], t.prototypes) != [] {
      var m := PrototypeOf(f[p].prototype);
      assert (set q | q in InOrder(m)) == m.Props();
    }
  }

  lemma NestedBeyondMore(f: Snapshot, d: Definitions, names: set<string>, more: set<string>)
    requires NestedBeyond(f, d, names) && names <= more
    ensures NestedBeyond(f, d, more)
  {
  }

  /** A walk takes nothing but what is there, and fails only for definitions that clash. */
  lemma {:induction false} WalkFrom(u: Universe, f: Snapshot, todo: seq<Property>, t: Tables, d: Definitions)
    requires u.Valid() && u.Describes(f) && InUniverse(u, todo)
    requires AllHold(f, todo, d) && NestedBeyond(f, d, t.prototypes.Keys) && TakenFrom(t, d)
    ensures match Walk(u, f, todo, t) case Ok(n) => TakenFrom(n, d) case Err(e) => Clashing(u, d, e)
    decreases Unregistered(u, t.prototypes), |todo|
  {
    hide Entered, Below, Unregistered, HoldsFrom, NestedBeyond, TakenFrom, Clashing;
    if todo != [] {
      EnteredFrom(u, f[todo[0]], t, d);
      if Entered(u, f[todo[0]], t).Ok? {
        EnteredOne(u, f, todo[0], t);
        BelowHolds(u, f, todo[0], t, d);
        var n := Entered(u, f[todo[0]], t).value;
        NestedBeyondMore(f, d, t.prototypes.Keys, n.prototypes.Keys);
        WalkFrom(u, f, Below(f[todo[0]], t.prototypes) + todo[1..], n, d);
      }
    }
  }

  /** What the fields hold is named, and the table has a definition of the same meaning under that name. */
  ghost predicate Represented(u: Universe, f: Fields, t: Tables) {
    && (var m := PrototypeOf(f.prototype);
        m != null ==> m.name != "" && m.name in t.prototypes && u.Meaning(t.prototypes[m.name]) == u.Meaning(m))
    && (var e := EnumOf(f.enumerate);
        e != null ==> e.name != "" && e.name in t.enums && t.enums[e.name].values == e.values)
  }

  ghost predicate AllRepresented(u: Universe, f: Snapshot, ps: set<Property>, t: Tables) {
    forall p :: p in ps && p in f ==> Represented(u, f[p], t)
  }

  /** The second table has all that the first one has, and perhaps more. */
  ghost predicate Extends(t: Tables, n: Tables) {
    && (forall k :: k in t.prototypes ==> k in n.prototypes && n.prototypes[k] == t.prototypes[k])
    && (forall k :: k in t.enums ==> k in n.enums && n.enums[k] == t.enums[k])
  }

  lemma RepresentedLater(u: Universe, f: Snapshot, ps: set<Property>, t: Tables, n: Tables)
    requires AllRepresented(u, f, ps, t) && Extends(t, n)
    ensures AllRepresented(u, f, ps, n)
  {
    forall p | p in ps && p in f
      ensures Represented(u, f[p], n)
    {
      assert Represented(u, f[p], t);
    }
  }

  lemma EnteredRepresents(u: Universe, f: Fields, t: Tables)
    requires Entered(u, f, t).Ok?
    ensures Represented(u, f, Entered(u, f, t).value)
    ensures var n, m := Entered(u, f, t).value, PrototypeOf(f.prototype);
            && (Below(f, t.prototypes) == [] ==> n.prototypes == t.prototypes)
            && (Below(f, t.prototypes) != [] ==> m != null && n.prototypes == t.prototypes[m.name := m])
  {
    hide Universe.Meaning;
  }

  /** What a walk was to enter is represented afterwards, and so is what each new prototype holds. */
  lemma {:induction false} WalkRepresents(u: Universe, f: Snapshot, todo: seq<Property>, t: Tables)
    requires u.Valid() && u.Describes(f) && InUniverse(u, todo) && Walk(u, f, todo, t).Ok?
    ensures var n := Walk(u, f, todo, t).value;
            && Extends(t, n) && AllRepresented(u, f, (set p | p in todo), n)
            && forall k :: k in n.prototypes && k !in t.prototypes ==> AllRepresented(u, f, n.prototypes[k].Props(), n)
    decreases Unregistered(u, t.prototypes), |todo|
  {
    hide Entered, Unregistered, Represented, Universe.Meaning;
    if todo != [] {
      var p := todo[0];
      EnteredOne(u, f, p, t);
      EnteredRepresents(u, f[p], t);
      var s := Entered(u, f[p], t).value;
      var below := Below(f[p], t.prototypes);
      WalkRepresents(u, f, below + todo[1..], s);
      var n := Walk(u, f, todo, t).value;
      RepresentedLater(u, f, {p}, s, n);
      forall q | q in todo && q in f
        ensures Represented(u, f[q], n)
      {
        if q != p {
          assert q in todo[1..] && q in below + todo[1..];
        }
      }
      forall k | k in n.prototypes && k !in t.prototypes
        ensures AllRepresented(u, f, n.prototypes[k].Props(), n)
      {
        if k in s.prototypes {
          assert below != [] && s.prototypes[k] == PrototypeOf(f[p].prototype) && below == InOrder(s.prototypes[k]);
          forall q | q in s.prototypes[k].Props() && q in f
            ensures Represented(u, f[q], n)
          {
            assert q in (set r | r in below) && q in below + todo[1..];
          }
        }
      }
    }
  }

  // --- the whole manifest ---------------------------------------------------------------------------

  /** The table of the declared prototypes, registered in order. */
  ghost function RegisterAll(u: Universe, ms: seq<Method>): (r: Result<map<string, Method>, Error>)
    ensures r.Ok? ==> (forall i :: 0 <= i < |ms| ==> ms[i].name in r.value)
    ensures r.Ok? ==> forall n :: n in r.value ==> r.value[n] in ms && r.value[n].name == n
  {
    if ms == [] then Ok(map[]) else
    match RegisterAll(u, ms[..|ms| - 1])
    case Err(e) => Err(e)
    case Ok(table) => WithPrototype(u, table, ms[|ms| - 1])
  }

  ghost function RegisterAllEnums(es: seq<EnumType>): (r: Result<map<string, EnumType>, Error>)
    ensures r.Ok? ==> (forall i :: 0 <= i < |es| ==> es[i].name in r.value)
    ensures r.Ok? ==> forall n :: n in r.value ==> r.value[n] in es && r.value[n].name == n
  {
    if es == [] then Ok(map[]) else
    match RegisterAllEnums(es[..|es| - 1])
    case Err(e) => Err(e)
    case Ok(table) => WithEnum(table, es[|es| - 1])
  }

  /** The first definition that cannot be registered decides the outcome. */
  lemma {:induction false} RegisterAllStops(u: Universe, ms: seq<Method>, i: nat)
    requires i <= |ms| && RegisterAll(u, ms[..i]).Err?
    ensures RegisterAll(u, ms) == RegisterAll(u, ms[..i])
  {
    if i == |ms| {
      assert ms[..i] == ms;
    } else {
      assert ms[..|ms| - 1][..i] == ms[..i];
      RegisterAllStops(u, ms[..|ms| - 1], i);
    }
  }

  lemma {:induction false} RegisterAllEnumsStops(es: seq<EnumType>, i: nat)
    requires i <= |es| && RegisterAllEnums(es[..i]).Err?
    ensures RegisterAllEnums(es) == RegisterAllEnums(es[..i])
  {
    if i == |es| {
      assert es[..i] == es;
    } else {
      assert es[..|es| - 1][..i] == es[..i];
      RegisterAllEnumsStops(es[..|es| - 1], i);
    }
  }

  /** The objects that stay in a list of declared prototypes. */
  ghost function Kept(ms: seq<Method>, table: map<string, Method>): (ks: seq<Method>)
    requires forall i :: 0 <= i < |ms| ==> ms[i].name in table
    ensures |ks| == |ms| && forall i :: 0 <= i < |ms| ==> ks[i] == table[ms[i].name]
  {
    seq(|ms|, i requires 0 <= i < |ms| => table[ms[i].name])
  }

  /** The properties of a list of methods, in order. */
  ghost function ListProps(ms: seq<Method>): seq<Property> {
    if ms == [] then [] else ListProps(ms[..|ms| - 1]) + InOrder(ms[|ms| - 1])
  }

  /** The properties of the given methods. */
  ghost function PropsOf(ms: seq<Method>): (ps: set<Property>) {
    set m, p | m in ms && p in m.Props() :: p
  }

  lemma {:induction false} ListPropsOf(ms: seq<Method>)
    ensures (set p | p in ListProps(ms)) == PropsOf(ms)
  {
    if ms != [] {
      var front, last := ms[..|ms| - 1], ms[|ms| - 1];
      ListPropsOf(front);
      assert ms == front + [last];
      assert PropsOf(ms) == PropsOf(front) + last.Props();
      assert (set p | p in ListProps(ms)) == (set p | p in ListProps(front)) + (set p | p in InOrder(last));
    }
  }

  lemma ListPropsOne(m: Method)
    ensures ListProps([m]) == InOrder(m)
  {
    assert [m][..0] == [];
  }

  lemma ListPropsNext(ms: seq<Method>, i: nat)
    requires i < |ms|
    ensures ListProps(ms[..i + 1]) == ListProps(ms[..i]) + InOrder(ms[i])
  {
    assert ms[..i + 1][..i] == ms[..i];
  }

  lemma {:induction false} ListPropsSplit(ms: seq<Method>, i: nat)
    requires i <= |ms|
    ensures ListProps(ms) == ListProps(ms[..i]) + ListProps(ms[i..])
  {
    if i == |ms| {
      assert ms[..i] == ms && ms[i..] == [];
    } else {
      var front := ms[..|ms| - 1];
      ListPropsSplit(front, i);
      assert front[..i] == ms[..i] && front[i..] == ms[i..][..|ms| - i - 1];
    }
  }

  lemma ListPropsInUniverse(u: Universe, ms: seq<Method>)
    requires u.Valid() && forall m :: m in ms ==> m in u.methods
    ensures InUniverse(u, ListProps(ms))
  {
    ListPropsOf(ms);
    forall p | p in ListProps(ms)
      ensures p in u.props
    {
      assert p in (set q | q in ListProps(ms));
    }
  }

  ghost function DeclaredTables(u: Universe, declared: seq<Method>, enums: seq<EnumType>): (r: Result<Tables, Error>)
    ensures r.Ok? ==> forall i :: 0 <= i < |declared| ==> declared[i].name in r.value.prototypes
    ensures r.Ok? ==> forall n :: n in r.value.prototypes ==> r.value.prototypes[n] in declared
  {
    match RegisterAll(u, declared)
    case Err(e) => Err(e)
    case Ok(prototypes) =>
      match RegisterAllEnums(enums)
      case Err(e) => Err(e)
      case Ok(es) => Ok(Tables(prototypes, es))
  }

  /** The table a manifest gathers, from its declared definitions and from those its methods hold. */
  ghost function Gathered(u: Universe, f: Snapshot, methods: seq<Method>, declared: seq<Method>,
                          enums: seq<EnumType>): (r: Result<Tables, Error>)
    requires u.Valid() && u.Describes(f)
    requires (forall m :: m in methods ==> m in u.methods) && (forall m :: m in declared ==> m in u.methods)
  {
    match DeclaredTables(u, declared, enums)
    case Err(e) => Err(e)
    case Ok(t) =>
      ListPropsInUniverse(u, methods);
      ListPropsInUniverse(u, Kept(declared, t.prototypes));
      Walk(u, f, ListProps(methods) + ListProps(Kept(declared, t.prototypes)), t)
  }

  lemma GatheredInTwo(u: Universe, f: Snapshot, methods: seq<Method>, declared: seq<Method>, enums: seq<EnumType>)
    requires u.Valid() && u.Describes(f)
    requires (forall m :: m in methods ==> m in u.methods) && (forall m :: m in declared ==> m in u.methods)
    ensures var d := DeclaredTables(u, declared, enums);
            if d.Err? then Gathered(u, f, methods, declared, enums) == Err(d.error)
            else
              var todo := ListProps(methods) + ListProps(Kept(declared, d.value.prototypes));
              InUniverse(u, todo) && Gathered(u, f, methods, declared, enums) == Walk(u, f, todo, d.value)
  {
    hide Walk, DeclaredTables, ListProps, Kept;
    var d := DeclaredTables(u, declared, enums);
    if d.Ok? {
      ListPropsInUniverse(u, methods);
      ListPropsInUniverse(u, Kept(declared, d.value.prototypes));
    }
  }

  ghost predicate Declares(d: Definitions, declared: seq<Method>, enums: seq<EnumType>) {
    (forall m :: m in declared ==> m in d.prototypes) && (forall e :: e in enums ==> e in d.enums)
  }

  /** The definitions include the declared ones, and whatever a method or one of them holds. */
  ghost predicate Covers(f: Snapshot, d: Definitions, methods: seq<Method>, declared: seq<Method>,
                         enums: seq<EnumType>) {
    && Declares(d, declared, enums) && Nested(f, d)
    && forall m, p :: m in methods && p in m.Props() && p in f ==> HoldsFrom(f[p], d)
  }

  /** The first declared prototype of its name. */
  ghost predicate IsFirst(declared: seq<Method>, m: Method) {
    exists i :: 0 <= i < |declared| && declared[i] == m && forall j :: 0 <= j < i ==> declared[j].name != m.name
  }

  ghost predicate IsDeclaredName(declared: seq<Method>, n: string) {
    exists i :: 0 <= i < |declared| && declared[i].name == n
  }

  /** A prototype that does not repeat a declared one. */
  ghost predicate IsNoRepetition(declared: seq<Method>, m: Method) {
    IsDeclaredName(declared, m.name) ==> IsFirst(declared, m)
  }

  /**
   * The definitions include the declared ones, and whatever a method holds, or one of them that repeats no
   * declared one.
   */
  ghost predicate CoversKept(f: Snapshot, d: Definitions, methods: seq<Method>, declared: seq<Method>,
                             enums: seq<EnumType>) {
    && Declares(d, declared, enums)
    && (forall m, p :: m in d.prototypes && IsNoRepetition(declared, m) && p in m.Props() && p in f ==>
       HoldsFrom(f[p], d))
    && (forall m, p :: m in methods && p in m.Props() && p in f ==> HoldsFrom(f[p], d))
  }

  /** Registering keeps the first prototype of each declared name. */
  lemma {:induction false} RegisterAllFirst(u: Universe, ms: seq<Method>)
    requires RegisterAll(u, ms).Ok?
    ensures forall n :: n in RegisterAll(u, ms).value <==> IsDeclaredName(ms, n)
    ensures forall n :: n in RegisterAll(u, ms).value ==> IsFirst(ms, RegisterAll(u, ms).value[n])
  {
    hide WithPrototype, IsFirst, IsDeclaredName;
    if ms == [] {
      NothingDeclared();
    } else {
      var front, last := ms[..|ms| - 1], ms[|ms| - 1];
      RegisterAllFirst(u, front);
      WithPrototypeIs(u, RegisterAll(u, front).value, last);
      assert ms == front + [last];
      OneMoreDeclared(front, last);
      forall m | IsFirst(front, m)
        ensures IsFirst(ms, m)
      {
        FirstStays(front, last, m);
      }
    }
  }

  lemma WithPrototypeIs(u: Universe, table: map<string, Method>, m: Method)
    requires WithPrototype(u, table, m).Ok?
    ensures WithPrototype(u, table, m).value == if m.name in table then table else table[m.name := m]
  {
    hide Universe.Meaning;
  }

  lemma NothingDeclared()
    ensures forall n :: !IsDeclaredName([], n)
  {
  }

  lemma OneMoreDeclared(front: seq<Method>, last: Method)
    ensures forall n :: IsDeclaredName(front + [last], n) <==> IsDeclaredName(front, n) || n == last.name
    ensures !IsDeclaredName(front, last.name) ==> IsFirst(front + [last], last)
  {
    var all := front + [last];
    assert all[|front|] == last && forall i :: 0 <= i < |front| ==> all[i] == front[i];
    assert forall j :: 0 <= j < |front| && front[j].name == last.name ==> IsDeclaredName(front, last.name);
  }

  lemma FirstStays(front: seq<Method>, last: Method, m: Method)
    requires IsFirst(front, m)
    ensures IsFirst(front + [last], m)
  {
    var i :| 0 <= i < |front| && front[i] == m && forall j :: 0 <= j < i ==> front[j].name != m.name;
    assert (front + [last])[i] == m;
  }

  lemma {:induction false} RegisterAllFrom(u: Universe, ms: seq<Method>, d: Definitions)
    requires forall m :: m in ms ==> m in d.prototypes
    ensures match RegisterAll(u, ms) case Ok(t) => TakenFrom(Tables(t, map[]), d) case Err(e) => Clashing(u, d, e)
  {
    hide WithPrototype, TakenFrom, Clashing;
    if ms == [] {
      NothingTaken(d);
    } else {
      var last := ms[|ms| - 1];
      RegisterAllFrom(u, ms[..|ms| - 1], d);
      if RegisterAll(u, ms[..|ms| - 1]).Ok? {
        WithPrototypeFrom(u, RegisterAll(u, ms[..|ms| - 1]).value, last, d);
      }
    }
  }

  lemma NothingTaken(d: Definitions)
    ensures TakenFrom(Tables(map[], map[]), d)
  {
  }

  lemma WithPrototypeFrom(u: Universe, table: map<string, Method>, m: Method, d: Definitions)
    requires m in d.prototypes && TakenFrom(Tables(table, map[]), d)
    ensures match WithPrototype(u, table, m)
            case Ok(t) => TakenFrom(Tables(t, map[]), d)
            case Err(e) => Clashing(u, d, e)
  {
    hide Universe.Meaning;
  }

  lemma WithEnumFrom(u: Universe, table: map<string, EnumType>, e: EnumType, d: Definitions)
    requires e in d.enums && TakenFrom(Tables(map[], table), d)
    ensures match WithEnum(table, e) case Ok(t) => TakenFrom(Tables(map[], t), d) case Err(x) => Clashing(u, d, x)
  {
  }

  lemma {:induction false} RegisterAllEnumsFrom(u: Universe, es: seq<EnumType>, d: Definitions)
    requires forall e :: e in es ==> e in d.enums
    ensures match RegisterAllEnums(es) case Ok(t) => TakenFrom(Tables(map[], t), d) case Err(e) => Clashing(u, d, e)
  {
    hide WithEnum, Clashing;
    if es != [] {
      RegisterAllEnumsFrom(u, es[..|es| - 1], d);
      assert es[|es| - 1] in es;
      if RegisterAllEnums(es[..|es| - 1]).Ok? {
        WithEnumFrom(u, RegisterAllEnums(es[..|es| - 1]).value, es[|es| - 1], d);
      }
    }
  }

  lemma ListHolds(f: Snapshot, ms: seq<Method>, d: Definitions)
    requires forall m, p :: m in ms && p in m.Props() && p in f ==> HoldsFrom(f[p], d)
    ensures AllHold(f, ListProps(ms), d)
  {
    hide HoldsFrom, ListProps;
    ListPropsOf(ms);
    forall p | p in ListProps(ms) && p in f
      ensures HoldsFrom(f[p], d)
    {
      assert p in (set q | q in ListProps(ms)) && p in PropsOf(ms);
      var m :| m in ms && p in m.Props();
    }
  }

  /**
   * For any definitions that include the declared ones and all that is held from there on, be it without
   * what repetitions of declared prototypes hold: the gathered table takes nothing else, and gathering fails
   * only if some of them have no name or clash.
   */
  lemma GatheredFrom(u: Universe, f: Snapshot, methods: seq<Method>, declared: seq<Method>, enums: seq<EnumType>,
                     d: Definitions)
    requires u.Valid() && u.Describes(f)
    requires (forall m :: m in methods ==> m in u.methods) && (forall m :: m in declared ==> m in u.methods)
    requires CoversKept(f, d, methods, declared, enums)
    ensures match Gathered(u, f, methods, declared, enums)
            case Ok(t) => TakenFrom(t, d)
            case Err(e) => Clashing(u, d, e)
  {
    hide Walk, Clashing, Universe.Meaning, Universe.Describes, HoldsFrom, ListProps, RegisterAll, RegisterAllEnums;
    RegisterAllFrom(u, declared, d);
    RegisterAllEnumsFrom(u, enums, d);
    if RegisterAll(u, declared).Ok? && RegisterAllEnums(enums).Ok? {
      var table, es := RegisterAll(u, declared).value, RegisterAllEnums(enums).value;
      ListPropsInUniverse(u, methods);
      ListPropsInUniverse(u, Kept(declared, table));
      ListHolds(f, methods, d);
      RegisterAllFirst(u, declared);
      KeptHold(f, methods, declared, enums, table, d);
      ListHolds(f, Kept(declared, table), d);
      WalkFrom(u, f, ListProps(methods) + ListProps(Kept(declared, table)), Tables(table, es), d);
    }
  }

  lemma KeptHold(f: Snapshot, methods: seq<Method>, declared: seq<Method>, enums: seq<EnumType>,
                 table: map<string, Method>, d: Definitions)
    requires CoversKept(f, d, methods, declared, enums) && forall i :: 0 <= i < |declared| ==> declared[i].name in table
    requires forall n :: n in table <==> IsDeclaredName(declared, n)
    requires forall n :: n in table ==> table[n] in declared && IsFirst(declared, table[n])
    ensures forall m, p :: m in Kept(declared, table) && p in m.Props() && p in f ==> HoldsFrom(f[p], d)
    ensures NestedBeyond(f, d, table.Keys)
  {
    hide HoldsFrom, IsFirst, IsDeclaredName;
    forall m, p | m in Kept(declared, table) && p in m.Props() && p in f
      ensures HoldsFrom(f[p], d)
    {
      var i :| 0 <= i < |declared| && Kept(declared, table)[i] == m;
      assert m == table[declared[i].name] && m in d.prototypes;
    }
  }

  /** All are named, and those of the same name mean the same. */
  ghost predicate Compatible(u: Universe, d: Definitions) {
    && (forall m :: m in d.prototypes ==> m.name != "")
    && (forall e :: e in d.enums ==> e.name != "")
    && (forall a, b :: a in d.prototypes && b in d.prototypes && a.name == b.name ==> u.Meaning(a) == u.Meaning(b))
    && (forall a, b :: a in d.enums && b in d.enums && a.name == b.name ==> a.values == b.values)
  }

  lemma CompatibleGathers(u: Universe, f: Snapshot, methods: seq<Method>, declared: seq<Method>, enums: seq<EnumType>,
                          d: Definitions)
    requires u.Valid() && u.Describes(f)
    requires (forall m :: m in methods ==> m in u.methods) && (forall m :: m in declared ==> m in u.methods)
    requires CoversKept(f, d, methods, declared, enums) && Compatible(u, d)
    ensures Gathered(u, f, methods, declared, enums).Ok?
  {
    hide Gathered, Covers, Universe.Meaning;
    GatheredFrom(u, f, methods, declared, enums, d);
  }

  lemma WithPrototypeKeeps(u: Universe, table: map<string, Method>, m: Method)
    requires WithPrototype(u, table, m).Ok?
    ensures var t := WithPrototype(u, table, m).value;
            && (forall n :: n in table ==> n in t && t[n] == table[n])
            && m.name != "" && m.name in t && u.Meaning(t[m.name]) == u.Meaning(m)
  {
    hide Universe.Meaning;
  }

  lemma {:induction false} RegisterAllRepresents(u: Universe, ms: seq<Method>)
    requires RegisterAll(u, ms).Ok?
    ensures forall i :: 0 <= i < |ms| ==>
              && ms[i].name != "" && ms[i].name in RegisterAll(u, ms).value
              && u.Meaning(RegisterAll(u, ms).value[ms[i].name]) == u.Meaning(ms[i])
  {
    hide Universe.Meaning, WithPrototype;
    if ms != [] {
      var front := ms[..|ms| - 1];
      RegisterAllRepresents(u, front);
      WithPrototypeKeeps(u, RegisterAll(u, front).value, ms[|ms| - 1]);
      assert forall i :: 0 <= i < |front| ==> front[i] == ms[i];
    }
  }

  lemma {:induction false} RegisterAllEnumsRepresents(es: seq<EnumType>)
    requires RegisterAllEnums(es).Ok?
    ensures forall i :: 0 <= i < |es| ==>
              && es[i].name != "" && es[i].name in RegisterAllEnums(es).value
              && RegisterAllEnums(es).value[es[i].name].values == es[i].values
  {
    hide WithEnum;
    if es != [] {
      var front := es[..|es| - 1];
      RegisterAllEnumsRepresents(front);
      WithEnumKeeps(RegisterAllEnums(front).value, es[|es| - 1]);
      assert forall i :: 0 <= i < |front| ==> front[i] == es[i];
    }
  }

  lemma WithEnumKeeps(table: map<string, EnumType>, e: EnumType)
    requires WithEnum(table, e).Ok?
    ensures var t := WithEnum(table, e).value;
            && (forall n :: n in table ==> n in t && t[n] == table[n])
            && e.name != "" && e.name in t && t[e.name].values == e.values
  {
  }

  /** The properties of the definitions of a table under the given names. */
  ghost function TableProps(prototypes: map<string, Method>, names: set<string>): (ps: set<Property>) {
    set n, p | n in names && n in prototypes && p in prototypes[n].Props() :: p
  }

  lemma TablePropsOfNone(prototypes: map<string, Method>)
    ensures TableProps(prototypes, {}) == {}
  {
  }

  lemma TablePropsOfOneMore(prototypes: map<string, Method>, names: set<string>, n: string)
    requires n in prototypes
    ensures TableProps(prototypes, names + {n}) == TableProps(prototypes, names) + prototypes[n].Props()
  {
  }

  lemma TablePropsOfMore(prototypes: map<string, Method>, some: set<string>, all: set<string>)
    requires some <= all
    ensures TableProps(prototypes, some) <= TableProps(prototypes, all)
  {
  }

  /** The properties of the methods and of the prototypes of the table. */
  ghost function UsedProps(methods: seq<Method>, t: Tables): set<Property> {
    PropsOf(methods) + TableProps(t.prototypes, t.prototypes.Keys)
  }

  /**
   * Every declared prototype, and every definition that a method or a prototype of the gathered table
   * holds, is named and has a definition of the same meaning in the table.
   */
  lemma GatheredRepresents(u: Universe, f: Snapshot, methods: seq<Method>, declared: seq<Method>, enums: seq<EnumType>)
    requires u.Valid() && u.Describes(f)
    requires (forall m :: m in methods ==> m in u.methods) && (forall m :: m in declared ==> m in u.methods)
    requires Gathered(u, f, methods, declared, enums).Ok?
    ensures var t := Gathered(u, f, methods, declared, enums).value;
            && AllRepresented(u, f, UsedProps(methods, t), t)
            && forall i :: 0 <= i < |declared| ==>
                 && declared[i].name != "" && declared[i].name in t.prototypes
                 && u.Meaning(t.prototypes[declared[i].name]) == u.Meaning(declared[i])
    ensures var t := Gathered(u, f, methods, declared, enums).value;
            forall i :: 0 <= i < |enums| ==>
              enums[i].name != "" && enums[i].name in t.enums && t.enums[enums[i].name].values == enums[i].values
  {
    hide Walk, Universe.Meaning, Universe.Describes, ListProps, RegisterAll, RegisterAllEnums, Represented;
    RegisterAllRepresents(u, declared);
    RegisterAllEnumsRepresents(enums);
    var table, es := RegisterAll(u, declared).value, RegisterAllEnums(enums).value;
    var kept := Kept(declared, table);
    var todo := ListProps(methods) + ListProps(kept);
    ListPropsInUniverse(u, methods);
    ListPropsInUniverse(u, kept);
    ListPropsOf(methods);
    ListPropsOf(kept);
    WalkRepresents(u, f, todo, Tables(table, es));
    var t := Gathered(u, f, methods, declared, enums).value;
    assert (set p | p in todo) == PropsOf(methods) + PropsOf(kept);
    forall n | n in t.prototypes
      ensures AllRepresented(u, f, t.prototypes[n].Props(), t)
    {
      if n in table {
        var i :| 0 <= i < |declared| && table[n] == declared[i];
        assert kept[i] == table[n] && kept[i] in kept;
      }
    }
  }

  /** The table keeps the first prototype of each declared name. */
  lemma GatheredKeepsFirst(u: Universe, f: Snapshot, methods: seq<Method>, declared: seq<Method>, enums: seq<EnumType>)
    requires u.Valid() && u.Describes(f)
    requires (forall m :: m in methods ==> m in u.methods) && (forall m :: m in declared ==> m in u.methods)
    requires Gathered(u, f, methods, declared, enums).Ok?
    ensures var t := Gathered(u, f, methods, declared, enums).value;
            forall n :: IsDeclaredName(declared, n) ==> n in t.prototypes && IsFirst(declared, t.prototypes[n])
  {
    hide Walk, Universe.Meaning, Universe.Describes, ListProps, RegisterAll, RegisterAllEnums, IsFirst, IsDeclaredName;
    RegisterAllFirst(u, declared);
    var table, es := RegisterAll(u, declared).value, RegisterAllEnums(enums).value;
    var kept := Kept(declared, table);
    ListPropsInUniverse(u, methods);
    ListPropsInUniverse(u, kept);
    WalkRepresents(u, f, ListProps(methods) + ListProps(kept), Tables(table, es));
  }

  /** Methods are walked before declared prototypes, and a method's parameters in order: what is met first is kept. */
  lemma FirstHeldIsKept(u: Universe, f: Snapshot, methods: seq<Method>, declared: seq<Method>, enums: seq<EnumType>,
                        p: Property)
    requires u.Valid() && u.Describes(f)
    requires (forall m :: m in methods ==> m in u.methods) && (forall m :: m in declared ==> m in u.methods)
    requires Gathered(u, f, methods, declared, enums).Ok?
    requires methods != [] && p in f && PrototypeOf(f[p].prototype) != null
    requires p == if methods[0].paramTypes == [] then methods[0].retType else methods[0].paramTypes[0]
    requires forall d :: d in declared ==> d.name != PrototypeOf(f[p].prototype).name
    ensures var t, m := Gathered(u, f, methods, declared, enums).value, PrototypeOf(f[p].prototype);
            m.name in t.prototypes && t.prototypes[m.name] == m
  {
    hide Universe.Meaning, Universe.Describes, ListProps, RegisterAll, RegisterAllEnums, Entered, Unregistered;
    var table, es := RegisterAll(u, declared).value, RegisterAllEnums(enums).value;
    var t := Tables(table, es);
    var kept := Kept(declared, table);
    ListPropsInUniverse(u, methods);
    ListPropsInUniverse(u, kept);
    ListPropsSplit(methods, 1);
    ListPropsOne(methods[0]);
    assert methods[..1] == [methods[0]];
    var todo := ListProps(methods) + ListProps(kept);
    assert todo[0] == p;
    EnteredRepresents(u, f[p], t);
    EnteredOne(u, f, p, t);
    WalkRepresents(u, f, Below(f[p], table) + todo[1..], Entered(u, f[p], t).value);
  }

  lemma FirstIsUnique(declared: seq<Method>, a: Method, b: Method)
    requires IsFirst(declared, a) && IsFirst(declared, b) && a.name == b.name
    ensures a == b
  {
    var i :| 0 <= i < |declared| && declared[i] == a && forall j :: 0 <= j < i ==> declared[j].name != a.name;
    var k :| 0 <= k < |declared| && declared[k] == b && forall j :: 0 <= j < k ==> declared[j].name != b.name;
  }

  /** No two of the definitions have the same name. */
  ghost predicate DistinctNames(d: Definitions) {
    && (forall a, b :: a in d.prototypes && b in d.prototypes && a.name == b.name ==> a == b)
    && (forall a, b :: a in d.enums && b in d.enums && a.name == b.name ==> a == b)
  }

  /** The definitions of a table. */
  ghost function DefinitionsOf(t: Tables): Definitions {
    Definitions((set n | n in t.prototypes :: t.prototypes[n]), (set n | n in t.enums :: t.enums[n]))
  }

  /**
   * Where no name is used twice, the gathered definitions are all that can be met from the declared ones
   * and from the methods: they include whatever one of them holds.
   */
  lemma DistinctAreAllGathered(u: Universe, f: Snapshot, methods: seq<Method>, declared: seq<Method>,
                               enums: seq<EnumType>, d: Definitions)
    requires u.Valid() && u.Describes(f)
    requires (forall m :: m in methods ==> m in u.methods) && (forall m :: m in declared ==> m in u.methods)
    requires Gathered(u, f, methods, declared, enums).Ok? && Covers(f, d, methods, declared, enums) && DistinctNames(d)
    ensures var g := DefinitionsOf(Gathered(u, f, methods, declared, enums).value);
            && g.prototypes <= d.prototypes && g.enums <= d.enums
            && Nested(f, g) && forall m, p :: m in methods && p in m.Props() && p in f ==> HoldsFrom(f[p], g)
  {
    hide Gathered, Universe.Meaning, Universe.Describes;
    GatheredFrom(u, f, methods, declared, enums, d);
    GatheredRepresents(u, f, methods, declared, enums);
    var t := Gathered(u, f, methods, declared, enums).value;
    forall p | p in UsedProps(methods, t) && p in f && HoldsFrom(f[p], d)
      ensures HoldsFrom(f[p], DefinitionsOf(t))
    {
      assert Represented(u, f[p], t);
    }
  }

  // --- which gathered tables can be linked ----------------------------------------------------------

  ghost predicate Referenced(f: Fields, t: Tables) {
    && (f.prototype.Reference? ==> f.prototype.name in t.prototypes)
    && (f.enumerate.Reference? ==> f.enumerate.name in t.enums)
  }

  ghost predicate AllReferenced(f: Snapshot, ps: set<Property>, t: Tables) {
    forall p :: p in ps && p in f ==> Referenced(f[p], t)
  }

  /** The prototypes of a table, with an edge for each prototype that one of its properties denotes. */
  ghost function NameGraph(u: Universe, prototypes: map<string, Method>): (g: Graph)
    ensures g.Keys == prototypes.Keys
  {
    map n | n in prototypes :: NamedTargets(u, prototypes[n])
  }

  ghost function NamedTargets(u: Universe, m: Method): set<string> {
    set p | p in m.Props() && p in u.prototypeNames && u.prototypeNames[p] != "" :: u.prototypeNames[p]
  }

  /** Every name that a method or a prototype of the table holds is defined, and no prototype can reach itself. */
  ghost predicate Connectable(u: Universe, f: Snapshot, methods: seq<Method>, t: Tables) {
    AllReferenced(f, UsedProps(methods, t), t) && !Cyclic(NameGraph(u, t.prototypes))
  }

  /** A method or a prototype of the table holds a name that is not defined, or a prototype reaches itself. */
  ghost predicate Explains(u: Universe, f: Snapshot, methods: seq<Method>, t: Tables, e: Error) {
    match e
    case Unknown(PrototypeKind, n) =>
      n !in t.prototypes && exists p :: p in UsedProps(methods, t) && p in f && f[p].prototype == Reference(n)
    case Unknown(EnumKind, n) =>
      n !in t.enums && exists p :: p in UsedProps(methods, t) && p in f && f[p].enumerate == Reference(n)
    case ReferenceCycle(n) => exists w :: IsCycle(NameGraph(u, t.prototypes), w) && w[0] == n
    case _ => false
  }
}
