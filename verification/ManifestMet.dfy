/**
 * A manifest as it is written: which definitions can be met in it, step by step from what it lists, which of
 * them its table gets, and when it is accepted. A definition that repeats another one is not walked, so what it
 * holds may be overlooked.
 */
module WrittenManifests {
  import opened Wrappers
  import opened Digraph
  import opened ManifestModel
  import opened DefinitionWalks

  datatype Names = Names(prototypes: set<string>, enums: set<string>)

  ghost function NamesOf(d: Definitions): Names {
    Names((set m | m in d.prototypes :: m.name), (set e | e in d.enums :: e.name))
  }

  ghost predicate Within(a: Names, b: Names) {
    a.prototypes <= b.prototypes && a.enums <= b.enums
  }

  /** The table has a definition of the same name and meaning. */
  ghost predicate Defined(u: Universe, m: Method, t: Tables) {
    m.name != "" && m.name in t.prototypes && u.Meaning(t.prototypes[m.name]) == u.Meaning(m)
  }

  ghost predicate EnumDefined(e: EnumType, t: Tables) {
    e.name != "" && e.name in t.enums && t.enums[e.name].values == e.values
  }

  ghost predicate RepresentsAll(u: Universe, d: Definitions, t: Tables) {
    (forall m :: m in d.prototypes ==> Defined(u, m, t)) && (forall e :: e in d.enums ==> EnumDefined(e, t))
  }

  ghost function PropsIn(ms: set<Method>): set<Property> {
    set m, p | m in ms && p in m.Props() :: p
  }

  /** One of the properties holds the prototype. */
  ghost predicate IsHeld(f: Snapshot, ps: set<Property>, m: Method) {
    exists p :: p in ps && p in f && PrototypeOf(f[p].prototype) == m
  }

  ghost predicate IsEnumHeld(f: Snapshot, ps: set<Property>, e: EnumType) {
    exists p :: p in ps && p in f && EnumOf(f[p].enumerate) == e
  }

  /** Two definitions of the same meaning have properties of the same meaning. */
  lemma Corresponding(u: Universe, a: Method, b: Method, p: Property) returns (q: Property)
    requires u.Meaning(a) == u.Meaning(b) && p in a.Props()
    ensures q in b.Props() && u.MeaningOfProperty(q) == u.MeaningOfProperty(p)
  {
    if p == a.retType {
      q := b.retType;
    } else {
      var i :| 0 <= i < |a.paramTypes| && a.paramTypes[i] == p;
      u.MeaningOfParamsAt(a.paramTypes, i);
      u.MeaningOfParamsAt(b.paramTypes, i);
      q := b.paramTypes[i];
    }
  }

  datatype Written = Written(u: Universe, f: Snapshot, methods: seq<Method>, declared: seq<Method>,
                             enums: seq<EnumType>) {
    ghost predicate Valid() {
      && u.Valid() && u.Describes(f)
      && (forall m :: m in methods ==> m in u.methods) && (forall m :: m in declared ==> m in u.methods)
      && (forall e :: e in enums ==> e in u.enums)
    }

    /** The table that the definitions are gathered into. */
    ghost function Table(): Result<Tables, Error>
      requires Valid()
    {
      Gathered(u, f, methods, declared, enums)
    }

    /** The manifest can be resolved. */
    ghost predicate Accepted()
      requires Valid()
    {
      Table().Ok? && Connectable(u, f, methods, Table().value)
    }

    /** The table has a definition of the same name and meaning for all definitions that can be met. */
    ghost predicate HasAll()
      requires Valid()
    {
      Table().Ok? && RepresentsAll(u, Met(), Table().value)
    }

    // --- the definitions that can be met --------------------------------------------------------------

    ghost function HeldBy(ps: set<Property>): Definitions {
      Definitions((set m | m in u.methods && IsHeld(f, ps, m)), (set e | e in u.enums && IsEnumHeld(f, ps, e)))
    }

    /** The prototypes met in k steps at most through the given ones, from those declared or held by methods. */
    ghost function Steps(through: set<Method>, k: nat): set<Method> {
      if k == 0 then (set m | m in declared) + HeldBy(PropsOf(methods)).prototypes
      else Steps(through, k - 1) + HeldBy(PropsIn(Steps(through, k - 1) * through)).prototypes
    }

    ghost function ReachedPrototypes(through: set<Method>): set<Method> {
      set m | m in u.methods && exists k: nat :: m in Steps(through, k)
    }

    ghost function Reached(through: set<Method>): Definitions {
      var ms := ReachedPrototypes(through);
      Definitions(ms, (set e | e in enums) + HeldBy(PropsOf(methods) + PropsIn(ms * through)).enums)
    }

    /** All definitions that can be met. */
    ghost function Met(): Definitions {
      Reached(u.methods)
    }

    ghost function MetProps(): set<Property> {
      PropsOf(methods) + PropsIn(Met().prototypes)
    }

    /** The prototypes that do not repeat a declared one. */
    ghost function NoRepetitions(): set<Method> {
      set m | m in u.methods && IsNoRepetition(declared, m)
    }

    /** The definitions that can be met without passing through a repetition of a declared prototype. */
    ghost function Walked(): Definitions {
      Reached(NoRepetitions())
    }

    /** The definitions include what is listed, and what methods hold and those of them that are in through. */
    ghost predicate Closed(d: Definitions, through: set<Method>) {
      && Declares(d, declared, enums)
      && (forall m, p :: m in d.prototypes && m in through && p in m.Props() && p in f ==> HoldsFrom(f[p], d))
      && (forall m, p :: m in methods && p in m.Props() && p in f ==> HoldsFrom(f[p], d))
    }

    lemma FieldInUniverse(p: Property)
      requires Valid() && p in f
      ensures p in u.props && u.DescribesField(p, f[p])
    {
    }

    lemma ReachedIsClosed(through: set<Method>)
      requires Valid()
      ensures Closed(Reached(through), through)
    {
      hide Universe.DescribesField;
      var d := Reached(through);
      forall m | m in declared
        ensures m in d.prototypes
      {
        assert m in Steps(through, 0);
      }
      forall h, p | h in methods && p in h.Props() && p in f
        ensures HoldsFrom(f[p], d)
      {
        assert p in PropsOf(methods);
        HeldAtOnce(through, p);
      }
      forall h, p | h in d.prototypes && h in through && p in h.Props() && p in f
        ensures HoldsFrom(f[p], d)
      {
        HeldNext(through, h, p);
      }
    }

    lemma HeldAtOnce(through: set<Method>, p: Property)
      requires Valid() && p in PropsOf(methods) && p in f
      ensures HoldsFrom(f[p], Reached(through))
    {
      FieldInUniverse(p);
      var m, e := PrototypeOf(f[p].prototype), EnumOf(f[p].enumerate);
      if m != null {
        assert IsHeld(f, PropsOf(methods), m);
        assert m in Steps(through, 0);
      }
      if e != null {
        assert IsEnumHeld(f, PropsOf(methods) + PropsIn(ReachedPrototypes(through) * through), e);
      }
    }

    lemma HeldNext(through: set<Method>, h: Method, p: Property)
      requires Valid() && h in ReachedPrototypes(through) && h in through && p in h.Props() && p in f
      ensures HoldsFrom(f[p], Reached(through))
    {
      FieldInUniverse(p);
      var m, e := PrototypeOf(f[p].prototype), EnumOf(f[p].enumerate);
      if m != null {
        var k: nat :| h in Steps(through, k);
        assert p in PropsIn(Steps(through, k) * through);
        assert IsHeld(f, PropsIn(Steps(through, k) * through), m);
        assert m in Steps(through, k + 1);
      }
      if e != null {
        assert p in PropsIn(ReachedPrototypes(through) * through);
        assert IsEnumHeld(f, PropsOf(methods) + PropsIn(ReachedPrototypes(through) * through), e);
      }
    }

    /** They are the least such definitions. */
    lemma ReachedIsLeast(through: set<Method>, d: Definitions)
      requires Closed(d, through)
      ensures Reached(through).prototypes <= d.prototypes && Reached(through).enums <= d.enums
    {
      forall m | m in ReachedPrototypes(through)
        ensures m in d.prototypes
      {
        var k: nat :| m in Steps(through, k);
        StepsStay(through, d, k);
      }
      forall e | e in Reached(through).enums && e !in enums
        ensures e in d.enums
      {
        var p :| p in PropsOf(methods) + PropsIn(ReachedPrototypes(through) * through) && p in f
            && EnumOf(f[p].enumerate) == e;
      }
    }

    lemma {:induction false} StepsStay(through: set<Method>, d: Definitions, k: nat)
      requires Closed(d, through)
      ensures Steps(through, k) <= d.prototypes
    {
      if k > 0 {
        StepsStay(through, d, k - 1);
      }
    }

    /** What can be met without repetitions can be met. */
    lemma WalkedIsMet()
      requires Valid()
      ensures Walked().prototypes <= Met().prototypes && Walked().enums <= Met().enums
    {
      hide Reached;
      ReachedIsClosed(u.methods);
      ReachedIsLeast(NoRepetitions(), Reached(u.methods));
    }

    lemma MetCovers()
      requires Valid()
      ensures Covers(f, Met(), methods, declared, enums) && Met().prototypes <= u.methods && Met().enums <= u.enums
      ensures CoversKept(f, Met(), methods, declared, enums) && CoversKept(f, Walked(), methods, declared, enums)
    {
      ReachedIsClosed(u.methods);
      ReachedIsClosed(NoRepetitions());
      assert Walked().prototypes <= u.methods;
      hide Reached;
    }

    lemma MetIsLeast(d: Definitions)
      requires Covers(f, d, methods, declared, enums)
      ensures Met().prototypes <= d.prototypes && Met().enums <= d.enums
    {
      hide Reached;
      ReachedIsLeast(u.methods, d);
    }

    // --- what the table gets --------------------------------------------------------------------------

    lemma TableFacts()
      requires Valid() && Table().Ok?
      ensures var t := Table().value;
              && TakenFrom(t, Met()) && TakenFrom(t, Walked()) && AllRepresented(u, f, UsedProps(methods, t), t)
              && (forall m :: m in declared ==> Defined(u, m, t)) && (forall e :: e in enums ==> EnumDefined(e, t))
    {
      hide Gathered, Universe.Meaning, Covers, CoversKept, TakenFrom, AllRepresented, Met, Walked, Universe.Describes;
      MetCovers();
      GatheredFrom(u, f, methods, declared, enums, Met());
      GatheredFrom(u, f, methods, declared, enums, Walked());
      GatheredRepresents(u, f, methods, declared, enums);
    }

    /** Of the names that a method or a prototype of the table holds, those are linked that can be met. */
    ghost predicate LinksMet(t: Tables) {
      forall q :: q in UsedProps(methods, t) && q in f ==>
        && (f[q].prototype.Reference? && f[q].prototype.name in NamesOf(Met()).prototypes ==>
           f[q].prototype.name in t.prototypes)
        && (f[q].enumerate.Reference? && f[q].enumerate.name in NamesOf(Met()).enums ==> f[q].enumerate.name in t.enums)
    }

    ghost function DefinedOnes(d: Definitions, t: Tables): Definitions {
      Definitions((set m | m in d.prototypes && Defined(u, m, t)), (set e | e in d.enums && EnumDefined(e, t)))
    }

    /** If the names that used properties hold are linked, what a defined definition holds is defined. */
    lemma HeldIsDefined(h: Method, p: Property)
      requires Valid() && Table().Ok? && Compatible(u, Met()) && LinksMet(Table().value)
      requires h in Met().prototypes && Defined(u, h, Table().value) && p in h.Props() && p in f
      ensures HoldsFrom(f[p], DefinedOnes(Met(), Table().value))
    {
      hide Gathered, Universe.Meaning, Met, Universe.Describes, Compatible, LinksMet;
      var t := Table().value;
      TableFacts();
      MetCovers();
      var c := t.prototypes[h.name];
      var q := Corresponding(u, h, c, p);
      UsedProperty(t, h.name, q);
      SameNamesDenoted(p, q);
      assert HoldsFrom(f[p], Met());
      assert Represented(u, f[q], t);
      NamedIsDefined(t, p, q);
    }

    lemma UsedProperty(t: Tables, n: string, q: Property)
      requires n in t.prototypes && q in t.prototypes[n].Props()
      ensures q in UsedProps(methods, t)
    {
      assert q in TableProps(t.prototypes, t.prototypes.Keys);
    }

    lemma SameNamesDenoted(p: Property, q: Property)
      requires Valid() && p in f && q in u.props && u.MeaningOfProperty(p) == u.MeaningOfProperty(q)
      ensures q in f && PrototypeName(f[p].prototype) == PrototypeName(f[q].prototype)
      ensures EnumName(f[p].enumerate) == EnumName(f[q].enumerate)
    {
      FieldInUniverse(p);
      FieldInUniverse(q);
    }

    /** One property is used, the other one denotes the same. */
    lemma NamedIsDefined(t: Tables, p: Property, q: Property)
      requires p in f && q in f && HoldsFrom(f[p], Met()) && TakenFrom(t, Met()) && Compatible(u, Met())
      requires PrototypeName(f[p].prototype) == PrototypeName(f[q].prototype)
               && EnumName(f[p].enumerate) == EnumName(f[q].enumerate)
      requires q in UsedProps(methods, t) && LinksMet(t) && Represented(u, f[q], t)
      ensures HoldsFrom(f[p], DefinedOnes(Met(), t))
    {
      hide Universe.Meaning, Met, UsedProps;
      var m, e := PrototypeOf(f[p].prototype), EnumOf(f[p].enumerate);
      if m != null {
        assert m.name in NamesOf(Met()).prototypes && m.name in t.prototypes;
      }
      if e != null {
        assert e.name in NamesOf(Met()).enums && e.name in t.enums;
      }
    }

    /**
     * Definitions that are named and do not clash can all be gathered. The table has all that can be met exactly
     * if every name that a method or a prototype of the table holds, and that can be met, is linked.
     */
    lemma AllIffLinked()
      requires Valid() && Compatible(u, Met())
      ensures Table().Ok? && (HasAll() <==> LinksMet(Table().value))
    {
      hide Gathered, Universe.Meaning, Met, Universe.Describes, LinksMet, Compatible, HoldsFrom;
      MetCovers();
      CompatibleGathers(u, f, methods, declared, enums, Met());
      var t := Table().value;
      TableFacts();
      if RepresentsAll(u, Met(), t) {
        AllAreLinked(t);
      } else if LinksMet(t) {
        var d := DefinedOnes(Met(), t);
        forall h, p | h in methods && p in h.Props() && p in f
          ensures HoldsFrom(f[p], d)
        {
          assert p in PropsOf(methods) && HoldsFrom(f[p], Met()) && Represented(u, f[p], t);
          RepresentedIsDefined(f[p], Met(), t);
        }
        forall h, p | h in d.prototypes && p in h.Props() && p in f
          ensures HoldsFrom(f[p], d)
        {
          HeldIsDefined(h, p);
        }
        MetIsLeast(d);
      }
    }

    lemma RepresentedIsDefined(fields: Fields, d: Definitions, t: Tables)
      requires HoldsFrom(fields, d) && Represented(u, fields, t)
      ensures HoldsFrom(fields, DefinedOnes(d, t))
    {
      hide Universe.Meaning;
    }

    lemma AllAreLinked(t: Tables)
      requires RepresentsAll(u, Met(), t)
      ensures LinksMet(t) && Within(NamesOf(Met()), Names(t.prototypes.Keys, t.enums.Keys))
    {
      hide Universe.Meaning, Met, UsedProps;
    }

    /** So every manifest of which all names are linked has all definitions that can be met in its table. */
    lemma LinkedHasAll()
      requires Valid() && Compatible(u, Met())
      ensures Table().Ok?
      ensures AllReferenced(f, UsedProps(methods, Table().value), Table().value) ==> HasAll()
    {
      hide Table, Compatible, HasAll, UsedProps, Met;
      AllIffLinked();
    }

    // --- names ----------------------------------------------------------------------------------------

    ghost predicate IsName(fields: Fields, names: Names) {
      && (fields.prototype.Reference? ==> fields.prototype.name in names.prototypes)
      && (fields.enumerate.Reference? ==> fields.enumerate.name in names.enums)
    }

    /** Every name that a method or a definition holds is the name of a definition that can be met. */
    ghost predicate NamesMet() {
      forall p :: p in MetProps() && p in f ==> IsName(f[p], NamesOf(Met()))
    }

    /** A property that holds the empty name compares as one that holds nothing, but cannot be linked. */
    ghost predicate NoBlankNames() {
      forall p :: p in MetProps() && p in f ==> f[p].prototype != Reference("") && f[p].enumerate != Reference("")
    }

    lemma UsedIsMet(t: Tables)
      requires TakenFrom(t, Met())
      ensures UsedProps(methods, t) <= MetProps()
    {
    }

    /**
     * If every name that is held can be met, the table has all definitions exactly if all names are linked. So a
     * definition that is overlooked shows itself, and only so, by a name that is not found though it is defined.
     */
    lemma AllIffReferenced()
      requires Valid() && Compatible(u, Met()) && NamesMet()
      ensures Table().Ok?
      ensures HasAll() <==> AllReferenced(f, UsedProps(methods, Table().value), Table().value)
    {
      hide Table, Compatible, HasAll, UsedProps, Met, MetProps, TakenFrom;
      AllIffLinked();
      TableFacts();
      UsedIsMet(Table().value);
    }

    // --- which manifests are accepted -----------------------------------------------------------------

    /** The names of all prototypes that can be met, with an edge for each prototype that a property denotes. */
    ghost function MetGraph(): Graph {
      map n | n in NamesOf(Met()).prototypes :: TargetsOf(n)
    }

    ghost function TargetsOf(n: string): set<string> {
      set m, x | m in Met().prototypes && m.name == n && x in NamedTargets(u, m) :: x
    }

    lemma SameTargets(a: Method, b: Method)
      requires u.Valid() && a in u.methods && b in u.methods && u.Meaning(a) == u.Meaning(b)
      ensures NamedTargets(u, a) == NamedTargets(u, b)
    {
      TargetsWithin(a, b);
      TargetsWithin(b, a);
    }

    lemma TargetsWithin(a: Method, b: Method)
      requires u.Valid() && a in u.methods && b in u.methods && u.Meaning(a) == u.Meaning(b)
      ensures NamedTargets(u, a) <= NamedTargets(u, b)
    {
      hide Universe.Meaning;
      forall x | x in NamedTargets(u, a)
        ensures x in NamedTargets(u, b)
      {
        var p :| p in a.Props() && p in u.prototypeNames && u.prototypeNames[p] != "" && u.prototypeNames[p] == x;
        var q := Corresponding(u, a, b, p);
        assert q in u.props;
      }
    }

    lemma SameGraph(t: Tables)
      requires Valid() && TakenFrom(t, Met()) && Compatible(u, Met()) && RepresentsAll(u, Met(), t)
      ensures NameGraph(u, t.prototypes) == MetGraph()
    {
      hide Universe.Meaning, Met, NamedTargets;
      MetCovers();
      forall n | n in t.prototypes
        ensures NamedTargets(u, t.prototypes[n]) == TargetsOf(n)
      {
        forall m | m in Met().prototypes && m.name == n
          ensures NamedTargets(u, m) == NamedTargets(u, t.prototypes[n])
        {
          SameTargets(m, t.prototypes[n]);
        }
      }
    }

    /** All names are met if those of the used properties are linked, and all definitions are in the table. */
    lemma LinkedAreMet(t: Tables)
      requires Valid() && Table() == Ok(t) && RepresentsAll(u, Met(), t) && NoBlankNames()
      requires AllReferenced(f, UsedProps(methods, t), t)
      ensures NamesMet()
    {
      hide Gathered, Universe.Meaning, Met, Universe.Describes, UsedProps;
      TableFacts();
      MetCovers();
      forall p | p in MetProps() && p in f
        ensures IsName(f[p], NamesOf(Met()))
      {
        if p in PropsOf(methods) {
          UsedByMethod(t, p);
          LinkedIsMet(t, p, p);
        } else {
          var h :| h in Met().prototypes && p in h.Props();
          assert Defined(u, h, t);
          var q := Corresponding(u, h, t.prototypes[h.name], p);
          UsedProperty(t, h.name, q);
          SameNamesDenoted(p, q);
          LinkedIsMet(t, p, q);
        }
      }
    }

    lemma UsedByMethod(t: Tables, p: Property)
      requires p in PropsOf(methods)
      ensures p in UsedProps(methods, t)
    {
    }

    lemma LinkedIsMet(t: Tables, p: Property, q: Property)
      requires p in f && q in f && TakenFrom(t, Met()) && f[p].prototype != Reference("")
               && f[p].enumerate != Reference("")
      requires PrototypeName(f[p].prototype) == PrototypeName(f[q].prototype)
               && EnumName(f[p].enumerate) == EnumName(f[q].enumerate)
      requires Referenced(f[q], t) && Represented(u, f[q], t)
      ensures IsName(f[p], NamesOf(Met()))
    {
      hide Universe.Meaning, Met;
      if f[p].prototype.Reference? {
        var n := f[p].prototype.name;
        assert n in t.prototypes && t.prototypes[n].name == n;
      }
      if f[p].enumerate.Reference? {
        var n := f[p].enumerate.name;
        assert n in t.enums && t.enums[n].name == n;
      }
    }

    /**
     * A manifest whose definitions are named and do not clash is accepted exactly if the table has all of them,
     * every name is that of a definition, and no prototype can reach itself by names.
     */
    lemma AcceptedIff()
      requires Valid() && Compatible(u, Met()) && NoBlankNames()
      ensures Accepted() <==> HasAll() && NamesMet() && !Cyclic(MetGraph())
    {
      hide Table, Compatible, RepresentsAll, UsedProps, Met, NoBlankNames, NamesMet, TakenFrom, MetGraph, NameGraph,
           AllReferenced;
      AllIffLinked();
      TableFacts();
      var t := Table().value;
      if AllReferenced(f, UsedProps(methods, t), t) {
        LinkedHasAll();
        LinkedAreMet(t);
        SameGraph(t);
      } else if NamesMet() && RepresentsAll(u, Met(), t) {
        AllIffReferenced();
      }
    }

    // --- the condition on the manifest as it is written -------------------------------------------------

    ghost function HeldNames(m: Method): Names {
      NamesOf(HeldBy(m.Props()))
    }

    /** Definitions of one name that is not declared hold definitions of the same names. */
    ghost predicate Uniform() {
      forall a, b :: a in Met().prototypes && b in Met().prototypes && a.name == b.name ==>
        IsDeclaredName(declared, a.name) || HeldNames(a) == HeldNames(b)
    }

    /** What the prototype of the table holds by definition is in the table. */
    lemma HeldByTableIsNamed(t: Tables, n: string)
      requires Valid() && Table() == Ok(t) && n in t.prototypes
      ensures Within(HeldNames(t.prototypes[n]), Names(t.prototypes.Keys, t.enums.Keys))
    {
      hide Gathered, Universe.Meaning, Met, Universe.Describes, UsedProps, Walked;
      TableFacts();
      var c := t.prototypes[n];
      forall m | m in HeldBy(c.Props()).prototypes
        ensures m.name in t.prototypes
      {
        var p :| p in c.Props() && p in f && PrototypeOf(f[p].prototype) == m;
        UsedProperty(t, n, p);
        assert Represented(u, f[p], t);
      }
      forall e | e in HeldBy(c.Props()).enums
        ensures e.name in t.enums
      {
        var p :| p in c.Props() && p in f && EnumOf(f[p].enumerate) == e;
        UsedProperty(t, n, p);
        assert Represented(u, f[p], t);
      }
    }

    /** What a property of a definition holds is among the names that the definition holds. */
    lemma HeldNamesOf(h: Method, p: Property)
      requires Valid() && p in h.Props() && p in f
      ensures PrototypeOf(f[p].prototype) != null ==> PrototypeOf(f[p].prototype).name in HeldNames(h).prototypes
      ensures EnumOf(f[p].enumerate) != null ==> EnumOf(f[p].enumerate).name in HeldNames(h).enums
    {
      FieldInUniverse(p);
      var m, e := PrototypeOf(f[p].prototype), EnumOf(f[p].enumerate);
      if m != null {
        assert IsHeld(f, h.Props(), m) && m in HeldBy(h.Props()).prototypes;
      }
      if e != null {
        assert IsEnumHeld(f, h.Props(), e) && e in HeldBy(h.Props()).enums;
      }
    }

    ghost function NamedOnes(d: Definitions, names: Names): Definitions {
      Definitions((set m | m in d.prototypes && m.name in names.prototypes),
          (set e | e in d.enums && e.name in names.enums))
    }

    lemma HeldIsNamed(h: Method, p: Property, d: Definitions, names: Names)
      requires Valid() && p in h.Props() && p in f && HoldsFrom(f[p], d) && Within(HeldNames(h), names)
      ensures HoldsFrom(f[p], NamedOnes(d, names))
    {
      hide HeldNames;
      HeldNamesOf(h, p);
    }

    /** Where undeclared definitions are uniform, the table has a definition for all that is walked. */
    lemma WalkedAreNamed(t: Tables)
      requires Valid() && Table() == Ok(t) && Uniform()
      ensures Within(NamesOf(Walked()), Names(t.prototypes.Keys, t.enums.Keys))
    {
      hide Gathered, Universe.Meaning, Met, Universe.Describes, UsedProps, Walked, HeldNames, HoldsFrom, IsNoRepetition,
           Within;
      TableFacts();
      MetCovers();
      WalkedIsMet();
      GatheredKeepsFirst(u, f, methods, declared, enums);
      var names := Names(t.prototypes.Keys, t.enums.Keys);
      var d := NamedOnes(Walked(), names);
      forall h, p | h in d.prototypes && IsNoRepetition(declared, h) && p in h.Props() && p in f
        ensures HoldsFrom(f[p], d)
      {
        HeldByTableIsNamed(t, h.name);
        SameAsInTable(t, h);
        HeldIsNamed(h, p, Walked(), names);
      }
      forall h, p | h in methods && p in h.Props() && p in f
        ensures HoldsFrom(f[p], d)
      {
        assert p in PropsOf(methods);
        UsedByMethod(t, p);
        assert Represented(u, f[p], t) && HoldsFrom(f[p], Walked());
        RepresentedIsNamed(f[p], Walked(), t);
      }
      ClosedNamedOnes(d);
      NamedOnesNames(Walked(), names);
    }

    lemma NamedOnesNames(d: Definitions, names: Names)
      requires d.prototypes <= NamedOnes(d, names).prototypes && d.enums <= NamedOnes(d, names).enums
      ensures Within(NamesOf(d), names)
    {
    }

    lemma RepresentedIsNamed(fields: Fields, d: Definitions, t: Tables)
      requires HoldsFrom(fields, d) && Represented(u, fields, t)
      ensures HoldsFrom(fields, NamedOnes(d, Names(t.prototypes.Keys, t.enums.Keys)))
    {
      hide Universe.Meaning;
    }

    lemma ClosedNamedOnes(d: Definitions)
      requires CoversKept(f, d, methods, declared, enums)
      ensures Walked().prototypes <= d.prototypes && Walked().enums <= d.enums
    {
      hide Reached, IsNoRepetition;
      ReachedIsLeast(NoRepetitions(), d);
    }

    /** A definition that is walked holds the names that the one in the table holds. */
    lemma SameAsInTable(t: Tables, h: Method)
      requires Valid() && Uniform() && h in Met().prototypes && IsNoRepetition(declared, h) && h.name in t.prototypes
      requires TakenFrom(t, Met())
      requires forall n :: IsDeclaredName(declared, n) ==> n in t.prototypes && IsFirst(declared, t.prototypes[n])
      ensures HeldNames(h) == HeldNames(t.prototypes[h.name])
    {
      hide HeldNames, Met, IsFirst, IsDeclaredName;
      if IsDeclaredName(declared, h.name) {
        FirstIsUnique(declared, h, t.prototypes[h.name]);
      }
    }

    lemma NamesSuffice(t: Tables)
      requires TakenFrom(t, Met()) && Compatible(u, Met())
               && Within(NamesOf(Met()), Names(t.prototypes.Keys, t.enums.Keys))
      ensures RepresentsAll(u, Met(), t)
    {
      hide Universe.Meaning, Met;
      forall m | m in Met().prototypes
        ensures Defined(u, m, t)
      {
        assert m.name in NamesOf(Met()).prototypes;
      }
      forall e | e in Met().enums
        ensures EnumDefined(e, t)
      {
        assert e.name in NamesOf(Met()).enums;
      }
    }

    /**
     * Where undeclared definitions of one name are uniform, the table has all that can be met exactly if nothing
     * can be met only through repetitions of declared prototypes.
     */
    lemma AllIffWalked()
      requires Valid() && Compatible(u, Met()) && Uniform()
      ensures Table().Ok? && (HasAll() <==> Within(NamesOf(Met()), NamesOf(Walked())))
    {
      hide Table, Compatible, Met, Walked, Uniform;
      AllIffLinked();
      TableFacts();
      var t := Table().value;
      if RepresentsAll(u, Met(), t) {
        AllAreLinked(t);
        TakenNames(t, Walked());
      } else if Within(NamesOf(Met()), NamesOf(Walked())) {
        WalkedAreNamed(t);
        NamesSuffice(t);
      }
    }

    lemma TakenNames(t: Tables, d: Definitions)
      requires TakenFrom(t, d)
      ensures Within(Names(t.prototypes.Keys, t.enums.Keys), NamesOf(d))
    {
      forall n | n in t.prototypes
        ensures n in NamesOf(d).prototypes
      {
        assert t.prototypes[n].name == n;
      }
      forall n | n in t.enums
        ensures n in NamesOf(d).enums
      {
        assert t.enums[n].name == n;
      }
    }

    /** For those manifests, what is accepted can be told from the manifest as it is written. */
    lemma AcceptedAsWritten()
      requires Valid() && Compatible(u, Met()) && NoBlankNames() && Uniform()
      ensures Accepted() <==> Within(NamesOf(Met()), NamesOf(Walked())) && NamesMet() && !Cyclic(MetGraph())
    {
      hide Table, Compatible, HasAll, Met, Walked, Uniform, NoBlankNames, NamesMet, MetGraph, Within;
      AllIffWalked();
      AcceptedIff();
    }

    /** Definitions of one name, declared or not, hold definitions of the same names. */
    ghost predicate SameForms() {
      forall a, b :: a in Met().prototypes && b in Met().prototypes && a.name == b.name ==> HeldNames(a) == HeldNames(b)
    }

    /** Where repetitions hold by definition what the first one holds by definition, nothing is overlooked. */
    lemma SameFormsHaveAll()
      requires Valid() && Compatible(u, Met()) && SameForms()
      ensures Uniform() && HasAll()
    {
      hide Table, Compatible, HasAll, Met, Walked, HeldNames;
      SameFormsAreWalked();
      AllIffWalked();
    }

    lemma SameFormsAreWalked()
      requires Valid() && SameForms()
      ensures Within(NamesOf(Met()), NamesOf(Walked()))
    {
      hide Met, Walked, HeldNames, HoldsFrom, IsNoRepetition, Within;
      MetCovers();
      WalkedIsMet();
      var names := NamesOf(Walked());
      var d := NamedOnes(Met(), names);
      forall m | m in declared
        ensures m in d.prototypes
      {
        assert m in Walked().prototypes;
      }
      forall h, p | h in d.prototypes && p in h.Props() && p in f
        ensures HoldsFrom(f[p], d)
      {
        HeldNamesAreWalked(h);
        HeldIsNamed(h, p, Met(), names);
      }
      forall h, p | h in methods && p in h.Props() && p in f
        ensures HoldsFrom(f[p], d)
      {
        HeldBoth(f[p], Met(), Walked());
      }
      MetIsLeast(d);
      NamedOnesNames(Met(), names);
    }

    lemma HeldBoth(fields: Fields, a: Definitions, b: Definitions)
      requires HoldsFrom(fields, a) && HoldsFrom(fields, b)
      ensures HoldsFrom(fields, NamedOnes(a, NamesOf(b)))
    {
    }

    /** A definition whose name is walked holds names that are walked. */
    lemma HeldNamesAreWalked(h: Method)
      requires Valid() && SameForms() && h in Met().prototypes && h.name in NamesOf(Walked()).prototypes
      ensures Within(HeldNames(h), NamesOf(Walked()))
    {
      hide Met, Walked, HeldNames, HoldsFrom;
      MetCovers();
      WalkedIsMet();
      var w :| w in Walked().prototypes && w.name == h.name;
      if !IsNoRepetition(declared, w) {
        w := FirstOf(declared, h.name);
      }
      assert HeldNames(w) == HeldNames(h);
      HeldByWalked(w);
    }

    lemma FirstOf(ms: seq<Method>, n: string) returns (m: Method)
      requires IsDeclaredName(ms, n)
      ensures m in ms && m.name == n && IsFirst(ms, m)
    {
      var i := 0;
      while ms[i].name != n
        invariant 0 <= i < |ms| && forall j :: 0 <= j < i ==> ms[j].name != n
        invariant exists k :: i <= k < |ms| && ms[k].name == n
        decreases |ms| - i
      {
        i := i + 1;
      }
      m := ms[i];
    }

    lemma HeldByWalked(w: Method)
      requires Valid() && w in Walked().prototypes && IsNoRepetition(declared, w)
      ensures Within(HeldNames(w), NamesOf(Walked()))
    {
      hide Walked, IsNoRepetition;
      MetCovers();
      forall m | m in HeldBy(w.Props()).prototypes
        ensures m in Walked().prototypes
      {
        var p :| p in w.Props() && p in f && PrototypeOf(f[p].prototype) == m;
        assert HoldsFrom(f[p], Walked());
      }
      forall e | e in HeldBy(w.Props()).enums
        ensures e in Walked().enums
      {
        var p :| p in w.Props() && p in f && EnumOf(f[p].enumerate) == e;
        assert HoldsFrom(f[p], Walked());
      }
    }

    /** Every name that is referred to, and can be met, is declared or held by a method. */
    ghost predicate Openly() {
      forall p :: p in MetProps() && p in f ==>
        && (f[p].prototype.Reference? && f[p].prototype.name in NamesOf(Met()).prototypes ==>
           ListedPrototype(f[p].prototype.name))
        && (f[p].enumerate.Reference? && f[p].enumerate.name in NamesOf(Met()).enums ==>
           ListedEnum(f[p].enumerate.name))
    }

    ghost predicate ListedPrototype(n: string) {
      || IsDeclaredName(declared, n)
      || exists m :: m in HeldBy(PropsOf(methods)).prototypes && m.name == n
    }

    ghost predicate ListedEnum(n: string) {
      || (exists e :: e in enums && e.name == n)
      || exists e :: e in HeldBy(PropsOf(methods)).enums && e.name == n
    }

    lemma OpenlyHaveAll()
      requires Valid() && Compatible(u, Met()) && Openly()
      ensures HasAll()
    {
      hide Table, Compatible, HasAll, Met, Openly, ListedPrototype, ListedEnum, LinksMet;
      AllIffLinked();
      TableFacts();
      var t := Table().value;
      forall n | ListedPrototype(n) ensures n in t.prototypes { ListedIsNamed(t, n); }
      forall n | ListedEnum(n) ensures n in t.enums { ListedIsNamed(t, n); }
      OpenlyLinks(t);
    }

    lemma ListedIsNamed(t: Tables, n: string)
      requires Valid() && Table() == Ok(t)
      ensures ListedPrototype(n) ==> n in t.prototypes
      ensures ListedEnum(n) ==> n in t.enums
    {
      hide Gathered, Universe.Meaning, Met, Walked, Universe.Describes, UsedProps;
      TableFacts();
      forall p | p in PropsOf(methods) && p in f
        ensures Represented(u, f[p], t)
      {
        UsedByMethod(t, p);
      }
      if IsDeclaredName(declared, n) {
        var i :| 0 <= i < |declared| && declared[i].name == n;
        assert Defined(u, declared[i], t);
      }
    }

    lemma OpenlyLinks(t: Tables)
      requires Openly() && TakenFrom(t, Met())
      requires forall n :: ListedPrototype(n) ==> n in t.prototypes
      requires forall n :: ListedEnum(n) ==> n in t.enums
      ensures LinksMet(t)
    {
      hide Met, ListedPrototype, ListedEnum, UsedProps, MetProps;
      UsedIsMet(t);
    }

    // --- whichever definition is kept -------------------------------------------------------------------

    /**
     * A table with a definition for whatever is declared or held by the methods and its own prototypes, and
     * with the first of the declared prototypes of a name: what gathering may end with, depending on which of
     * several definitions of an undeclared name it meets first.
     */
    ghost predicate Possible(t: Tables) {
      && TakenFrom(t, Met())
      && (forall n :: IsDeclaredName(declared, n) ==> n in t.prototypes && IsFirst(declared, t.prototypes[n]))
      && (forall e :: e in enums ==> e.name in t.enums)
      && Within(NamesOf(HeldBy(UsedProps(methods, t))), Names(t.prototypes.Keys, t.enums.Keys))
    }

    lemma TableIsPossible()
      requires Valid() && Table().Ok?
      ensures Possible(Table().value)
    {
      hide Gathered, Universe.Meaning, Met, Walked, Universe.Describes, UsedProps, IsFirst, IsDeclaredName;
      TableFacts();
      GatheredKeepsFirst(u, f, methods, declared, enums);
      var t := Table().value;
      forall m | m in HeldBy(UsedProps(methods, t)).prototypes
        ensures m.name in t.prototypes
      {
        var p :| p in UsedProps(methods, t) && p in f && PrototypeOf(f[p].prototype) == m;
        assert Represented(u, f[p], t);
      }
      forall e | e in HeldBy(UsedProps(methods, t)).enums
        ensures e.name in t.enums
      {
        var p :| p in UsedProps(methods, t) && p in f && EnumOf(f[p].enumerate) == e;
        assert Represented(u, f[p], t);
      }
    }

    ghost predicate Disjoint(a: Names, b: Names) {
      a.prototypes !! b.prototypes && a.enums !! b.enums
    }

    /** A definition of the name that repeats no declared one and holds none of the hidden names. */
    ghost predicate Avoids(m: Method, n: string, hidden: Names) {
      m in Met().prototypes && m.name == n && IsNoRepetition(declared, m) && Disjoint(HeldNames(m), hidden)
    }

    /**
     * None of the hidden names is declared or held by a method, and every other name has a definition that
     * holds none of them.
     */
    ghost predicate Hides(hidden: Names) {
      && (hidden.prototypes != {} || hidden.enums != {}) && Within(hidden, NamesOf(Met()))
      && (forall m :: m in declared ==> m.name !in hidden.prototypes)
         && (forall e :: e in enums ==> e.name !in hidden.enums)
      && Disjoint(NamesOf(HeldBy(PropsOf(methods))), hidden)
      && forall n :: n in NamesOf(Met()).prototypes && n !in hidden.prototypes ==>
           exists m :: m in u.methods && Avoids(m, n, hidden)
    }

    ghost function Missing(t: Tables): Names {
      Names(NamesOf(Met()).prototypes - t.prototypes.Keys, NamesOf(Met()).enums - t.enums.Keys)
    }

    lemma NothingMissing(t: Tables)
      requires Missing(t) == Names({}, {})
      ensures Within(NamesOf(Met()), Names(t.prototypes.Keys, t.enums.Keys))
    {
      hide Met;
      var names := NamesOf(Met());
      assert forall n :: n in names.prototypes ==> n in t.prototypes.Keys || n in Missing(t).prototypes;
      assert forall n :: n in names.enums ==> n in t.enums.Keys || n in Missing(t).enums;
    }

    lemma NotMissing(names: Names, t: Tables)
      requires Within(names, Names(t.prototypes.Keys, t.enums.Keys))
      ensures Disjoint(names, Missing(t))
    {
    }

    /** What a possible table does not have is hidden. */
    lemma MissingIsHidden(t: Tables)
      requires Valid() && Compatible(u, Met()) && Possible(t) && !RepresentsAll(u, Met(), t)
      ensures Hides(Missing(t))
    {
      hide Met, IsFirst, IsDeclaredName, Compatible, RepresentsAll, HeldBy, HeldNames, UsedProps, Disjoint;
      MetCovers();
      var hidden := Missing(t);
      if hidden == Names({}, {}) {
        NothingMissing(t);
        NamesSuffice(t);
      }
      MethodsHoldUsed(t);
      DeclaredNames();
      NotMissing(NamesOf(HeldBy(PropsOf(methods))), t);
      forall n | n in NamesOf(Met()).prototypes && n !in hidden.prototypes
        ensures t.prototypes[n] in u.methods && Avoids(t.prototypes[n], n, hidden)
      {
        TableHoldsUsed(t, n);
        NotMissing(HeldNames(t.prototypes[n]), t);
      }
    }

    lemma DeclaredNames()
      ensures forall m :: m in declared ==> IsDeclaredName(declared, m.name)
    {
      forall m | m in declared
        ensures IsDeclaredName(declared, m.name)
      {
        var i :| 0 <= i < |declared| && declared[i] == m;
      }
    }

    lemma MoreHeld(a: set<Property>, b: set<Property>)
      requires a <= b
      ensures Within(NamesOf(HeldBy(a)), NamesOf(HeldBy(b)))
    {
      forall m | m in HeldBy(a).prototypes
        ensures m in HeldBy(b).prototypes
      {
        var p :| p in a && p in f && PrototypeOf(f[p].prototype) == m;
      }
      forall e | e in HeldBy(a).enums
        ensures e in HeldBy(b).enums
      {
        var p :| p in a && p in f && EnumOf(f[p].enumerate) == e;
      }
    }

    lemma MethodsHoldUsed(t: Tables)
      ensures Within(NamesOf(HeldBy(PropsOf(methods))), NamesOf(HeldBy(UsedProps(methods, t))))
    {
      MoreHeld(PropsOf(methods), UsedProps(methods, t));
    }

    lemma TableHoldsUsed(t: Tables, n: string)
      requires n in t.prototypes
      ensures Within(HeldNames(t.prototypes[n]), NamesOf(HeldBy(UsedProps(methods, t))))
    {
      forall q | q in t.prototypes[n].Props() ensures q in UsedProps(methods, t) { UsedProperty(t, n, q); }
      MoreHeld(t.prototypes[n].Props(), UsedProps(methods, t));
    }

    ghost function Avoiding(n: string, hidden: Names): (m: Method)
      requires exists m :: m in u.methods && Avoids(m, n, hidden)
      ensures Avoids(m, n, hidden)
    {
      var m :| m in u.methods && Avoids(m, n, hidden); m
    }

    ghost function SomeEnum(n: string): (e: EnumType)
      requires n in NamesOf(Met()).enums
      ensures e in Met().enums && e.name == n
    {
      var e :| e in Met().enums && e.name == n; e
    }

    /** The table of definitions that avoid the hidden names. */
    ghost function WithoutHidden(hidden: Names): Tables
      requires Hides(hidden)
    {
      Tables(map n | n in NamesOf(Met()).prototypes - hidden.prototypes :: Avoiding(n, hidden),
             map n | n in NamesOf(Met()).enums - hidden.enums :: SomeEnum(n))
    }

    lemma WithoutHiddenIsPossible(hidden: Names)
      requires Valid() && Compatible(u, Met()) && Hides(hidden)
      ensures Possible(WithoutHidden(hidden)) && !RepresentsAll(u, Met(), WithoutHidden(hidden))
    {
      hide Met, IsFirst, IsDeclaredName, Compatible, HeldBy, Universe.Meaning, Universe.Describes, Hides, TakenFrom,
           WithoutHidden, UsedProps, Within, RepresentsAll, NamesOf;
      var t := WithoutHidden(hidden);
      WithoutHiddenIsTaken(hidden);
      WithoutHiddenKeepsFirst(hidden);
      UsedAvoid(hidden, t);
      WithoutHiddenMisses(hidden);
    }

    lemma WithoutHiddenIsTaken(hidden: Names)
      requires Valid() && Hides(hidden)
      ensures TakenFrom(WithoutHidden(hidden), Met())
      ensures forall e :: e in enums ==> e.name in WithoutHidden(hidden).enums
    {
      hide Met, IsNoRepetition, HeldNames, HeldBy;
      MetCovers();
    }

    lemma WithoutHiddenKeepsFirst(hidden: Names)
      requires Valid() && Hides(hidden)
      ensures forall n :: IsDeclaredName(declared, n) ==>
                n in WithoutHidden(hidden).prototypes && IsFirst(declared, WithoutHidden(hidden).prototypes[n])
    {
      hide Met, IsFirst, IsDeclaredName, HeldNames, HeldBy;
      MetCovers();
      forall n | IsDeclaredName(declared, n)
        ensures n in WithoutHidden(hidden).prototypes && IsFirst(declared, WithoutHidden(hidden).prototypes[n])
      {
        var m := FirstOf(declared, n);
        assert m in Met().prototypes;
      }
    }

    lemma WithoutHiddenMisses(hidden: Names)
      requires Hides(hidden)
      ensures !RepresentsAll(u, Met(), WithoutHidden(hidden))
    {
      hide Met, HeldNames, HeldBy, IsNoRepetition, Universe.Meaning;
      var t := WithoutHidden(hidden);
      if hidden.prototypes != {} {
        var n :| n in hidden.prototypes;
        var m :| m in Met().prototypes && m.name == n;
        assert !Defined(u, m, t);
      } else {
        var n :| n in hidden.enums;
        var e :| e in Met().enums && e.name == n;
        assert !EnumDefined(e, t);
      }
    }

    /** What is used holds none of the hidden names, so the table has all that it holds. */
    lemma UsedAvoid(hidden: Names, t: Tables)
      requires Valid() && Hides(hidden) && t == WithoutHidden(hidden)
      ensures Within(NamesOf(HeldBy(UsedProps(methods, t))), Names(t.prototypes.Keys, t.enums.Keys))
    {
      hide Met, IsNoRepetition, HeldNames;
      forall p | p in UsedProps(methods, t) && p in f
        ensures HoldsFrom(f[p], Met()) && AvoidsHidden(f[p], hidden)
      {
        UsedOneAvoids(hidden, t, p);
      }
      forall m | m in HeldBy(UsedProps(methods, t)).prototypes
        ensures m.name in t.prototypes
      {
        var p :| p in UsedProps(methods, t) && p in f && PrototypeOf(f[p].prototype) == m;
        assert HoldsFrom(f[p], Met()) && AvoidsHidden(f[p], hidden) && m.name in NamesOf(Met()).prototypes;
      }
      forall e | e in HeldBy(UsedProps(methods, t)).enums
        ensures e.name in t.enums
      {
        var p :| p in UsedProps(methods, t) && p in f && EnumOf(f[p].enumerate) == e;
        assert HoldsFrom(f[p], Met()) && AvoidsHidden(f[p], hidden) && e.name in NamesOf(Met()).enums;
      }
    }

    ghost predicate AvoidsHidden(fields: Fields, hidden: Names) {
      && (PrototypeOf(fields.prototype) != null ==> PrototypeOf(fields.prototype).name !in hidden.prototypes)
      && (EnumOf(fields.enumerate) != null ==> EnumOf(fields.enumerate).name !in hidden.enums)
    }

    lemma UsedOneAvoids(hidden: Names, t: Tables, p: Property)
      requires Valid() && Hides(hidden) && t == WithoutHidden(hidden) && p in UsedProps(methods, t) && p in f
      ensures HoldsFrom(f[p], Met()) && AvoidsHidden(f[p], hidden)
    {
      hide Met, IsNoRepetition, HeldNames;
      MetCovers();
      if p in PropsOf(methods) {
        HeldByMethods(p);
      } else {
        var n :| n in t.prototypes && p in t.prototypes[n].Props();
        HeldNamesOf(t.prototypes[n], p);
      }
    }

    lemma HeldByMethods(p: Property)
      requires Valid() && p in PropsOf(methods) && p in f
      ensures HoldsFrom(f[p], HeldBy(PropsOf(methods)))
    {
      FieldInUniverse(p);
      var m, e := PrototypeOf(f[p].prototype), EnumOf(f[p].enumerate);
      assert m != null ==> IsHeld(f, PropsOf(methods), m);
      assert e != null ==> IsEnumHeld(f, PropsOf(methods), e);
    }

    /** Whichever definitions are kept the table has all that can be met, exactly if no set of names is hidden. */
    lemma AllIffNothingHidden()
      requires Valid() && Compatible(u, Met())
      ensures (forall t :: Possible(t) ==> RepresentsAll(u, Met(), t)) <==> forall hidden :: !Hides(hidden)
      ensures (forall hidden :: !Hides(hidden)) ==> HasAll()
    {
      hide Possible, RepresentsAll, Hides, Met, Compatible, Table;
      AllIffLinked();
      TableIsPossible();
      if !RepresentsAll(u, Met(), Table().value) {
        MissingIsHidden(Table().value);
      }
      forall t | Possible(t) && !RepresentsAll(u, Met(), t)
        ensures Hides(Missing(t))
      {
        MissingIsHidden(t);
      }
      forall hidden | Hides(hidden)
        ensures Possible(WithoutHidden(hidden)) && !RepresentsAll(u, Met(), WithoutHidden(hidden))
      {
        WithoutHiddenIsPossible(hidden);
      }
    }

    // --- definitions that clash -------------------------------------------------------------------------

    /** For each of the definitions the others have one of the same name and meaning. */
    ghost predicate Agree(a: Definitions, b: Definitions) {
      && (forall m :: m in a.prototypes ==>
            exists k :: k in b.prototypes && k.name == m.name && u.Meaning(k) == u.Meaning(m))
      && (forall e :: e in a.enums ==> exists k :: k in b.enums && k.name == e.name && k.values == e.values)
    }

    /** Definitions of one name that is not declared agree on the definitions that they hold. */
    ghost predicate HoldAlike() {
      forall a, b :: a in Walked().prototypes && b in Walked().prototypes && a.name == b.name ==>
        IsDeclaredName(declared, a.name) || Agree(HeldBy(a.Props()), HeldBy(b.Props()))
    }

    /**
     * Nameless definitions and definitions that clash are errors, where they can be met without passing through
     * repetitions. If undeclared definitions hold alike, nothing else is an error of gathering.
     */
    lemma GatheredIffCompatible()
      requires Valid()
      ensures Compatible(u, Walked()) ==> Table().Ok?
      ensures HoldAlike() ==> (Table().Ok? <==> Compatible(u, Walked()))
    {
      hide Gathered, Universe.Meaning, Met, Walked, Universe.Describes, CoversKept, HoldAlike, Compatible;
      MetCovers();
      if Compatible(u, Walked()) {
        CompatibleGathers(u, f, methods, declared, enums, Walked());
      }
      if HoldAlike() && Table().Ok? {
        WalkedAreDefined();
        DefinedAreCompatible(Walked(), Table().value);
      }
    }

    lemma DefinedAreCompatible(d: Definitions, t: Tables)
      requires RepresentsAll(u, d, t)
      ensures Compatible(u, d)
    {
      hide Universe.Meaning;
    }

    lemma WalkedAreDefined()
      requires Valid() && Table().Ok? && HoldAlike()
      ensures RepresentsAll(u, Walked(), Table().value)
    {
      hide Gathered, Universe.Meaning, Met, Walked, Universe.Describes, UsedProps, IsNoRepetition, HoldsFrom,
           Represented, HeldBy;
      TableFacts();
      MetCovers();
      GatheredKeepsFirst(u, f, methods, declared, enums);
      var t := Table().value;
      var d := DefinedOnes(Walked(), t);
      forall h, p | h in d.prototypes && IsNoRepetition(declared, h) && p in h.Props() && p in f
        ensures HoldsFrom(f[p], d)
      {
        WalkedHoldsDefined(t, h, p);
      }
      forall h, p | h in methods && p in h.Props() && p in f
        ensures HoldsFrom(f[p], d)
      {
        assert p in PropsOf(methods);
        UsedByMethod(t, p);
        assert HoldsFrom(f[p], Walked()) && Represented(u, f[p], t);
        RepresentedIsDefined(f[p], Walked(), t);
      }
      ClosedNamedOnes(d);
    }

    lemma WalkedHoldsDefined(t: Tables, h: Method, p: Property)
      requires Valid() && Table() == Ok(t) && HoldAlike()
      requires h in Walked().prototypes && h.name in t.prototypes && IsNoRepetition(declared, h) && p in h.Props()
               && p in f
      ensures HoldsFrom(f[p], DefinedOnes(Walked(), t))
    {
      hide Gathered, Universe.Meaning, Met, Walked, Universe.Describes, UsedProps, IsFirst, IsDeclaredName, Agree,
           HeldBy;
      TableFacts();
      MetCovers();
      GatheredKeepsFirst(u, f, methods, declared, enums);
      var c := t.prototypes[h.name];
      if IsDeclaredName(declared, h.name) {
        FirstIsUnique(declared, h, c);
        AgreesWithItself(HeldBy(h.Props()));
      }
      assert Agree(HeldBy(h.Props()), HeldBy(c.Props())) && HoldsFrom(f[p], Walked());
      HeldInTable(t, h.name, p, h);
    }

    lemma AgreesWithItself(d: Definitions)
      ensures Agree(d, d)
    {
      hide Universe.Meaning;
    }

    lemma HeldInTable(t: Tables, n: string, p: Property, h: Method)
      requires Valid() && n in t.prototypes && AllRepresented(u, f, UsedProps(methods, t), t)
      requires p in h.Props() && p in f && Agree(HeldBy(h.Props()), HeldBy(t.prototypes[n].Props()))
      requires HoldsFrom(f[p], Walked())
      ensures HoldsFrom(f[p], DefinedOnes(Walked(), t))
    {
      hide Universe.Meaning, Walked, UsedProps;
      FieldInUniverse(p);
      var m, e := PrototypeOf(f[p].prototype), EnumOf(f[p].enumerate);
      if m != null {
        assert IsHeld(f, h.Props(), m) && m in HeldBy(h.Props()).prototypes;
        var k :| k in HeldBy(t.prototypes[n].Props()).prototypes && k.name == m.name && u.Meaning(k) == u.Meaning(m);
        HeldByTable(t, n, k);
      }
      if e != null {
        assert IsEnumHeld(f, h.Props(), e) && e in HeldBy(h.Props()).enums;
        var k :| k in HeldBy(t.prototypes[n].Props()).enums && k.name == e.name && k.values == e.values;
        EnumHeldByTable(t, n, k);
      }
    }

    lemma HeldByTable(t: Tables, n: string, m: Method)
      requires n in t.prototypes && AllRepresented(u, f, UsedProps(methods, t), t)
      requires m in HeldBy(t.prototypes[n].Props()).prototypes
      ensures Defined(u, m, t)
    {
      hide Universe.Meaning, UsedProps;
      var q :| q in t.prototypes[n].Props() && q in f && PrototypeOf(f[q].prototype) == m;
      UsedProperty(t, n, q);
      assert Represented(u, f[q], t);
    }

    lemma EnumHeldByTable(t: Tables, n: string, e: EnumType)
      requires n in t.prototypes && AllRepresented(u, f, UsedProps(methods, t), t)
      requires e in HeldBy(t.prototypes[n].Props()).enums
      ensures EnumDefined(e, t)
    {
      hide Universe.Meaning, UsedProps;
      var q :| q in t.prototypes[n].Props() && q in f && EnumOf(f[q].enumerate) == e;
      UsedProperty(t, n, q);
      assert Represented(u, f[q], t);
    }
  }
}
