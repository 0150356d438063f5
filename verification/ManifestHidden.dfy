/**
 * Three manifests in particular. What a repeated definition holds is not walked, so a definition may be missed, a
 * clash may be missed, and the order in which methods are listed may decide whether a manifest is accepted.
 */
module HiddenDefinitions {
  import opened Wrappers
  import opened Digraph
  import opened ManifestModel
  import opened DefinitionWalks
  import opened WrittenManifests
  import opened ManifestResolution

  ghost function Nothing(): Fields {
    Fields(Inline(null), Inline(null))
  }

  ghost function Holding(m: Method): Fields {
    Fields(Inline(m), Inline(null))
  }

  ghost function Naming(n: string): Fields {
    Fields(Reference(n), Inline(null))
  }

  ghost predicate HasProps(m: Method, param: Property, ret: Property) {
    m.paramTypes == [param] && m.retType == ret
  }

  /** Two prototypes with one parameter each, of the same kind and for the same name, mean the same. */
  lemma MeanTheSame(u: Universe, f: Snapshot, a: Method, p: Property, b: Method, q: Property)
    requires u.Valid() && u.Describes(f) && {p, q} <= u.props && HasProps(a, p, a.retType) && HasProps(b, q, a.retType)
    requires a.funcName == b.funcName && a.callConv == b.callConv && a.varIndex == b.varIndex && p.kind == q.kind
             && p.ref == q.ref
    requires PrototypeName(f[p].prototype) == PrototypeName(f[q].prototype)
             && EnumName(f[p].enumerate) == EnumName(f[q].enumerate)
    ensures u.Meaning(a) == u.Meaning(b)
  {
    assert u.DescribesField(p, f[p]) && u.DescribesField(q, f[q]);
    assert u.MeaningOfProperty(p) == u.MeaningOfProperty(q);
    assert [p][..0] == [] && [q][..0] == [];
  }

  /** The universe of some objects, with the names that their fields denote now. */
  ghost function UniverseOf(props: set<Property>, methods: set<Method>): (u: Universe)
    reads props
    ensures u.props == props && u.methods == methods && u.enums == {}
  {
    Universe(props, methods, {}, map p | p in props :: PrototypeName(p.prototype),
             map p | p in props :: EnumName(p.enumerate))
  }

  lemma UniverseIsValid(props: set<Property>, methods: set<Method>)
    requires forall m :: m in methods ==> m.Props() <= props
    requires forall p :: p in props ==> EnumOf(p.enumerate) == null
    requires forall p :: p in props && PrototypeOf(p.prototype) != null ==> PrototypeOf(p.prototype) in methods
    ensures UniverseOf(props, methods).Valid() && UniverseOf(props, methods).Describes(SnapshotOf(props))
  {
  }

  lemma HeldByFields(w: Written, ps: set<Property>, ms: set<Method>)
    requires ps <= w.f.Keys && ms <= w.u.methods && forall p :: p in ps ==> EnumOf(w.f[p].enumerate) == null
    requires forall p :: p in ps && PrototypeOf(w.f[p].prototype) != null ==> PrototypeOf(w.f[p].prototype) in ms
    requires forall m :: m in ms ==> exists p :: p in ps && PrototypeOf(w.f[p].prototype) == m
    ensures w.HeldBy(ps) == Definitions(ms, {})
  {
    forall m | m in ms
      ensures IsHeld(w.f, ps, m)
    {
      var p :| p in ps && PrototypeOf(w.f[p].prototype) == m;
    }
    assert w.HeldBy(ps).prototypes == ms && w.HeldBy(ps).enums == {};
  }

  lemma OneDeclared(first: Method, copy: Method)
    requires first.name == copy.name && first != copy
    ensures IsFirst([first], first) && IsDeclaredName([first], first.name) && !IsNoRepetition([first], copy)
    ensures forall n :: IsDeclaredName([first], n) ==> n == first.name
  {
    assert [first][0] == first;
  }

  /** A graph in which the only edges lead from one node to another one. */
  lemma NoWayBack(g: Graph, a: string, b: string)
    requires a != b && forall n :: n in g ==> g[n] <= if n == a then {b} else {}
    ensures !Cyclic(g) && forall w :: !IsCycle(g, w)
  {
    forall w
      ensures !IsCycle(g, w)
    {
      if |w| >= 2 && w[0] in g && w[1] in g && w[1] in g[w[0]] {
        assert |w| >= 3 ==> w[2] !in g[w[1]];
      }
    }
  }

  // --- a definition that is missed ------------------------------------------------------------------

  /** The objects of a manifest that has a definition of B which is missed. */
  datatype Parts = Parts(holder: Method, use: Property, copy: Method, held: Property, inner: Method, first: Method,
                         named: Property, none: Property)

  /**
   * A declared prototype refers to B by name; a method holds a repetition of it that holds the only definition
   * of B.
   */
  ghost predicate IsHidden(w: Written, x: Parts) {
    && w.methods == [x.holder] && w.declared == [x.first] && w.enums == []
    && w.u.props == {x.none, x.use, x.held, x.named} && w.u.methods == {x.holder, x.copy, x.inner, x.first}
       && w.u.enums == {}
    && w.Valid()
    && w.f[x.none] == Nothing() && w.f[x.use] == Holding(x.copy) && w.f[x.held] == Holding(x.inner)
       && w.f[x.named] == Naming("B")
    && x.first != x.copy && x.first.name == "A" && x.copy.name == "A" && x.inner.name == "B"
    && HasProps(x.holder, x.use, x.none) && HasProps(x.first, x.named, x.none) && HasProps(x.copy, x.held, x.none)
    && x.inner.paramTypes == [] && x.inner.retType == x.none && w.u.Meaning(x.first) == w.u.Meaning(x.copy)
  }

  lemma HiddenProps(w: Written, x: Parts)
    requires IsHidden(w, x)
    ensures x.holder.Props() == {x.use, x.none} && x.first.Props() == {x.named, x.none}
    ensures x.copy.Props() == {x.held, x.none} && x.inner.Props() == {x.none}
    ensures w.f.Keys == {x.none, x.use, x.held, x.named} && PropsOf(w.methods) == {x.use, x.none}
    ensures w.f[x.none] == Nothing() && w.f[x.use] == Holding(x.copy) && w.f[x.held] == Holding(x.inner)
            && w.f[x.named] == Naming("B")
  {
    hide Universe.Meaning;
    assert w.methods == [x.holder];
  }

  ghost function HiddenAll(x: Parts): Definitions {
    Definitions({x.first, x.copy, x.inner}, {})
  }

  lemma HiddenIsCovered(w: Written, x: Parts)
    requires IsHidden(w, x)
    ensures w.Met().prototypes <= HiddenAll(x).prototypes && w.Met().enums == {}
    ensures w.Walked().prototypes <= {x.first, x.copy} && w.Walked().enums == {}
  {
    hide Universe.Meaning, Universe.Describes, Universe.Valid, Written.Met, Written.Walked;
    HiddenProps(w, x);
    OneDeclared(x.first, x.copy);
    w.MetIsLeast(HiddenAll(x));
    w.ClosedNamedOnes(Definitions({x.first, x.copy}, {}));
  }

  lemma HiddenIsReached(w: Written, x: Parts)
    requires IsHidden(w, x)
    ensures HiddenAll(x).prototypes <= w.Met().prototypes
  {
    hide Universe.Meaning, Universe.Describes, Universe.Valid, Written.Met, Written.Walked;
    HiddenProps(w, x);
    w.MetCovers();
    assert x.holder in w.methods && HoldsFrom(w.f[x.use], w.Met());
    assert x.copy in w.Met().prototypes && HoldsFrom(w.f[x.held], w.Met());
    assert w.declared[0] == x.first;
  }

  lemma HiddenMet(w: Written, x: Parts)
    requires IsHidden(w, x)
    ensures w.Met() == HiddenAll(x) && NamesOf(w.Met()) == Names({"A", "B"}, {})
    ensures w.Walked().prototypes <= {x.first, x.copy} && w.Walked().enums == {}
  {
    HiddenIsCovered(w, x);
    HiddenIsReached(w, x);
    NamesOfAll(x);
    hide IsHidden, Written.Met, Written.Walked, NamesOf;
    assert w.Met().prototypes == HiddenAll(x).prototypes;
  }

  lemma NamesOfAll(x: Parts)
    requires x.first.name == "A" && x.copy.name == "A" && x.inner.name == "B"
    ensures NamesOf(HiddenAll(x)) == Names({"A", "B"}, {})
  {
    var d := HiddenAll(x);
    assert x.first in d.prototypes && x.inner in d.prototypes;
    assert NamesOf(d).prototypes == {"A", "B"} && NamesOf(d).enums == {};
  }

  /** Nothing clashes, every name is that of a definition, and B can be met, but only through the repetition. */
  lemma HiddenIsMet(w: Written, x: Parts)
    requires IsHidden(w, x)
    ensures Compatible(w.u, w.Met()) && w.NamesMet() && w.NoBlankNames() && w.Uniform()
  {
    hide IsHidden, Written.Met, Written.Walked, Written.Valid, Universe.Meaning, Universe.Describes, Universe.Valid,
         HiddenAll, Compatible, Written.Uniform, NamesOf, Written.MetProps;
    HiddenMet(w, x);
    HiddenFields(w, x);
    AllCompatible(w, x);
    PropsOfAll(w, x);
    OnlyInnerUndeclared(w, x);
  }

  /** What the fields of that manifest hold. */
  lemma HiddenFields(w: Written, x: Parts)
    requires IsHidden(w, x)
    ensures forall p :: p in w.f ==> w.f[p].enumerate == Inline(null) && w.f[p].prototype != Reference("")
    ensures forall p :: p in w.f && w.f[p].prototype.Reference? ==> w.f[p].prototype.name == "B"
  {
    hide IsHidden;
    HiddenProps(w, x);
  }

  lemma AllCompatible(w: Written, x: Parts)
    requires IsHidden(w, x)
    ensures Compatible(w.u, HiddenAll(x))
  {
    hide Universe.Meaning, Universe.Describes, Universe.Valid;
  }

  lemma OnlyInnerUndeclared(w: Written, x: Parts)
    requires IsHidden(w, x) && w.Met() == HiddenAll(x)
    ensures w.Uniform()
  {
    hide Universe.Meaning, Universe.Describes, Universe.Valid, Written.Valid, Written.Met, Written.HeldNames,
         IsDeclaredName;
    OneDeclared(x.first, x.copy);
    assert IsDeclaredName(w.declared, "A");
  }

  lemma PropsOfAll(w: Written, x: Parts)
    requires IsHidden(w, x) && w.Met() == HiddenAll(x)
    ensures w.MetProps() <= w.f.Keys
  {
    HiddenProps(w, x);
    hide Written.Met, Universe.Meaning, Universe.Describes, Universe.Valid;
  }

  lemma HiddenIsHidden(w: Written, x: Parts)
    requires IsHidden(w, x)
    ensures w.Hides(Names({"B"}, {}))
  {
    hide IsHidden, Written.Met, Written.Walked, Written.Valid, Universe.Meaning, Universe.Describes, Universe.Valid,
         Written.HeldBy, Written.HeldNames, NamesOf, IsNoRepetition;
    HiddenMet(w, x);
    HiddenHolds(w, x);
    assert w.Avoids(x.first, "A", Names({"B"}, {}));
  }

  lemma HiddenHolds(w: Written, x: Parts)
    requires IsHidden(w, x)
    ensures NamesOf(w.HeldBy(PropsOf(w.methods))) == Names({"A"}, {})
    ensures w.HeldNames(x.first) == Names({}, {}) && IsNoRepetition(w.declared, x.first)
    ensures x.first in w.u.methods && x.first.name == "A" && w.declared == [x.first] && w.enums == []
  {
    hide Universe.Meaning, Universe.Describes, Universe.Valid, Written.Valid, Written.HeldBy, NamesOf, HasProps;
    HiddenProps(w, x);
    OneDeclared(x.first, x.copy);
    HeldByFields(w, {x.use, x.none}, {x.copy});
    HeldByFields(w, {x.named, x.none}, {});
    NamesOfFew(x.copy);
  }

  lemma NamesOfFew(m: Method)
    ensures NamesOf(Definitions({m}, {})) == Names({m.name}, {}) && NamesOf(Definitions({}, {})) == Names({}, {})
  {
    assert m in {m} && NamesOf(Definitions({m}, {})).prototypes == {m.name};
  }

  /** So the manifest is none of those that have everything, and is not accepted. */
  lemma HiddenIsMissed(w: Written, x: Parts)
    requires IsHidden(w, x)
    ensures Compatible(w.u, w.Met()) && w.NamesMet() && w.NoBlankNames() && w.Uniform()
    ensures w.Table().Ok? && !w.HasAll() && !w.SameForms() && !w.Openly() && !w.Accepted()
    ensures forall e :: Explains(w.u, w.f, w.methods, w.Table().value, e) ==> e == Unknown(PrototypeKind, "B")
  {
    hide Written.Met, Written.Walked, Written.SameForms, Written.Openly, Written.Uniform, Compatible, Written.Table,
         Written.HasAll, Written.NamesMet, Written.NoBlankNames, Explains, Written.Accepted, Within, Universe.Meaning;
    HiddenMet(w, x);
    HiddenIsMet(w, x);
    w.AllIffWalked();
    w.AcceptedAsWritten();
    NotWalked(w, x);
    if w.SameForms() {
      w.SameFormsHaveAll();
    }
    if w.Openly() {
      w.OpenlyHaveAll();
    }
    HiddenExplains(w, x);
  }

  lemma NotWalked(w: Written, x: Parts)
    requires IsHidden(w, x) && w.Walked().prototypes <= {x.first, x.copy} && w.Met() == HiddenAll(x)
    ensures !Within(NamesOf(w.Met()), NamesOf(w.Walked()))
  {
    hide Written.Met, Written.Walked, Universe.Meaning, Universe.Describes;
    assert x.inner in w.Met().prototypes && "B" in NamesOf(w.Met()).prototypes
           && "B" !in NamesOf(w.Walked()).prototypes;
  }

  lemma HiddenExplains(w: Written, x: Parts)
    requires IsHidden(w, x) && w.Valid() && w.Table().Ok? && w.Walked().prototypes <= {x.first, x.copy}
    ensures forall e :: Explains(w.u, w.f, w.methods, w.Table().value, e) ==> e == Unknown(PrototypeKind, "B")
  {
    hide IsHidden, Written.Met, Written.Walked, Written.Valid, Universe.Meaning, Universe.Describes, Universe.Valid,
         Gathered, IsCycle, UsedProps, NameGraph, TakenFrom, AllRepresented;
    w.TableFacts();
    var t := w.Table().value;
    HiddenGraph(w, x, t);
    HiddenFields(w, x);
  }

  lemma HiddenGraph(w: Written, x: Parts, t: Tables)
    requires IsHidden(w, x) && TakenFrom(t, w.Walked()) && w.Walked().prototypes <= {x.first, x.copy}
    ensures forall c :: !IsCycle(NameGraph(w.u, t.prototypes), c)
  {
    hide IsHidden, Written.Met, Written.Walked, Written.Valid, Universe.Meaning, Universe.Describes, Universe.Valid,
         IsCycle, NamedTargets, Cyclic;
    HiddenTargets(w, x);
    forall n | n in t.prototypes
      ensures n == "A" && NamedTargets(w.u, t.prototypes[n]) <= {"B"}
    {
      assert t.prototypes[n] == x.first || t.prototypes[n] == x.copy;
    }
    NoWayBack(NameGraph(w.u, t.prototypes), "A", "B");
  }

  lemma HiddenTargets(w: Written, x: Parts)
    requires IsHidden(w, x)
    ensures x.first.name == "A" && x.copy.name == "A"
    ensures NamedTargets(w.u, x.first) <= {"B"} && NamedTargets(w.u, x.copy) <= {"B"}
  {
    hide NamedTargets, Universe.Meaning;
    TargetsOfOne(w, x.first, x.named, x.none);
    TargetsOfOne(w, x.copy, x.held, x.none);
  }

  lemma TargetsOfOne(w: Written, m: Method, p: Property, none: Property)
    requires w.Valid() && HasProps(m, p, none) && {p, none} <= w.u.props && w.f[none] == Nothing()
    ensures NamedTargets(w.u, m) <= {PrototypeName(w.f[p].prototype)}
  {
    w.FieldInUniverse(p);
    w.FieldInUniverse(none);
    assert m.Props() == {p, none};
  }

  /** The reference to B cannot be linked, although B is defined. */
  method HiddenDefinition() returns (r: Outcome<Error>, ghost w: Written, ghost x: Parts)
    ensures IsHidden(w, x) && r == Fail(Unknown(PrototypeKind, "B"))
    ensures Compatible(w.u, w.Met()) && w.NamesMet() && w.NoBlankNames() && w.Uniform()
    ensures !w.HasAll() && !w.SameForms() && !w.Openly()
  {
    hide Connectable, Explains, Gathered, Manifest.Resolved, Evolved, Universe.Describes, Universe.Meaning,
         Universe.Valid, Written.Met, Written.Walked, Written.SameForms, Written.Openly, Written.Uniform,
         Written.NamesMet, Written.NoBlankNames, Compatible, Written.HasAll, Written.Accepted, Written.Table,
         UniverseOf, IsHidden;
    var none := new Property(Void, None, Inline(null), Inline(null));
    var inner := new Method("B", "b", None, None, [], none);
    var held := new Property(ValueType.Function, None, Inline(inner), Inline(null));
    var named := new Property(ValueType.Function, None, Reference("B"), Inline(null));
    var copy := new Method("A", "a", None, None, [held], none);
    var first := new Method("A", "a", None, None, [named], none);
    var use := new Property(ValueType.Function, None, Inline(copy), Inline(null));
    var holder := new Method("M", "m", None, None, [use], none);
    var manifest := new Manifest(Some([holder]), None, Some([first]), None);
    x := Parts(holder, use, copy, held, inner, first, named, none);
    ghost var props := {none, use, held, named};
    ghost var u := UniverseOf(props, {holder, copy, inner, first});
    w := Written(u, SnapshotOf(props), [holder], [first], []);
    HiddenAsBuilt(w, x);
    HiddenIsMissed(w, x);
    r := manifest.Resolve(u);
  }

  lemma HiddenAsBuilt(w: Written, x: Parts)
    requires var props := {x.none, x.use, x.held, x.named};
             w == Written(UniverseOf(props, {x.holder, x.copy, x.inner, x.first}), SnapshotOf(props),
                          [x.holder], [x.first], [])
    requires x.none.prototype == Inline(null) && x.use.prototype == Inline(x.copy)
             && x.held.prototype == Inline(x.inner)
    requires x.named.prototype == Reference("B") && x.held.kind == x.named.kind && x.held.ref == x.named.ref
    requires forall p :: p in {x.none, x.use, x.held, x.named} ==> p.enumerate == Inline(null)
    requires x.first != x.copy && x.first.name == "A" && x.copy.name == "A" && x.inner.name == "B"
    requires HasProps(x.holder, x.use, x.none) && HasProps(x.first, x.named, x.none) && HasProps(x.copy, x.held, x.none)
    requires x.inner.paramTypes == [] && x.inner.retType == x.none
    requires x.first.funcName == x.copy.funcName && x.first.callConv == x.copy.callConv
             && x.first.varIndex == x.copy.varIndex
    ensures IsHidden(w, x) && w.Valid()
  {
    hide Universe.Meaning;
    UniverseIsValid({x.none, x.use, x.held, x.named}, {x.holder, x.copy, x.inner, x.first});
    hide UniverseOf, Universe.Valid, Universe.Describes;
    MeanTheSame(w.u, w.f, x.first, x.named, x.copy, x.held);
  }

  // --- a clash that is missed -------------------------------------------------------------------------

  /** A declared prototype holds a definition of B, and a method holds a repetition of it that holds another one. */
  ghost predicate IsClash(w: Written, x: Parts, b: Method) {
    && w.methods == [x.holder] && w.declared == [x.first] && w.enums == []
    && w.u.props == {x.none, x.use, x.held, x.named} && w.u.methods == {x.holder, x.copy, x.inner, x.first, b}
       && w.u.enums == {}
    && w.Valid()
    && w.f[x.none] == Nothing() && w.f[x.use] == Holding(x.copy) && w.f[x.held] == Holding(x.inner)
       && w.f[x.named] == Holding(b)
    && x.first != x.copy && x.first.name == "A" && x.copy.name == "A" && x.inner.name == "B" && b.name == "B"
    && HasProps(x.holder, x.use, x.none) && HasProps(x.first, x.named, x.none) && HasProps(x.copy, x.held, x.none)
    && x.inner.paramTypes == [] && x.inner.retType == x.none && b.paramTypes == [] && b.retType == x.none
    && w.u.Meaning(x.first) == w.u.Meaning(x.copy) && w.u.Meaning(x.inner) != w.u.Meaning(b)
  }

  lemma ClashProps(w: Written, x: Parts, b: Method)
    requires IsClash(w, x, b)
    ensures x.holder.Props() == {x.use, x.none} && x.first.Props() == {x.named, x.none}
    ensures x.copy.Props() == {x.held, x.none} && x.inner.Props() == {x.none} && b.Props() == {x.none}
    ensures w.f.Keys == {x.none, x.use, x.held, x.named} && PropsOf(w.methods) == {x.use, x.none}
    ensures w.f[x.none] == Nothing() && w.f[x.use] == Holding(x.copy) && w.f[x.held] == Holding(x.inner)
            && w.f[x.named] == Holding(b)
  {
    hide Universe.Meaning;
    assert w.methods == [x.holder];
  }

  lemma ClashIsWalked(w: Written, x: Parts, b: Method)
    requires IsClash(w, x, b)
    ensures w.Walked().prototypes <= {x.first, x.copy, b} && w.Walked().enums == {}
  {
    hide Universe.Meaning, Universe.Describes, Universe.Valid, Written.Walked;
    ClashProps(w, x, b);
    OneDeclared(x.first, x.copy);
    w.ClosedNamedOnes(Definitions({x.first, x.copy, b}, {}));
  }

  lemma ClashIsMet(w: Written, x: Parts, b: Method)
    requires IsClash(w, x, b)
    ensures !Compatible(w.u, w.Met())
  {
    hide Universe.Meaning, Universe.Describes, Universe.Valid, Written.Met, Written.Walked;
    ClashProps(w, x, b);
    w.MetCovers();
    assert x.holder in w.methods && HoldsFrom(w.f[x.use], w.Met());
    assert x.copy in w.Met().prototypes && HoldsFrom(w.f[x.held], w.Met());
    assert w.declared[0] == x.first && HoldsFrom(w.f[x.named], w.Met());
    assert x.inner in w.Met().prototypes && b in w.Met().prototypes;
  }

  /** What is walked does not clash, so the definitions are gathered. */
  lemma ClashIsMissed(w: Written, x: Parts, b: Method)
    requires IsClash(w, x, b)
    ensures Compatible(w.u, w.Walked()) && w.HoldAlike()
  {
    hide Universe.Meaning, Universe.Describes, Universe.Valid, Written.Valid, Written.Walked, Written.HeldBy, HasProps,
         IsDeclaredName;
    ClashIsWalked(w, x, b);
    OneDeclared(x.first, x.copy);
    assert IsDeclaredName(w.declared, "A");
  }

  lemma ClashIsAccepted(w: Written, x: Parts, b: Method)
    requires IsClash(w, x, b)
    ensures w.Valid() && w.Accepted()
  {
    hide Written.Met, Written.Walked, Universe.Meaning, Universe.Describes, Universe.Valid, Gathered, UsedProps,
         NameGraph, Cyclic, Compatible, Written.HoldAlike, AllRepresented, HasProps;
    ClashIsMissed(w, x, b);
    w.GatheredIffCompatible();
    w.TableFacts();
    ClashGraph(w, x, b, w.Table().value);
    ClashProps(w, x, b);
  }

  lemma ClashGraph(w: Written, x: Parts, b: Method, t: Tables)
    requires IsClash(w, x, b) && TakenFrom(t, w.Walked())
    ensures !Cyclic(NameGraph(w.u, t.prototypes))
  {
    hide Written.Met, Written.Walked, Written.Valid, Universe.Meaning, Universe.Describes, Universe.Valid, IsCycle,
         NamedTargets, Cyclic;
    ClashIsWalked(w, x, b);
    ClashTargets(w, x, b);
    forall n | n in t.prototypes
      ensures NamedTargets(w.u, t.prototypes[n]) <= if n == "A" then {"B"} else {}
    {
      assert t.prototypes[n] == x.first || t.prototypes[n] == x.copy || t.prototypes[n] == b;
    }
    NoWayBack(NameGraph(w.u, t.prototypes), "A", "B");
  }

  lemma ClashTargets(w: Written, x: Parts, b: Method)
    requires IsClash(w, x, b)
    ensures NamedTargets(w.u, x.first) <= {"B"} && NamedTargets(w.u, x.copy) <= {"B"} && NamedTargets(w.u, b) == {}
  {
    hide NamedTargets, Universe.Meaning;
    TargetsOfOne(w, x.first, x.named, x.none);
    TargetsOfOne(w, x.copy, x.held, x.none);
    NoTargets(w, b, x.none);
  }

  lemma NoTargets(w: Written, m: Method, none: Property)
    requires w.Valid() && m.paramTypes == [] && m.retType == none && none in w.u.props && w.f[none] == Nothing()
    ensures NamedTargets(w.u, m) == {}
  {
    w.FieldInUniverse(none);
    assert m.Props() == {none};
  }

  /** Two definitions of one name that do not mean the same, and no error. */
  method HiddenClash() returns (r: Outcome<Error>, ghost w: Written, ghost x: Parts, ghost b: Method)
    ensures IsClash(w, x, b) && r.Pass?
    ensures !Compatible(w.u, w.Met()) && Compatible(w.u, w.Walked()) && w.HoldAlike()
  {
    hide Connectable, Explains, Gathered, Manifest.Resolved, Evolved, Universe.Describes, Universe.Meaning,
         Universe.Valid, Written.Met, Written.Walked, Written.HoldAlike, Compatible, Written.Accepted, Written.Table,
         UniverseOf, IsClash;
    var none := new Property(Void, None, Inline(null), Inline(null));
    var own := new Method("B", "b", None, None, [], none);
    var inner := new Method("B", "c", None, None, [], none);
    var held := new Property(ValueType.Function, None, Inline(inner), Inline(null));
    var owning := new Property(ValueType.Function, None, Inline(own), Inline(null));
    var copy := new Method("A", "a", None, None, [held], none);
    var first := new Method("A", "a", None, None, [owning], none);
    var use := new Property(ValueType.Function, None, Inline(copy), Inline(null));
    var holder := new Method("M", "m", None, None, [use], none);
    var manifest := new Manifest(Some([holder]), None, Some([first]), None);
    x := Parts(holder, use, copy, held, inner, first, owning, none);
    b := own;
    ghost var props := {none, use, held, owning};
    ghost var u := UniverseOf(props, {holder, copy, inner, first, own});
    w := Written(u, SnapshotOf(props), [holder], [first], []);
    ClashAsBuilt(w, x, b);
    ClashIsMet(w, x, b);
    ClashIsMissed(w, x, b);
    ClashIsAccepted(w, x, b);
    r := manifest.Resolve(u);
  }

  lemma ClashAsBuilt(w: Written, x: Parts, b: Method)
    requires var props := {x.none, x.use, x.held, x.named};
             w == Written(UniverseOf(props, {x.holder, x.copy, x.inner, x.first, b}), SnapshotOf(props),
                          [x.holder], [x.first], [])
    requires x.none.prototype == Inline(null) && x.use.prototype == Inline(x.copy)
             && x.held.prototype == Inline(x.inner)
    requires x.named.prototype == Inline(b) && x.held.kind == x.named.kind && x.held.ref == x.named.ref
    requires forall p :: p in {x.none, x.use, x.held, x.named} ==> p.enumerate == Inline(null)
    requires x.first != x.copy && x.first.name == "A" && x.copy.name == "A" && x.inner.name == "B" && b.name == "B"
    requires HasProps(x.holder, x.use, x.none) && HasProps(x.first, x.named, x.none) && HasProps(x.copy, x.held, x.none)
    requires x.inner.paramTypes == [] && x.inner.retType == x.none && b.paramTypes == [] && b.retType == x.none
    requires x.first.funcName == x.copy.funcName && x.first.callConv == x.copy.callConv
             && x.first.varIndex == x.copy.varIndex
    requires b.funcName != x.inner.funcName
    ensures IsClash(w, x, b) && w.Valid()
  {
    UniverseIsValid({x.none, x.use, x.held, x.named}, {x.holder, x.copy, x.inner, x.first, b});
    assert w.u.Meaning(x.inner).funcName != w.u.Meaning(b).funcName;
    hide UniverseOf, Universe.Valid, Universe.Describes, Universe.Meaning;
    MeanTheSame(w.u, w.f, x.first, x.named, x.copy, x.held);
  }

  // --- an order that decides --------------------------------------------------------------------------

  /** The objects of a manifest with two methods that hold the same prototype, once with B by name and once in full. */
  datatype Turns = Turns(one: Method, useOne: Property, byName: Method, named: Property, two: Method, useTwo: Property,
                         inFull: Method, held: Property, inner: Method, none: Property)

  ghost predicate InTurn(w: Written, x: Turns, swapped: bool) {
    && w.methods == (if swapped then [x.two, x.one] else [x.one, x.two]) && w.declared == [] && w.enums == []
    && w.u.props == {x.none, x.useOne, x.useTwo, x.held, x.named}
       && w.u.methods == {x.one, x.two, x.byName, x.inFull, x.inner}
    && w.u.enums == {} && w.Valid()
    && w.f[x.none] == Nothing() && w.f[x.useOne] == Holding(x.byName) && w.f[x.useTwo] == Holding(x.inFull)
    && w.f[x.held] == Holding(x.inner) && w.f[x.named] == Naming("B")
    && x.byName.name == "A" && x.inFull.name == "A" && x.inner.name == "B"
    && HasProps(x.one, x.useOne, x.none) && HasProps(x.two, x.useTwo, x.none)
    && HasProps(x.byName, x.named, x.none) && HasProps(x.inFull, x.held, x.none)
    && x.inner.paramTypes == [] && x.inner.retType == x.none && w.u.Meaning(x.byName) == w.u.Meaning(x.inFull)
  }

  lemma TurnProps(w: Written, x: Turns, swapped: bool)
    requires InTurn(w, x, swapped)
    ensures x.one.Props() == {x.useOne, x.none} && x.two.Props() == {x.useTwo, x.none}
    ensures x.byName.Props() == {x.named, x.none} && x.inFull.Props() == {x.held, x.none} && x.inner.Props() == {x.none}
    ensures w.f.Keys == {x.none, x.useOne, x.useTwo, x.held, x.named}
    ensures w.f[x.none] == Nothing() && w.f[x.useOne] == Holding(x.byName) && w.f[x.useTwo] == Holding(x.inFull)
    ensures w.f[x.held] == Holding(x.inner) && w.f[x.named] == Naming("B")
  {
    hide Universe.Meaning;
  }

  ghost function TurnAll(x: Turns): Definitions {
    Definitions({x.byName, x.inFull, x.inner}, {})
  }

  lemma TurnIsCovered(w: Written, x: Turns, swapped: bool)
    requires InTurn(w, x, swapped)
    ensures w.Met().prototypes <= TurnAll(x).prototypes && w.Met().enums == {}
  {
    hide Universe.Meaning, Universe.Describes, Universe.Valid, Written.Met;
    TurnProps(w, x, swapped);
    w.MetIsLeast(TurnAll(x));
  }

  lemma TurnIsCompatible(w: Written, x: Turns, swapped: bool)
    requires InTurn(w, x, swapped)
    ensures Compatible(w.u, w.Met())
  {
    hide Universe.Meaning, Universe.Describes, Universe.Valid, Written.Valid, Written.Met, HasProps;
    TurnIsCovered(w, x, swapped);
  }

  lemma TurnTargets(w: Written, x: Turns, swapped: bool)
    requires InTurn(w, x, swapped)
    ensures NamedTargets(w.u, x.byName) <= {"B"} && NamedTargets(w.u, x.inFull) <= {"B"}
            && NamedTargets(w.u, x.inner) == {}
  {
    hide NamedTargets, Universe.Meaning;
    TargetsOfOne(w, x.byName, x.named, x.none);
    TargetsOfOne(w, x.inFull, x.held, x.none);
    NoTargets(w, x.inner, x.none);
  }

  lemma TurnGraph(w: Written, x: Turns, swapped: bool, t: Tables)
    requires InTurn(w, x, swapped) && TakenFrom(t, w.Met())
    ensures !Cyclic(NameGraph(w.u, t.prototypes)) && forall c :: !IsCycle(NameGraph(w.u, t.prototypes), c)
  {
    hide Written.Met, Written.Valid, Universe.Meaning, Universe.Describes, Universe.Valid, IsCycle, NamedTargets,
         Cyclic, HasProps;
    TurnIsCovered(w, x, swapped);
    TurnTargets(w, x, swapped);
    forall n | n in t.prototypes
      ensures NamedTargets(w.u, t.prototypes[n]) <= if n == "A" then {"B"} else {}
    {
      assert t.prototypes[n] in TurnAll(x).prototypes;
    }
    NoWayBack(NameGraph(w.u, t.prototypes), "A", "B");
  }

  /** The first of the methods decides which definition of A is kept. */
  lemma FirstDecides(w: Written, m: Method, rest: Method, d: Definitions)
    requires w.Valid() && w.methods == [m, rest] && w.declared == [] && w.enums == [] && w.Table().Ok?
    requires AllHold(w.f, InOrder(m), d) && NestedBeyond(w.f, d, {})
    ensures var first := Walk(w.u, w.f, InOrder(m), Tables(map[], map[]));
            && InUniverse(w.u, InOrder(m)) && InUniverse(w.u, InOrder(rest))
            && first.Ok? && TakenFrom(first.value, d) && AllRepresented(w.u, w.f, m.Props(), first.value)
            && Extends(first.value, w.Table().value)
            && Walk(w.u, w.f, InOrder(rest), first.value) == w.Table()
  {
    hide Walk, Universe.Meaning, Universe.Describes, Universe.Valid, Extends, AllRepresented;
    GatheredInTwo(w.u, w.f, w.methods, [], []);
    assert DeclaredTables(w.u, [], []) == Ok(Tables(map[], map[]));
    assert Kept([], map[]) == [] && ListProps([]) == [];
    ListPropsOne(m);
    ListPropsOne(rest);
    ListPropsSplit([m, rest], 1);
    assert [m, rest][..1] == [m] && [m, rest][1..] == [rest];
    assert InOrder(m) + InOrder(rest) + [] == InOrder(m) + InOrder(rest);
    ListPropsInUniverse(w.u, [m]);
    ListPropsInUniverse(w.u, [rest]);
    WalkConcat(w.u, w.f, InOrder(m), InOrder(rest), Tables(map[], map[]));
    NothingTaken(d);
    WalkFrom(w.u, w.f, InOrder(m), Tables(map[], map[]), d);
    WalkRepresents(w.u, w.f, InOrder(m), Tables(map[], map[]));
    WalkRepresents(w.u, w.f, InOrder(rest), Walk(w.u, w.f, InOrder(m), Tables(map[], map[])).value);
  }

  lemma InnerIsMet(w: Written, x: Turns, swapped: bool)
    requires InTurn(w, x, swapped)
    ensures x.inner in w.Met().prototypes && "B" in NamesOf(w.Met()).prototypes
  {
    hide Universe.Meaning, Universe.Describes, Universe.Valid, Written.Met, Written.Walked;
    TurnProps(w, x, swapped);
    w.MetCovers();
    assert x.two in w.methods && HoldsFrom(w.f[x.useTwo], w.Met());
    assert x.inFull in w.Met().prototypes && HoldsFrom(w.f[x.held], w.Met());
  }

  /** What the fields of that manifest hold. */
  lemma TurnFields(w: Written, x: Turns, swapped: bool)
    requires InTurn(w, x, swapped)
    ensures forall p :: p in w.f ==> w.f[p].enumerate == Inline(null)
    ensures forall p :: p in w.f && w.f[p].prototype.Reference? ==> w.f[p].prototype.name == "B"
  {
    hide InTurn;
    TurnProps(w, x, swapped);
  }

  lemma TwoInOrder(m: Method, p: Property, none: Property)
    requires HasProps(m, p, none)
    ensures InOrder(m) == [p, none]
  {
  }

  lemma ByNameIsKept(w: Written, x: Turns)
    requires InTurn(w, x, false) && w.Valid() && w.Table().Ok?
    ensures var t := w.Table().value;
            "A" in t.prototypes && t.prototypes["A"] == x.byName && "B" !in t.prototypes
  {
    hide Walk, Gathered, Universe.Meaning, Universe.Describes, Universe.Valid, HasProps;
    TurnProps(w, x, false);
    var d := Definitions({x.byName}, {});
    TwoInOrder(x.one, x.useOne, x.none);
    TwoInOrder(x.two, x.useTwo, x.none);
    FirstDecides(w, x.one, x.two, d);
    var first := Walk(w.u, w.f, InOrder(x.one), Tables(map[], map[])).value;
    assert Represented(w.u, w.f[x.useOne], first);
    assert first.prototypes["A"] == x.byName;
    WalkFrom(w.u, w.f, InOrder(x.two), first, Definitions({x.byName, x.inFull}, {}));
  }

  lemma InFullIsKept(w: Written, x: Turns)
    requires InTurn(w, x, true) && w.Valid() && w.Table().Ok?
    ensures var t := w.Table().value;
            "A" in t.prototypes && t.prototypes["A"] == x.inFull
  {
    hide Walk, Gathered, Universe.Meaning, Universe.Describes, Universe.Valid, HasProps;
    TurnProps(w, x, true);
    var d := Definitions({x.inFull, x.inner}, {});
    TwoInOrder(x.one, x.useOne, x.none);
    TwoInOrder(x.two, x.useTwo, x.none);
    FirstDecides(w, x.two, x.one, d);
    var first := Walk(w.u, w.f, InOrder(x.two), Tables(map[], map[])).value;
    assert Represented(w.u, w.f[x.useTwo], first);
    assert first.prototypes["A"] == x.inFull;
  }

  lemma BIsTaken(w: Written, x: Turns)
    requires InTurn(w, x, true) && w.Valid() && w.Table().Ok?
    ensures "B" in w.Table().value.prototypes
  {
    hide Gathered, Universe.Meaning, Universe.Describes, Universe.Valid, Written.Met, Written.Walked, UsedProps,
         HasProps;
    TurnProps(w, x, true);
    InFullIsKept(w, x);
    w.TableFacts();
    var t := w.Table().value;
    w.UsedProperty(t, "A", x.held);
    assert Represented(w.u, w.f[x.held], t);
  }

  /** The table has the definition of B, and the manifest is accepted, exactly if the definition in full comes first. */
  lemma OrderDecides(w: Written, x: Turns, swapped: bool)
    requires InTurn(w, x, swapped)
    ensures w.Valid() && Compatible(w.u, w.Met()) && w.NamesMet() && w.Table().Ok?
    ensures w.HasAll() <==> swapped
    ensures w.Accepted() <==> swapped
    ensures forall e :: Explains(w.u, w.f, w.methods, w.Table().value, e) ==> e == Unknown(PrototypeKind, "B")
  {
    hide Gathered, Universe.Meaning, Universe.Describes, Universe.Valid, Written.Met, Written.Walked, UsedProps,
         Compatible, HasProps, NameGraph, Cyclic, IsCycle, TakenFrom, AllRepresented, NamesOf, Written.MetProps;
    TurnIsCompatible(w, x, swapped);
    w.AllIffLinked();
    w.TableFacts();
    var t := w.Table().value;
    TurnGraph(w, x, swapped, t);
    TurnFields(w, x, swapped);
    InnerIsMet(w, x, swapped);
    if swapped {
      BIsTaken(w, x);
    } else {
      ByNameIsKept(w, x);
      TurnProps(w, x, swapped);
      w.UsedProperty(t, "A", x.named);
    }
  }

  /** The same two methods, listed the one way or the other. */
  method ResolveInTurn(swapped: bool) returns (r: Outcome<Error>, ghost w: Written, ghost x: Turns)
    ensures InTurn(w, x, swapped) && Compatible(w.u, w.Met()) && w.NamesMet()
    ensures r == if swapped then Pass else Fail(Unknown(PrototypeKind, "B"))
  {
    hide Connectable, Explains, Gathered, Manifest.Resolved, Evolved, Universe.Describes, Universe.Meaning,
         Universe.Valid, Written.Met, Written.Walked, Written.NamesMet, Compatible, Written.HasAll, Written.Accepted,
         Written.Table, UniverseOf, InTurn;
    var none := new Property(Void, None, Inline(null), Inline(null));
    var inner := new Method("B", "b", None, None, [], none);
    var held := new Property(ValueType.Function, None, Inline(inner), Inline(null));
    var named := new Property(ValueType.Function, None, Reference("B"), Inline(null));
    var inFull := new Method("A", "a", None, None, [held], none);
    var byName := new Method("A", "a", None, None, [named], none);
    var useOne := new Property(ValueType.Function, None, Inline(byName), Inline(null));
    var useTwo := new Property(ValueType.Function, None, Inline(inFull), Inline(null));
    var one := new Method("M", "m", None, None, [useOne], none);
    var two := new Method("N", "n", None, None, [useTwo], none);
    var methods := if swapped then [two, one] else [one, two];
    var manifest := new Manifest(Some(methods), None, None, None);
    x := Turns(one, useOne, byName, named, two, useTwo, inFull, held, inner, none);
    ghost var props := {none, useOne, useTwo, held, named};
    ghost var u := UniverseOf(props, {one, two, byName, inFull, inner});
    w := Written(u, SnapshotOf(props), methods, [], []);
    TurnAsBuilt(w, x, swapped);
    OrderDecides(w, x, swapped);
    r := manifest.Resolve(u);
  }

  lemma TurnAsBuilt(w: Written, x: Turns, swapped: bool)
    requires var props := {x.none, x.useOne, x.useTwo, x.held, x.named};
             w == Written(UniverseOf(props, {x.one, x.two, x.byName, x.inFull, x.inner}), SnapshotOf(props),
                          if swapped then [x.two, x.one] else [x.one, x.two], [], [])
    requires x.none.prototype == Inline(null) && x.useOne.prototype == Inline(x.byName)
             && x.useTwo.prototype == Inline(x.inFull)
    requires x.held.prototype == Inline(x.inner) && x.named.prototype == Reference("B")
    requires x.held.kind == x.named.kind && x.held.ref == x.named.ref
    requires forall p :: p in {x.none, x.useOne, x.useTwo, x.held, x.named} ==> p.enumerate == Inline(null)
    requires x.byName.name == "A" && x.inFull.name == "A" && x.inner.name == "B"
    requires HasProps(x.one, x.useOne, x.none) && HasProps(x.two, x.useTwo, x.none)
    requires HasProps(x.byName, x.named, x.none) && HasProps(x.inFull, x.held, x.none)
    requires x.inner.paramTypes == [] && x.inner.retType == x.none
    requires x.byName.funcName == x.inFull.funcName && x.byName.callConv == x.inFull.callConv
             && x.byName.varIndex == x.inFull.varIndex
    ensures InTurn(w, x, swapped) && w.Valid()
  {
    UniverseIsValid({x.none, x.useOne, x.useTwo, x.held, x.named}, {x.one, x.two, x.byName, x.inFull, x.inner});
    hide UniverseOf, Universe.Valid, Universe.Describes, Universe.Meaning;
    MeanTheSame(w.u, w.f, x.byName, x.named, x.inFull, x.held);
  }
}
