/**
 * What it takes for two definitions of one name to be the same, said about the objects: which parts of them are
 * compared, and by what; and where a definition leads.
 */
module RepeatedDefinitions {
  import opened Wrappers
  import opened ManifestModel
  import opened DefinitionWalks
  import opened WrittenManifests
  import opened ManifestResolution
  import opened HiddenDefinitions

  /** The name that is written there, or that the definition has which is written there; "" for neither. */
  ghost predicate DenotesPrototype(def: Definition<Method?>, n: string) {
    || def == Reference(n)
    || (def.Inline? && def.target != null && def.target.name == n)
    || (def == Inline(null) && n == "")
  }

  ghost predicate DenotesEnum(def: Definition<EnumType?>, n: string) {
    || def == Reference(n)
    || (def.Inline? && def.target != null && def.target.name == n)
    || (def == Inline(null) && n == "")
  }

  /**
   * A prototype is taken for the one that the table has under its name exactly if the two agree in function name,
   * calling convention, variadic index and number of parameters, and parameter by parameter and for the return
   * value in the type, the flag (absent is false), and the names of prototype and enum.
   */
  lemma KnownIffSame(u: Universe, f: Snapshot, table: map<string, Method>, b: Method)
    requires u.Valid() && u.Describes(f) && b in u.methods
    requires b.name != "" && b.name in table && table[b.name] in u.methods
    ensures RegisteredPrototype(u, table, b).Known? <==>
            var a := table[b.name];
            && a.funcName == b.funcName && a.callConv == b.callConv && a.varIndex == b.varIndex
            && |a.paramTypes| == |b.paramTypes|
            && forall i :: 0 <= i <= |a.paramTypes| ==>
                 var p, q := InOrder(a)[i], InOrder(b)[i];
                 && p in f && q in f
                 && p.kind == q.kind && (p.ref == Some(true) <==> q.ref == Some(true))
                 && (exists n :: DenotesPrototype(f[p].prototype, n) && DenotesPrototype(f[q].prototype, n))
                 && (exists n :: DenotesEnum(f[p].enumerate, n) && DenotesEnum(f[q].enumerate, n))
  {
    var a := table[b.name];
    if |a.paramTypes| == |b.paramTypes| {
      forall i | 0 <= i <= |a.paramTypes|
        ensures var p, q := InOrder(a)[i], InOrder(b)[i];
                && p in f && q in f
                && (u.MeaningOfProperty(p) == u.MeaningOfProperty(q) <==>
                    && p.kind == q.kind && (p.ref == Some(true) <==> q.ref == Some(true))
                    && (exists n :: DenotesPrototype(f[p].prototype, n) && DenotesPrototype(f[q].prototype, n))
                    && (exists n :: DenotesEnum(f[p].enumerate, n) && DenotesEnum(f[q].enumerate, n)))
      {
        PropertiesSayTheSame(u, f, InOrder(a)[i], InOrder(b)[i]);
      }
      SameInOrder(u, a, b);
    }
  }

  lemma PropertiesSayTheSame(u: Universe, f: Snapshot, p: Property, q: Property)
    requires u.Valid() && u.Describes(f) && p in u.props && q in u.props
    ensures u.MeaningOfProperty(p) == u.MeaningOfProperty(q) <==>
            && p.kind == q.kind && (p.ref == Some(true) <==> q.ref == Some(true))
            && (exists n :: DenotesPrototype(f[p].prototype, n) && DenotesPrototype(f[q].prototype, n))
            && (exists n :: DenotesEnum(f[p].enumerate, n) && DenotesEnum(f[q].enumerate, n))
  {
    assert u.DescribesField(p, f[p]) && u.DescribesField(q, f[q]);
    assert DenotesPrototype(f[p].prototype, u.prototypeNames[p]);
    assert DenotesPrototype(f[q].prototype, u.prototypeNames[q]);
    assert DenotesEnum(f[p].enumerate, u.enumNames[p]) && DenotesEnum(f[q].enumerate, u.enumNames[q]);
  }

  lemma SameInOrder(u: Universe, a: Method, b: Method)
    requires |a.paramTypes| == |b.paramTypes|
    ensures u.Meaning(a) == u.Meaning(b) <==>
            && a.funcName == b.funcName && a.callConv == b.callConv && a.varIndex == b.varIndex
            && forall i :: 0 <= i <= |a.paramTypes| ==>
                 u.MeaningOfProperty(InOrder(a)[i]) == u.MeaningOfProperty(InOrder(b)[i])
  {
    var k := |a.paramTypes|;
    assert InOrder(a)[k] == a.retType && InOrder(b)[k] == b.retType;
    forall i | 0 <= i < k
      ensures u.Meaning(a).params[i] == u.MeaningOfProperty(InOrder(a)[i])
      ensures u.Meaning(b).params[i] == u.MeaningOfProperty(InOrder(b)[i])
    {
      u.MeaningOfParamsAt(a.paramTypes, i);
      u.MeaningOfParamsAt(b.paramTypes, i);
    }
  }

  /** So declared prototypes of one name agree in all of this, or else gathering fails. */
  lemma DeclaredTwiceAgree(u: Universe, f: Snapshot, methods: seq<Method>, declared: seq<Method>, enums: seq<EnumType>,
                           i: nat, j: nat)
    requires u.Valid() && u.Describes(f)
    requires (forall m :: m in methods ==> m in u.methods) && (forall m :: m in declared ==> m in u.methods)
    requires i < |declared| && j < |declared| && declared[i].name == declared[j].name
    requires Gathered(u, f, methods, declared, enums).Ok?
    ensures var a, b := declared[i], declared[j];
            && a.funcName == b.funcName && a.callConv == b.callConv && a.varIndex == b.varIndex
            && |a.paramTypes| == |b.paramTypes|
            && forall k :: 0 <= k <= |a.paramTypes| ==>
                 var p, q := InOrder(a)[k], InOrder(b)[k];
                 && p in f && q in f
                 && p.kind == q.kind && (p.ref == Some(true) <==> q.ref == Some(true))
                 && (exists n :: DenotesPrototype(f[p].prototype, n) && DenotesPrototype(f[q].prototype, n))
                 && (exists n :: DenotesEnum(f[p].enumerate, n) && DenotesEnum(f[q].enumerate, n))
  {
    hide Gathered, Universe.Describes, Universe.Meaning, DenotesPrototype, DenotesEnum, InOrder;
    GatheredRepresents(u, f, methods, declared, enums);
    var a, b := declared[i], declared[j];
    assert u.Meaning(a) == u.Meaning(b);
    KnownIffSame(u, f, map[a.name := a], b);
  }

  /** A prototype leads on to the prototypes that its parameters and its return value denote. */
  lemma LeadsOnTo(u: Universe, f: Snapshot, m: Method, n: string)
    requires u.Valid() && u.Describes(f) && m in u.methods && n != ""
    ensures n in NamedTargets(u, m) <==>
            exists p :: p in m.paramTypes + [m.retType] && p in f && DenotesPrototype(f[p].prototype, n)
  {
    hide DenotesPrototype;
    forall p | p in m.Props()
      ensures p in m.paramTypes + [m.retType] && p in f
      ensures DenotesPrototype(f[p].prototype, n) <==> u.prototypeNames[p] == n
    {
      OneDenoted(u, f, p, n);
    }
    forall p | p in m.paramTypes + [m.retType]
      ensures p in m.Props()
    {
    }
  }

  lemma OneDenoted(u: Universe, f: Snapshot, p: Property, n: string)
    requires u.Valid() && u.Describes(f) && p in u.props
    ensures DenotesPrototype(f[p].prototype, n) <==> u.prototypeNames[p] == n
  {
    assert u.DescribesField(p, f[p]);
  }

  /** Two declared prototypes of one name and function name, with parameters of different types. */
  method ConflictingParameters() returns (r: Outcome<Error>)
    ensures r == Fail(Conflicting(PrototypeKind, "F"))
  {
    hide Connectable, Explains, Manifest.Resolved, Evolved, Universe.Describes, Universe.Valid, UniverseOf, Walk;
    var none := new Property(Void, None, Inline(null), Inline(null));
    var p := new Property(Plain(1), None, Inline(null), Inline(null));
    var q := new Property(Plain(2), None, Inline(null), Inline(null));
    var a := new Method("F", "f", None, None, [p], none);
    var b := new Method("F", "f", None, None, [q], none);
    var manifest := new Manifest(None, None, Some([a, b]), None);
    ghost var u := UniverseOf({none, p, q}, {a, b});
    UniverseIsValid({none, p, q}, {a, b});
    ConflictingTypes(u, a, b);
    r := manifest.Resolve(u);
  }

  lemma ConflictingTypes(u: Universe, a: Method, b: Method)
    requires a.name == "F" == b.name && |a.paramTypes| == 1 == |b.paramTypes|
    requires a.paramTypes[0].kind != b.paramTypes[0].kind
    ensures DeclaredTables(u, [a, b], []) == Err(Conflicting(PrototypeKind, "F"))
  {
    u.MeaningOfParamsAt(a.paramTypes, 0);
    u.MeaningOfParamsAt(b.paramTypes, 0);
    assert u.Meaning(a).params[0] != u.Meaning(b).params[0];
    assert [a, b][..1] == [a] && [a][..0] == [];
    assert RegisterAll(u, [a]) == Ok(map["F" := a]);
  }
}
