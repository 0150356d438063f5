/** What consumers of a resolved manifest may rely on, and the checks that run after resolving. */
module ManifestValidation {
  import opened Blocks
  import opened Wrappers
  import opened Lexicographic
  import opened Digraph
  import opened ManifestModel
  import opened TypeTables
  import opened PrototypeCycles
  import opened ManifestResolution

  /** A method of the manifest or a published prototype. */
  ghost predicate Listed(manifest: Manifest, m: Method)
    reads manifest
  {
    m in ListOf(manifest.methods) || m in ListOf(manifest.prototypes)
  }

  /** A recursive walk over signatures: it starts at a listed definition and follows prototype fields. */
  ghost predicate IsSignatureWalk(manifest: Manifest, u: Universe, w: seq<Method>)
    reads manifest, u.props
  {
    && |w| >= 1 && Listed(manifest, w[0])
    && forall i :: 0 <= i < |w| - 1 ==> Holds(u, w[i], w[i + 1])
  }

  ghost predicate Holds(u: Universe, a: Method, b: Method)
    reads u.props
  {
    exists p :: p in u.props && p in a.Props() && PrototypeOf(p.prototype) == b
  }

  /** A property as resolving leaves it: each field is null or one of the published objects. */
  ghost predicate Settles(manifest: Manifest, p: Property)
    reads manifest, p
  {
    && p.prototype.Inline? && p.enumerate.Inline?
    && (p.prototype.target != null ==> p.prototype.target in ListOf(manifest.prototypes))
    && (p.enumerate.target != null ==> p.enumerate.target in ListOf(manifest.enums))
  }

  lemma ListedIsSettled(manifest: Manifest, u: Universe, m: Method, p: Property)
    requires manifest.Within(u) && manifest.Resolved(u) && Listed(manifest, m) && p in m.Props()
    ensures p in u.props && Settles(manifest, p)
  {
    var s := manifest.Published(u);
    ListingIsDistinct(s.prototypes);
    EnumListingIsDistinct(s.enums);
    assert s.HoistedMethod(m) && s.LinkedMethod(m);
    assert s.Hoisted(p) && s.HoistedPrototype(p) && s.HoistedEnum(p) && s.Linked(p);
  }

  /**
   * Once a manifest is resolved, everything a signature walk reaches beyond its start is published,
   * and no property it sees still holds a name.
   */
  lemma {:induction false} ReachedIsPublished(manifest: Manifest, u: Universe, w: seq<Method>, i: nat)
    requires manifest.Within(u) && manifest.Resolved(u) && IsSignatureWalk(manifest, u, w) && i < |w|
    ensures i > 0 ==> w[i] in ListOf(manifest.prototypes)
    ensures Listed(manifest, w[i])
    ensures forall p :: p in w[i].Props() ==> Settles(manifest, p)
  {
    hide Manifest.Resolved, Manifest.Within, Settles;
    if i > 0 {
      ReachedIsPublished(manifest, u, w, i - 1);
      assert Holds(u, w[i - 1], w[i]);
      var p :| p in u.props && p in w[i - 1].Props() && PrototypeOf(p.prototype) == w[i];
      SettledTarget(manifest, p);
    }
    forall p | p in w[i].Props() ensures Settles(manifest, p) {
      ListedIsSettled(manifest, u, w[i], p);
    }
  }

  lemma SettledTarget(manifest: Manifest, p: Property)
    requires Settles(manifest, p) && PrototypeOf(p.prototype) != null
    ensures PrototypeOf(p.prototype) in ListOf(manifest.prototypes)
  {
  }

  /** Published lists are sorted by name, without duplicates and without nameless entries. */
  lemma PublishedSorted(manifest: Manifest, u: Universe)
    requires manifest.Resolved(u)
    ensures forall i, j :: 0 <= i < j < |ListOf(manifest.prototypes)| ==>
              Less(ListOf(manifest.prototypes)[i].name, ListOf(manifest.prototypes)[j].name)
    ensures forall i, j :: 0 <= i < j < |ListOf(manifest.enums)| ==>
              Less(ListOf(manifest.enums)[i].name, ListOf(manifest.enums)[j].name)
    ensures forall m :: m in ListOf(manifest.prototypes) ==> m.name != ""
    ensures forall e :: e in ListOf(manifest.enums) ==> e.name != ""
  {
    var s := manifest.Published(u);
    ListingIsDistinct(s.prototypes);
    EnumListingIsDistinct(s.enums);
  }

  /** Across a resolved manifest two fields hold the same object exactly when they denote the same name. */
  lemma PointerIsName(manifest: Manifest, u: Universe, a: Method, b: Method, p: Property, q: Property)
    requires manifest.Within(u) && manifest.Resolved(u)
    requires Listed(manifest, a) && p in a.Props() && Listed(manifest, b) && q in b.Props()
    ensures p.prototype == q.prototype <==> PrototypeName(p.prototype) == PrototypeName(q.prototype)
    ensures p.enumerate == q.enumerate <==> EnumName(p.enumerate) == EnumName(q.enumerate)
  {
    hide Manifest.Resolved, Manifest.Within;
    ListedIsSettled(manifest, u, a, p);
    ListedIsSettled(manifest, u, b, q);
    PublishedDistinct(manifest, u);
  }

  lemma PublishedDistinct(manifest: Manifest, u: Universe)
    requires manifest.Resolved(u)
    ensures forall a, b :: a in ListOf(manifest.prototypes) && b in ListOf(manifest.prototypes) && a.name == b.name ==>
            a == b
    ensures forall a, b :: a in ListOf(manifest.enums) && b in ListOf(manifest.enums) && a.name == b.name ==> a == b
    ensures forall m :: m in ListOf(manifest.prototypes) ==> m.name != ""
    ensures forall e :: e in ListOf(manifest.enums) ==> e.name != ""
  {
    var s := manifest.Published(u);
    ListingIsDistinct(s.prototypes);
    EnumListingIsDistinct(s.enums);
  }

  /** No signature walk in a resolved manifest is longer than the number of published prototypes, plus its start. */
  lemma SignatureWalkBounded(manifest: Manifest, u: Universe, w: seq<Method>)
    requires manifest.Within(u) && manifest.Resolved(u) && IsSignatureWalk(manifest, u, w)
    ensures |w| <= |ListOf(manifest.prototypes)| + 1
  {
    var s := manifest.Published(u);
    ListingIsDistinct(s.prototypes);
    var g := GraphOf(s);
    if |w| > 1 {
      var names := seq(|w| - 1, i requires 0 <= i < |w| - 1 => w[i + 1].name);
      assert IsWalk(g, names) by {
        hide Manifest.Resolved, Manifest.Within;
        forall i | 0 <= i < |names| ensures names[i] in g && s.prototypes[names[i]] == w[i + 1] {
          ReachedIsPublished(manifest, u, w, i + 1);
        }
        forall i | 0 <= i < |names| - 1 ensures names[i + 1] in g[names[i]] {
          assert s.prototypes[names[i]] == w[i + 1];
          assert Holds(u, w[i + 1], w[i + 2]);
          var p :| p in u.props && p in w[i + 1].Props() && PrototypeOf(p.prototype) == w[i + 2];
          assert p in s.fields && PrototypeOf(s.fields[p].prototype) == w[i + 2];
        }
      }
      var h :| IsRanking(g, h);
      WalkBounded(g, h, names);
      ListingSize(s.prototypes);
    }
  }

  lemma ListingSize(table: map<string, Method>)
    ensures |Listing(table)| == |table|
  {
    var names := SortedNames(table.Keys);
    forall i, j | 0 <= i < j < |names| ensures names[i] != names[j] {
      assert Less(names[i], names[j]);
    }
    DistinctCount(names);
    assert Elements(names) == table.Keys;
  }

  // --------------------------------------------------------------------------------------------
  // The checks that run after resolving
  // --------------------------------------------------------------------------------------------

  const NO_VAR_ARGS: nat := 0xff

  ghost predicate GoodProperty(p: Property, param: bool)
    reads p
  {
    && !(param && p.kind == Void)
    && p.prototype.Inline? && p.enumerate.Inline?
    && (p.kind == Function ==> p.prototype.target != null)
  }

  ghost predicate GoodVarIndex(m: Method) {
    m.varIndex.None? || m.varIndex.value == NO_VAR_ARGS || m.varIndex.value < |m.paramTypes|
  }

  ghost predicate GoodMethod(m: Method)
    reads m.Props()
  {
    && GoodVarIndex(m)
    && (forall i :: 0 <= i < |m.paramTypes| ==> GoodProperty(m.paramTypes[i], true))
    && GoodProperty(m.retType, false)
  }

  ghost predicate DistinctNames(names: seq<string>) {
    forall i, j :: 0 <= i < j < |names| ==> names[i] != names[j]
  }

  ghost function ValueNames(values: seq<Value>): (r: seq<string>)
    ensures |r| == |values| && forall i :: 0 <= i < |values| ==> r[i] == values[i].name
  {
    seq(|values|, i requires 0 <= i < |values| => values[i].name)
  }

  ghost function BindingNames(bindings: seq<Binding>): (r: seq<string>)
    ensures |r| == |bindings| && forall i :: 0 <= i < |bindings| ==> r[i] == bindings[i].name
  {
    seq(|bindings|, i requires 0 <= i < |bindings| => bindings[i].name)
  }

  /** A class without a handle, or with one that is void, has no instances. */
  ghost predicate Handleless(c: ClassDef) {
    c.handleType == None || c.handleType == Some(Void)
  }

  /** The name occurs twice. */
  ghost predicate Repeats(names: seq<string>, n: string) {
    exists i, j :: 0 <= i < j < |names| && names[i] == names[j] == n
  }

  ghost predicate GoodClass(c: ClassDef) {
    && (Handleless(c) ==> !c.constructors && !c.destructor)
    && DistinctNames(BindingNames(c.bindings))
    && (Handleless(c) ==> forall b :: b in c.bindings ==> b.bindSelf != Some(true))
  }

  method ValidateEnum(e: EnumType) returns (r: Outcome<Error>)
    ensures r.Pass? <==> DistinctNames(ValueNames(e.values))
    ensures r.Fail? ==> r.error.DuplicateEnumValue? && Repeats(ValueNames(e.values), r.error.name)
  {
    var seen: set<string> := {};
    for i := 0 to |e.values|
      invariant seen == set k | 0 <= k < i :: e.values[k].name
      invariant DistinctNames(ValueNames(e.values)[..i])
    {
      var name := e.values[i].name;
      if name in seen {
        ghost var k :| 0 <= k < i && e.values[k].name == name;
        assert ValueNames(e.values)[k] == ValueNames(e.values)[i];
        return Fail(DuplicateEnumValue(name));
      }
      seen := seen + {name};
    }
    assert ValueNames(e.values)[..|e.values|] == ValueNames(e.values);
    r := Pass;
  }

  method ValidateProperty(p: Property, param: bool) returns (r: Outcome<Error>)
    ensures r.Pass? <==> GoodProperty(p, param)
    ensures r.Fail? ==>
              match r.error
              case VoidParameter => param && p.kind == Void
              case UnresolvedReference(PrototypeKind, n) => p.prototype == Reference(n)
              case UnresolvedReference(EnumKind, n) => p.enumerate == Reference(n)
              case MissingPrototype => p.kind == Function && p.prototype == Inline(null)
              case _ => false
  {
    if param && p.kind == Void {
      return Fail(VoidParameter);
    }
    if p.prototype.Reference? {
      return Fail(UnresolvedReference(PrototypeKind, p.prototype.name));
    }
    if p.enumerate.Reference? {
      return Fail(UnresolvedReference(EnumKind, p.enumerate.name));
    }
    if p.kind == Function && PrototypeOf(p.prototype) == null {
      return Fail(MissingPrototype);
    }
    r := Pass;
  }

  method ValidateMethod(m: Method) returns (r: Outcome<Error>)
    ensures r.Pass? <==> GoodMethod(m)
    ensures r.Fail? ==>
              match r.error
              case VarIndexOutOfRange => !GoodVarIndex(m)
              case VoidParameter => exists p :: p in m.paramTypes && p.kind == Void
              case UnresolvedReference(PrototypeKind, n) => exists p :: p in m.Props() && p.prototype == Reference(n)
              case UnresolvedReference(EnumKind, n) => exists p :: p in m.Props() && p.enumerate == Reference(n)
              case MissingPrototype => exists p :: p in m.Props() && p.kind == Function && p.prototype == Inline(null)
              case _ => false
  {
    if m.varIndex.Some? && m.varIndex.value != NO_VAR_ARGS && m.varIndex.value >= |m.paramTypes| {
      return Fail(VarIndexOutOfRange);
    }
    for i := 0 to |m.paramTypes|
      invariant forall k :: 0 <= k < i ==> GoodProperty(m.paramTypes[k], true)
    {
      r := ValidateProperty(m.paramTypes[i], true);
      if r.Fail? {
        assert m.paramTypes[i] in m.Props();
        return;
      }
    }
    r := ValidateProperty(m.retType, false);
    assert m.retType in m.Props();
  }

  method ValidateClass(c: ClassDef) returns (r: Outcome<Error>)
    ensures r.Pass? <==> GoodClass(c)
    ensures r.Fail? ==>
              match r.error
              case HandlelessWithLifetime(n) => n == c.name && Handleless(c) && (c.constructors || c.destructor)
              case DuplicateBinding(n) => Repeats(BindingNames(c.bindings), n)
              case HandlelessBindSelf(n) =>
                Handleless(c) && exists b :: b in c.bindings && b.name == n && b.bindSelf == Some(true)
              case _ => false
  {
    var isHandleless := (if c.handleType.Some? then c.handleType.value else Void) == Void;
    if isHandleless && (c.constructors || c.destructor) {
      return Fail(HandlelessWithLifetime(c.name));
    }
    var seen: set<string> := {};
    for i := 0 to |c.bindings|
      invariant seen == set k | 0 <= k < i :: c.bindings[k].name
      invariant DistinctNames(BindingNames(c.bindings)[..i])
      invariant Handleless(c) ==> forall b :: b in c.bindings[..i] ==> b.bindSelf != Some(true)
    {
      var b := c.bindings[i];
      if b.name in seen {
        ghost var k :| 0 <= k < i && c.bindings[k].name == b.name;
        assert BindingNames(c.bindings)[k] == BindingNames(c.bindings)[i];
        return Fail(DuplicateBinding(b.name));
      }
      if isHandleless && b.bindSelf == Some(true) {
        return Fail(HandlelessBindSelf(b.name));
      }
      seen := seen + {b.name};
      assert c.bindings[..i + 1] == c.bindings[..i] + [b];
    }
    assert c.bindings[..|c.bindings|] == c.bindings;
    assert BindingNames(c.bindings)[..|c.bindings|] == BindingNames(c.bindings);
    r := Pass;
  }

  ghost predicate DistinctMethods(ms: seq<Method>) {
    forall i, j :: 0 <= i < j < |ms| ==> ms[i].name != ms[j].name && ms[i].funcName != ms[j].funcName
  }

  ghost predicate DistinctClasses(cs: seq<ClassDef>) {
    forall i, j :: 0 <= i < j < |cs| ==> cs[i].name != cs[j].name
  }

  /** Some method of the list has a field that still holds a name. */
  ghost predicate HoldsName(ms: seq<Method>)
    reads set m, p | m in ms && p in m.Props() :: p
  {
    exists m, p :: m in ms && p in m.Props() && (p.prototype.Reference? || p.enumerate.Reference?)
  }

  method ValidateMethods(ms: seq<Method>) returns (r: Outcome<Error>)
    ensures r.Pass? <==> DistinctMethods(ms) && forall m :: m in ms ==> GoodMethod(m)
    ensures r.Fail? && r.error.UnresolvedReference? ==> HoldsName(ms)
    ensures r.Fail? && r.error.DuplicateMethod? ==>
              exists i, j :: 0 <= i < j < |ms| && ms[i].name == ms[j].name == r.error.name
    ensures r.Fail? && r.error.DuplicateFunction? ==>
              exists i, j :: 0 <= i < j < |ms| && ms[i].funcName == ms[j].funcName == r.error.name
  {
    var names: set<string>, functions: set<string> := {}, {};
    for i := 0 to |ms|
      invariant names == set k | 0 <= k < i :: ms[k].name
      invariant functions == set k | 0 <= k < i :: ms[k].funcName
      invariant DistinctMethods(ms[..i])
      invariant forall k :: 0 <= k < i ==> GoodMethod(ms[k])
    {
      var m := ms[i];
      if m.name in names {
        return Fail(DuplicateMethod(m.name));
      }
      names := names + {m.name};
      if m.funcName in functions {
        return Fail(DuplicateFunction(m.funcName));
      }
      functions := functions + {m.funcName};
      r := ValidateMethod(m);
      if r.Fail? {
        return;
      }
      assert ms[..i + 1] == ms[..i] + [m];
    }
    assert ms[..|ms|] == ms;
    r := Pass;
  }

  method ValidatePrototypes(ms: seq<Method>) returns (r: Outcome<Error>)
    ensures r.Pass? <==> forall m :: m in ms ==> GoodMethod(m)
    ensures r.Fail? && r.error.UnresolvedReference? ==> HoldsName(ms)
  {
    for i := 0 to |ms|
      invariant forall k :: 0 <= k < i ==> GoodMethod(ms[k])
    {
      r := ValidateMethod(ms[i]);
      if r.Fail? {
        return;
      }
    }
    r := Pass;
  }

  method ValidateEnums(es: seq<EnumType>) returns (r: Outcome<Error>)
    ensures r.Pass? <==> forall e :: e in es ==> DistinctNames(ValueNames(e.values))
    ensures r.Fail? ==> !r.error.UnresolvedReference?
  {
    for i := 0 to |es|
      invariant forall k :: 0 <= k < i ==> DistinctNames(ValueNames(es[k].values))
    {
      r := ValidateEnum(es[i]);
      if r.Fail? {
        return;
      }
    }
    r := Pass;
  }

  method ValidateClasses(cs: seq<ClassDef>) returns (r: Outcome<Error>)
    ensures r.Pass? <==> DistinctClasses(cs) && forall c :: c in cs ==> GoodClass(c)
    ensures r.Fail? ==> !r.error.UnresolvedReference?
  {
    var names: set<string> := {};
    for i := 0 to |cs|
      invariant names == set k | 0 <= k < i :: cs[k].name
      invariant DistinctClasses(cs[..i])
      invariant forall k :: 0 <= k < i ==> GoodClass(cs[k])
    {
      if cs[i].name in names {
        return Fail(DuplicateClass(cs[i].name));
      }
      names := names + {cs[i].name};
      r := ValidateClass(cs[i]);
      if r.Fail? {
        return;
      }
      assert cs[..i + 1] == cs[..i] + [cs[i]];
    }
    assert cs[..|cs|] == cs;
    r := Pass;
  }

  /** Methods first, then the published prototypes. */
  method ValidateSignatures(methods: seq<Method>, prototypes: seq<Method>) returns (r: Outcome<Error>)
    ensures r.Pass? <==>
              && DistinctMethods(methods) && (forall m :: m in methods ==> GoodMethod(m))
              && (forall m :: m in prototypes ==> GoodMethod(m))
    ensures r.Fail? && r.error.UnresolvedReference? ==> HoldsName(methods) || HoldsName(prototypes)
  {
    hide DistinctMethods;
    r := ValidateMethods(methods);
    if r.Pass? {
      r := ValidatePrototypes(prototypes);
    }
  }

  /** Enums first, then the classes. */
  method ValidateTypes(enums: seq<EnumType>, classes: seq<ClassDef>) returns (r: Outcome<Error>)
    ensures r.Pass? <==>
              && (forall e :: e in enums ==> DistinctNames(ValueNames(e.values)))
              && DistinctClasses(classes) && (forall c :: c in classes ==> GoodClass(c))
    ensures r.Fail? ==> !r.error.UnresolvedReference?
  {
    r := ValidateEnums(enums);
    if r.Pass? {
      r := ValidateClasses(classes);
    }
  }

  /** The checks of a manifest pass exactly when the manifest is consistent. */
  method Validate(manifest: Manifest) returns (r: Outcome<Error>)
    ensures r.Pass? <==>
              && DistinctMethods(ListOf(manifest.methods))
              && (forall m :: m in ListOf(manifest.methods) ==> GoodMethod(m))
              && (forall m :: m in ListOf(manifest.prototypes) ==> GoodMethod(m))
              && (forall e :: e in ListOf(manifest.enums) ==> DistinctNames(ValueNames(e.values)))
              && DistinctClasses(ListOf(manifest.classes))
                 && (forall c :: c in ListOf(manifest.classes) ==> GoodClass(c))
    ensures r.Fail? && r.error.UnresolvedReference? ==>
              HoldsName(ListOf(manifest.methods)) || HoldsName(ListOf(manifest.prototypes))
  {
    hide GoodClass, DistinctMethods, DistinctClasses, DistinctNames;
    r := ValidateSignatures(ListOf(manifest.methods), ListOf(manifest.prototypes));
    if r.Pass? {
      r := ValidateTypes(ListOf(manifest.enums), ListOf(manifest.classes));
    }
  }

  /** After a successful resolution neither of the two unresolved-reference errors can be reported. */
  method ValidateResolved(manifest: Manifest, ghost u: Universe) returns (r: Outcome<Error>)
    requires manifest.Within(u) && manifest.Resolved(u)
    ensures r.Fail? ==> !r.error.UnresolvedReference?
  {
    NoNamesHeld(manifest, u);
    hide *;
    r := Validate(manifest);
  }

  lemma NoNamesHeld(manifest: Manifest, u: Universe)
    requires manifest.Within(u) && manifest.Resolved(u)
    ensures !HoldsName(ListOf(manifest.methods)) && !HoldsName(ListOf(manifest.prototypes))
  {
    hide Manifest.Within, Manifest.Resolved;
    forall m, p | Listed(manifest, m) && p in m.Props() ensures p.prototype.Inline? && p.enumerate.Inline? {
      ListedIsSettled(manifest, u, m, p);
    }
  }
}
