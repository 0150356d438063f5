/** The entities of a manifest, and what a definition means independently of how it is written. */
module ManifestModel {
  import opened Wrappers

  /** Void and Function are the types that rules mention; every other type is Plain. */
  datatype ValueType = Void | Function | Plain(code: nat)

  /** A field that holds a definition (null when the field is absent) or the name of one. */
  datatype Definition<+T> = Inline(target: T) | Reference(name: string)

  datatype Value = Value(name: string, value: int)

  datatype Binding = Binding(name: string, bindSelf: Option<bool>)

  /** A class of the exported interface; whether it has constructors and a destructor is all that rules ask. */
  datatype ClassDef = ClassDef(name: string, handleType: Option<ValueType>, constructors: bool, destructor: bool,
                               bindings: seq<Binding>)

  datatype Kind = PrototypeKind | EnumKind

  datatype Error =
    | Unnamed(kind: Kind)
    | Conflicting(kind: Kind, name: string)
    | Unknown(kind: Kind, name: string)
    | ReferenceCycle(name: string)
    | VoidParameter
    | UnresolvedReference(kind: Kind, name: string)
    | MissingPrototype
    | VarIndexOutOfRange
    | DuplicateEnumValue(name: string)
    | DuplicateMethod(name: string)
    | DuplicateFunction(name: string)
    | DuplicateClass(name: string)
    | HandlelessWithLifetime(name: string)
    | DuplicateBinding(name: string)
    | HandlelessBindSelf(name: string)

  class EnumType {
    const name: string
    const values: seq<Value>

    constructor (name: string, values: seq<Value>)
      ensures this.name == name && this.values == values
    {
      this.name, this.values := name, values;
    }
  }

  class Property {
    const kind: ValueType
    const ref: Option<bool>
    var prototype: Definition<Method?>
    var enumerate: Definition<EnumType?>

    constructor (kind: ValueType, ref: Option<bool>, prototype: Definition<Method?>, enumerate: Definition<EnumType?>)
      ensures this.kind == kind && this.ref == ref
      ensures this.prototype == prototype && this.enumerate == enumerate
    {
      this.kind, this.ref, this.prototype, this.enumerate := kind, ref, prototype, enumerate;
    }
  }

  /** A method, or a prototype: both have the same shape. */
  class Method {
    const name: string
    const funcName: string
    const callConv: Option<int>
    const varIndex: Option<nat>
    const paramTypes: seq<Property>
    const retType: Property

    constructor (name: string, funcName: string, callConv: Option<int>, varIndex: Option<nat>,
                 paramTypes: seq<Property>, retType: Property)
      ensures this.name == name && this.funcName == funcName && this.callConv == callConv
      ensures this.varIndex == varIndex && this.paramTypes == paramTypes && this.retType == retType
    {
      this.name, this.funcName, this.callConv := name, funcName, callConv;
      this.varIndex, this.paramTypes, this.retType := varIndex, paramTypes, retType;
    }

    /** The parameters and the return value. */
    ghost function Props(): (ps: set<Property>)
    {
      (set p | p in paramTypes) + {retType}
    }
  }

  /** The prototype a field holds; null while the field is absent or still a name. */
  function PrototypeOf(def: Definition<Method?>): Method? {
    match def
    case Inline(target) => target
    case Reference(_) => null
  }

  function EnumOf(def: Definition<EnumType?>): EnumType? {
    match def
    case Inline(target) => target
    case Reference(_) => null
  }

  function PrototypeName(def: Definition<Method?>): string {
    match def
    case Reference(name) => name
    case Inline(target) => if target == null then "" else target.name
  }

  function EnumName(def: Definition<EnumType?>): string {
    match def
    case Reference(name) => name
    case Inline(target) => if target == null then "" else target.name
  }

  predicate SameProperty(a: Property, b: Property)
    reads a, b
  {
    && a.kind == b.kind
    && (a.ref == Some(true)) == (b.ref == Some(true))
    && PrototypeName(a.prototype) == PrototypeName(b.prototype)
    && EnumName(a.enumerate) == EnumName(b.enumerate)
  }

  predicate SamePrototype(a: Method, b: Method)
    reads a.Props(), b.Props()
  {
    && a.funcName == b.funcName
    && a.callConv == b.callConv
    && a.varIndex == b.varIndex
    && SameProperty(a.retType, b.retType)
    && |a.paramTypes| == |b.paramTypes|
    && forall i :: 0 <= i < |a.paramTypes| ==> SameProperty(a.paramTypes[i], b.paramTypes[i])
  }

  predicate SameEnum(a: EnumType, b: EnumType) {
    a.values == b.values
  }

  datatype PropertyMeaning = PropertyMeaning(kind: ValueType, ref: bool, prototype: string, enumerate: string)

  datatype MethodMeaning = MethodMeaning(funcName: string, callConv: Option<int>, varIndex: Option<nat>,
                                         ret: PropertyMeaning, params: seq<PropertyMeaning>)

  /** The mutable part of a property. */
  datatype Fields = Fields(prototype: Definition<Method?>, enumerate: Definition<EnumType?>)

  /** A snapshot of the mutable part of a set of properties. */
  type Snapshot = map<Property, Fields>

  ghost function SnapshotOf(props: set<Property>): (s: Snapshot)
    reads props
  {
    map p | p in props :: Fields(p.prototype, p.enumerate)
  }

  /**
   * The objects a manifest can reach, together with the name each of their fields denotes.
   * The names are fixed once and for all: they do not depend on the heap.
   */
  datatype Universe = Universe(props: set<Property>, methods: set<Method>, enums: set<EnumType>,
                               prototypeNames: map<Property, string>, enumNames: map<Property, string>)
  {
    ghost predicate Valid() {
      && prototypeNames.Keys == props && enumNames.Keys == props
      && (forall m :: m in methods ==> m.Props() <= props)
    }

    /** The fields lead to objects of the universe and denote the names recorded for them. */
    ghost predicate Describes(s: Snapshot)
      requires Valid()
    {
      s.Keys == props && forall p :: p in props ==> DescribesField(p, s[p])
    }

    ghost predicate DescribesField(p: Property, f: Fields)
      requires Valid() && p in props
    {
      && (PrototypeOf(f.prototype) != null ==> PrototypeOf(f.prototype) in methods)
      && (EnumOf(f.enumerate) != null ==> EnumOf(f.enumerate) in enums)
      && PrototypeName(f.prototype) == prototypeNames[p]
      && EnumName(f.enumerate) == enumNames[p]
    }

    ghost function PrototypeNameSpace(): set<string> {
      set m | m in methods :: m.name
    }

    ghost function MeaningOfProperty(p: Property): PropertyMeaning {
      PropertyMeaning(p.kind, p.ref == Some(true),
                      if p in prototypeNames then prototypeNames[p] else "",
                      if p in enumNames then enumNames[p] else "")
    }

    ghost function MeaningOfParams(ps: seq<Property>): (r: seq<PropertyMeaning>)
      ensures |r| == |ps|
    {
      if ps == [] then [] else MeaningOfParams(ps[..|ps| - 1]) + [MeaningOfProperty(ps[|ps| - 1])]
    }

    /** What a definition says; a function of constants only, so it is the same in every heap. */
    ghost function Meaning(m: Method): MethodMeaning {
      MethodMeaning(m.funcName, m.callConv, m.varIndex, MeaningOfProperty(m.retType), MeaningOfParams(m.paramTypes))
    }

    lemma {:induction false} MeaningOfParamsAt(ps: seq<Property>, i: nat)
      requires i < |ps|
      ensures MeaningOfParams(ps)[i] == MeaningOfProperty(ps[i])
    {
      if i < |ps| - 1 {
        MeaningOfParamsAt(ps[..|ps| - 1], i);
      }
    }
  }

  /**
   * In every heap that keeps the recorded names, the structural comparison of two definitions
   * decides whether they mean the same, so its verdict never depends on the phase it runs in.
   */
  lemma SameDefinitionIsSameMeaning(u: Universe, a: Method, b: Method)
    requires u.Valid() && u.Describes(SnapshotOf(u.props)) && a in u.methods && b in u.methods
    ensures SamePrototype(a, b) <==> u.Meaning(a) == u.Meaning(b)
  {
    SamePropertyIsSameMeaning(u, a.retType, b.retType);
    if |a.paramTypes| == |b.paramTypes| {
      forall i | 0 <= i < |a.paramTypes|
        ensures SameProperty(a.paramTypes[i], b.paramTypes[i]) <==> u.Meaning(a).params[i] == u.Meaning(b).params[i]
      {
        assert a.paramTypes[i] in a.Props() && b.paramTypes[i] in b.Props();
        u.MeaningOfParamsAt(a.paramTypes, i);
        u.MeaningOfParamsAt(b.paramTypes, i);
        SamePropertyIsSameMeaning(u, a.paramTypes[i], b.paramTypes[i]);
      }
    }
  }

  lemma SamePropertyIsSameMeaning(u: Universe, p: Property, q: Property)
    requires u.Valid() && u.Describes(SnapshotOf(u.props)) && p in u.props && q in u.props
    ensures SameProperty(p, q) <==> u.MeaningOfProperty(p) == u.MeaningOfProperty(q)
  {
    assert u.DescribesField(p, SnapshotOf(u.props)[p]) && u.DescribesField(q, SnapshotOf(u.props)[q]);
  }
}
