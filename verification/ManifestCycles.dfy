/** The three-colour depth-first search that rejects prototypes able to reach themselves. */
module PrototypeCycles {
  import opened Blocks
  import opened Wrappers
  import opened Digraph
  import opened ManifestModel
  import opened TypeTables

  ghost function TargetNames(m: Method, fields: Snapshot): (names: set<string>) {
    set p | p in m.Props() && p in fields && PrototypeOf(fields[p].prototype) != null ::
      PrototypeOf(fields[p].prototype).name
  }

  /** The prototypes of a table, with an edge for each prototype a parameter or return value holds. */
  ghost function GraphOf(s: State): (g: Graph)
    ensures g.Keys == s.prototypes.Keys
  {
    map n | n in s.prototypes :: TargetNames(s.prototypes[n], s.fields)
  }

  /** Every definition in the table is hoisted and linked, as it is after both passes. */
  ghost predicate Settled(u: Universe, s: State) {
    && s.Valid(u)
    && (forall n :: n in s.prototypes ==> s.HoistedMethod(s.prototypes[n]) && s.LinkedMethod(s.prototypes[n]))
  }

  lemma SettledGraphClosed(u: Universe, s: State)
    requires Settled(u, s)
    ensures Closed(GraphOf(s))
  {
    forall a, b | a in s.prototypes && b in TargetNames(s.prototypes[a], s.fields) ensures b in s.prototypes {
      var m := s.prototypes[a];
      var p :| p in m.Props() && p in s.fields && PrototypeOf(s.fields[p].prototype) != null
               && b == PrototypeOf(s.fields[p].prototype).name;
      assert s.Hoisted(p) && s.HoistedPrototype(p);
    }
  }

  /** The prototype a property of a table entry holds is a table entry, and the target of an edge. */
  lemma SettledEdge(u: Universe, s: State, n: string, p: Property)
    requires Settled(u, s) && n in s.prototypes && p in s.prototypes[n].Props()
    ensures p in u.props && p in s.fields
    ensures var t := PrototypeOf(s.fields[p].prototype);
            t != null ==> t.name in s.prototypes && s.prototypes[t.name] == t && t.name in GraphOf(s)[n]
  {
    assert s.HoistedMethod(s.prototypes[n]);
    assert s.Hoisted(p) && s.HoistedPrototype(p);
  }

  /** The search invariant: the grey nodes form a walk, the black ones are ranked below everything after them. */
  ghost predicate Searching(g: Graph, stack: seq<string>, height: map<string, nat>) {
    && Closed(g)
    && (stack != [] ==> IsWalk(g, stack))
    && height.Keys <= g.Keys
    && Ranks(g, height)
    && (forall a :: a in height ==> height[a] < |height|)
    && Elements(stack) !! height.Keys
  }

  lemma CycleFound(g: Graph, stack: seq<string>, height: map<string, nat>, n: string)
    requires stack != [] && Searching(g, stack, height) && n in g && n in g[stack[|stack| - 1]] && n in Elements(stack)
    ensures exists w :: IsCycle(g, w) && w[0] == n
  {
    var i :| 0 <= i < |stack| && stack[i] == n;
    var w := stack[i..] + [n];
    assert IsCycle(g, w);
  }

  lemma PushNode(g: Graph, stack: seq<string>, height: map<string, nat>, n: string)
    requires Searching(g, stack, height) && n in g && n !in Elements(stack) && n !in height
    requires stack != [] ==> n in g[stack[|stack| - 1]]
    ensures Searching(g, stack + [n], height)
    ensures Elements(stack + [n]) == Elements(stack) + {n}
  {
    var t := stack + [n];
    assert Elements(t) == Elements(stack) + {n} by {
      assert t[|t| - 1] == n;
      assert forall i :: 0 <= i < |stack| ==> t[i] == stack[i];
    }
  }

  lemma FinishNode(g: Graph, stack: seq<string>, height: map<string, nat>, n: string)
    requires Searching(g, stack + [n], height) && n in g
    requires n !in Elements(stack)
    requires forall b :: b in g[n] ==> b in height
    ensures Searching(g, stack, height[n := |height|])
  {
    var t := stack + [n];
    assert t[|stack|] == n && n in Elements(t);
    assert forall i :: 0 <= i < |stack| ==> t[i] == stack[i];
    assert Elements(stack) <= Elements(t);
    if stack != [] {
      assert IsWalk(g, stack) by {
        assert forall i :: 0 <= i < |stack| - 1 ==> t[i + 1] in g[t[i]];
      }
    }
  }

  datatype Mark = Unvisited | OnStack | Done

  class CycleDetector {
    var marks: map<Method, Mark>
    ghost var stack: seq<string>
    ghost var height: map<string, nat>

    constructor ()
      ensures marks == map[] && stack == [] && height == map[]
    {
      marks, stack, height := map[], [], map[];
    }

    function MarkOf(m: Method): Mark
      reads this
    {
      if m in marks then marks[m] else Unvisited
    }

    /** The colours are what the ghost search state says. */
    ghost predicate Coloured(prototypes: map<string, Method>)
      reads this
    {
      forall n :: n in prototypes ==>
        && (MarkOf(prototypes[n]) == OnStack <==> n in Elements(stack))
        && (MarkOf(prototypes[n]) == Done <==> n in height)
    }

    ghost predicate Valid(s: State)
      reads this
    {
      Searching(GraphOf(s), stack, height) && Coloured(s.prototypes)
    }

    /** The prototypes not yet coloured; every descent colours one more. */
    ghost function Unseen(s: State): set<string>
      reads this
    {
      s.prototypes.Keys - Elements(stack) - height.Keys
    }

    method Push(prototype: Method, ghost s: State)
      requires Valid(s) && TableEntry(s, prototype) && MarkOf(prototype) == Unvisited
      requires stack != [] ==> prototype.name in GraphOf(s)[stack[|stack| - 1]]
      requires forall n :: n in s.prototypes ==> s.prototypes[n].name == n
      modifies this
      ensures Valid(s) && stack == old(stack) + [prototype.name] && height == old(height)
      ensures prototype.name !in Elements(old(stack))
      ensures Unseen(s) < old(Unseen(s))
    {
      hide Searching;
      PushNode(GraphOf(s), stack, height, prototype.name);
      assert prototype.name in Unseen(s);
      marks := marks[prototype := OnStack];
      stack := stack + [prototype.name];
    }

    method Finish(prototype: Method, ghost s: State)
      requires Valid(s) && TableEntry(s, prototype)
      requires stack != [] && stack[|stack| - 1] == prototype.name
      requires prototype.name !in Elements(stack[..|stack| - 1])
      requires forall b :: b in GraphOf(s)[prototype.name] ==> b in height
      requires forall n :: n in s.prototypes ==> s.prototypes[n].name == n
      modifies this
      ensures Valid(s) && stack == old(stack)[..|old(stack)| - 1] && height.Keys == old(height.Keys) + {prototype.name}
    {
      hide Searching, GraphOf, Elements;
      ghost var below := stack[..|stack| - 1];
      assert stack == below + [prototype.name];
      FinishNode(GraphOf(s), below, height, prototype.name);
      NamesPush(below, prototype.name);
      marks := marks[prototype := Done];
      stack, height := below, height[prototype.name := |height|];
    }

    /** Visits the prototype a property of the prototype on top of the stack holds, if any. */
    method Descend(p: Property, ghost s: State, ghost u: Universe) returns (r: Outcome<Error>)
      requires Settled(u, s) && s.fields == SnapshotOf(u.props) && Valid(s)
      requires stack != [] && stack[|stack| - 1] in s.prototypes && p in s.prototypes[stack[|stack| - 1]].Props()
      modifies this
      ensures r.Pass? ==> Valid(s) && stack == old(stack) && old(height.Keys) <= height.Keys
      ensures r.Pass? ==> Ranked(s, height.Keys, p)
      ensures r.Fail? ==> OnCycle(GraphOf(s), r.error)
      decreases Unseen(s), 1
    {
      hide Settled, Searching;
      SettledEdge(u, s, stack[|stack| - 1], p);
      var nested := PrototypeOf(p.prototype);
      assert s.fields[p].prototype == p.prototype;
      if nested != null {
        r := Visit(nested, s, u);
      } else {
        r := Pass;
      }
    }

    method Visit(prototype: Method, ghost s: State, ghost u: Universe) returns (r: Outcome<Error>)
      requires Settled(u, s) && s.fields == SnapshotOf(u.props) && Valid(s)
      requires TableEntry(s, prototype)
      requires stack != [] ==> prototype.name in GraphOf(s)[stack[|stack| - 1]]
      modifies this
      ensures r.Pass? ==> Valid(s) && stack == old(stack) && old(height.Keys) <= height.Keys
      ensures r.Pass? ==> prototype.name in height
      ensures r.Fail? ==> OnCycle(GraphOf(s), r.error)
      decreases Unseen(s), 0
    {
      hide Settled, Searching, IsWalk, IsCycle, GraphOf, Ranked, State.Valid, Universe.Describes, OnCycle;
      SettledEntries(u, s);
      ghost var name := prototype.name;
      match MarkOf(prototype) {
        case Done =>
          return Pass;
        case OnStack =>
          CycleFound(GraphOf(s), stack, height, name);
          OnCycleFor(GraphOf(s), name);
          return Fail(ReferenceCycle(prototype.name));
        case Unvisited =>
      }
      Push(prototype, s);
      r := DescendAll(prototype, s, u);
      if r.Pass? {
        Finish(prototype, s);
      }
    }

    /** Visits the prototypes of the parameters and of the returned value. */
    method DescendAll(prototype: Method, ghost s: State, ghost u: Universe) returns (r: Outcome<Error>)
      requires Settled(u, s) && s.fields == SnapshotOf(u.props) && Valid(s) && TableEntry(s, prototype)
      requires stack != [] && stack[|stack| - 1] == prototype.name
      modifies this
      ensures r.Pass? ==> Valid(s) && stack == old(stack) && old(height.Keys) <= height.Keys
      ensures r.Pass? ==> forall b :: b in GraphOf(s)[prototype.name] ==> b in height
      ensures r.Fail? ==> OnCycle(GraphOf(s), r.error)
      decreases Unseen(s), 2
    {
      hide Settled, Valid, GraphOf, Ranked, State.Valid, Universe.Describes, OnCycle;
      ghost var grey := stack;
      ghost var black := height.Keys;
      var i := 0;
      while i < |prototype.paramTypes|
        invariant 0 <= i <= |prototype.paramTypes|
        invariant Valid(s) && stack == grey && black <= height.Keys
        invariant forall j :: 0 <= j < i ==> Ranked(s, height.Keys, prototype.paramTypes[j])
      {
        ghost var before := height.Keys;
        r := Descend(prototype.paramTypes[i], s, u);
        if r.Fail? {
          return;
        }
        RankedMonotone(s, before, height.Keys);
        i := i + 1;
      }
      ghost var before := height.Keys;
      r := Descend(prototype.retType, s, u);
      if r.Pass? {
        RankedMonotone(s, before, height.Keys);
        AllRanked(s, height.Keys, prototype);
      }
    }
  }

  /** An error entry for the cycle search is right: the prototype it names lies on a cycle. */
  ghost predicate OnCycle(g: Graph, e: Error) {
    e.ReferenceCycle? && exists w :: IsCycle(g, w) && w[0] == e.name
  }

  lemma OnCycleFor(g: Graph, n: string)
    requires exists w :: IsCycle(g, w) && w[0] == n
    ensures OnCycle(g, ReferenceCycle(n))
  {
  }

  ghost predicate TableEntry(s: State, m: Method) {
    m.name in s.prototypes && s.prototypes[m.name] == m
  }

  ghost predicate Ranked(s: State, black: set<string>, p: Property) {
    p in s.fields && (PrototypeOf(s.fields[p].prototype) != null ==> PrototypeOf(s.fields[p].prototype).name in black)
  }

  lemma RankedMonotone(s: State, black: set<string>, more: set<string>)
    requires black <= more
    ensures forall p :: Ranked(s, black, p) ==> Ranked(s, more, p)
  {
  }

  lemma AllRanked(s: State, black: set<string>, m: Method)
    requires TableEntry(s, m)
    requires forall j :: 0 <= j < |m.paramTypes| ==> Ranked(s, black, m.paramTypes[j])
    requires Ranked(s, black, m.retType)
    ensures forall b :: b in GraphOf(s)[m.name] ==> b in black
  {
    forall p | p in m.Props() ensures Ranked(s, black, p) {
    }
  }

  lemma SettledEntries(u: Universe, s: State)
    requires Settled(u, s)
    ensures forall n :: n in s.prototypes ==> s.prototypes[n].name == n
  {
  }

  lemma NamesPush(stack: seq<string>, n: string)
    ensures Elements(stack + [n]) == Elements(stack) + {n}
  {
    var t := stack + [n];
    assert t[|t| - 1] == n;
    assert forall i :: 0 <= i < |stack| ==> t[i] == stack[i];
  }

  lemma SearchStart(g: Graph)
    requires Closed(g)
    ensures Searching(g, [], map[])
  {
  }

  lemma SearchEnd(g: Graph, height: map<string, nat>)
    requires Searching(g, [], height) && g.Keys <= height.Keys
    ensures IsRanking(g, height) && !Cyclic(g)
  {
    assert height.Keys == g.Keys;
    RankedIsAcyclic(g, height);
  }

  lemma OnCycleIsCyclic(g: Graph, e: Error)
    requires OnCycle(g, e)
    ensures Cyclic(g)
  {
  }

  /**
   * The cycle check of a settled table: it fails exactly when the prototype graph has a cycle, the
   * error then names a prototype on one, and when it passes some ranking decreases along every edge.
   */
  method DetectCycles(table: TypeTable, ghost u: Universe) returns (r: Outcome<Error>)
    requires Settled(u, table.Now(u))
    ensures r.Pass? <==> !Cyclic(GraphOf(table.Now(u)))
    ensures r.Fail? ==> OnCycle(GraphOf(table.Now(u)), r.error)
    ensures r.Pass? ==> exists h :: IsRanking(GraphOf(table.Now(u)), h)
  {
    hide Settled, Searching, OnCycle, IsRanking, Cyclic, GraphOf, State.Valid;
    ghost var s := table.Now(u);
    SettledGraphClosed(u, s);
    SettledEntries(u, s);
    SearchStart(GraphOf(s));
    var detector := new CycleDetector();
    var left := table.prototypes.Keys;
    while left != {}
      invariant left <= table.prototypes.Keys
      invariant detector.Valid(s) && detector.stack == []
      invariant forall n :: n in s.prototypes && n !in left ==> n in detector.height
      decreases left
    {
      var name :| name in left;
      r := detector.Visit(table.prototypes[name], s, u);
      if r.Fail? {
        OnCycleIsCyclic(GraphOf(s), r.error);
        return;
      }
      left := left - {name};
    }
    r := Pass;
    SearchEnd(GraphOf(s), detector.height);
  }
}
