/** Extensions and the states they go through. */
module Extensions {
  import opened Wrappers

  datatype ExtensionType = UnknownType | Module | Plugin

  datatype State =
    | Unknown | Discovered | Parsing | Parsed | Corrupted | Resolving | Resolved | Unresolved
    | Disabled | Skipped | Failed | Loading | Loaded | Exporting | Exported | Starting | Started
    | Running | Ending | Ended | Terminating | Terminated

  predicate IsValidTransition(from: State, to: State) {
    match from
    case Unknown => to == Discovered
    case Discovered => to == Parsing || to == Failed
    case Parsing => to == Parsed || to == Corrupted
    case Parsed => to == Resolving || to == Failed || to == Disabled
    case Resolving => to == Resolved || to == Unresolved || to == Disabled
    case Resolved => to == Loading || to == Skipped || to == Failed
    case Loading => to == Loaded || to == Failed
    case Loaded => to == Running || to == Exporting || to == Skipped || to == Failed
    case Exporting => to == Exported || to == Skipped || to == Failed
    case Exported => to == Starting || to == Skipped || to == Failed
    case Starting => to == Started || to == Skipped || to == Failed
    case Started => to == Running || to == Failed
    case Running => to == Ending || to == Failed
    case Ending => to == Ended || to == Failed
    case Ended => to == Terminating
    case Terminating => to == Terminated
    case Failed | Terminated | Corrupted | Unresolved | Disabled | Skipped => false
  }

  /** How far a state is from the beginning of the longest path. */
  function Rank(s: State): (r: nat)
    ensures r <= 16
  {
    match s
    case Unknown => 0
    case Discovered => 1
    case Parsing => 2
    case Parsed => 3
    case Resolving => 4
    case Resolved => 5
    case Loading => 6
    case Loaded => 7
    case Exporting => 8
    case Exported => 9
    case Starting => 10
    case Started => 11
    case Running => 12
    case Ending => 13
    case Ended => 14
    case Terminating => 15
    case Failed | Terminated | Corrupted | Unresolved | Disabled | Skipped => 16
  }

  predicate GaveUp(s: State) {
    s == Failed || s == Skipped || s == Disabled || s == Corrupted || s == Unresolved
  }

  /** A transition that does not give up goes on by one step, or from loading a module straight to running. */
  lemma GoesOnByOne(from: State, to: State)
    requires !GaveUp(to)
    ensures IsValidTransition(from, to) <==>
            || (Rank(to) == Rank(from) + 1 && to != Terminated)
            || (from == Terminating && to == Terminated)
            || (from == Loaded && to == Running)
  {
    hide IsValidTransition, Rank;
    if Rank(from) < 7 {
      EarlyGoesOn(from, to);
    } else {
      LateGoesOn(from, to);
    }
  }

  lemma EarlyGoesOn(from: State, to: State)
    requires !GaveUp(to) && Rank(from) < 7
    ensures IsValidTransition(from, to) <==> Rank(to) == Rank(from) + 1
    ensures from != Terminating && from != Loaded && (to == Terminated ==> Rank(to) != Rank(from) + 1)
  {
  }

  lemma LateGoesOn(from: State, to: State)
    requires !GaveUp(to) && 7 <= Rank(from)
    ensures IsValidTransition(from, to) <==>
            || (Rank(to) == Rank(from) + 1 && to != Terminated)
            || (from == Terminating && to == Terminated)
            || (from == Loaded && to == Running)
  {
  }

  /** Where it is possible to give up, and how. */
  lemma GivesUp(from: State, to: State)
    requires GaveUp(to)
    ensures IsValidTransition(from, to) <==>
            match to
            case Failed => from !in {Unknown, Parsing, Resolving, Ended, Terminating} && Rank(from) < 16
            case Skipped => from in {Resolved, Loaded, Exporting, Exported, Starting}
            case Disabled => from in {Parsed, Resolving}
            case Corrupted => from == Parsing
            case _ => from == Resolving
  {
  }

  /** The states an extension went through, each from the one before by a valid transition. */
  ghost predicate IsHistory(h: seq<State>) {
    && |h| > 0 && h[0] == Discovered
    && forall i :: 0 < i < |h| ==> IsValidTransition(h[i - 1], h[i])
  }

  lemma {:induction false} HistoryRank(h: seq<State>)
    requires IsHistory(h)
    ensures |h| <= Rank(h[|h| - 1])
  {
    if |h| > 1 {
      var front := h[..|h| - 1];
      assert IsValidTransition(h[|h| - 2], h[|h| - 1]);
      HistoryRank(front);
    }
  }

  /** No extension is ever in more than sixteen states, and none is in the same state twice. */
  lemma HistoryIsBounded(h: seq<State>)
    requires IsHistory(h)
    ensures |h| <= 16
    ensures forall i, j :: 0 <= i < j < |h| ==> h[i] != h[j]
  {
    HistoryRank(h);
    forall i, j | 0 <= i < j < |h|
      ensures h[i] != h[j]
    {
      RanksIncrease(h, i, j);
    }
  }

  lemma {:induction false} RanksIncrease(h: seq<State>, i: nat, j: nat)
    requires IsHistory(h) && i < j < |h|
    ensures Rank(h[i]) < Rank(h[j])
    decreases j - i
  {
    assert IsValidTransition(h[j - 1], h[j]);
    if i < j - 1 {
      RanksIncrease(h, i, j - 1);
    }
  }

  /** The bound is reached by a plugin that is loaded, exported, started, ended and unloaded. */
  lemma LongestHistory() returns (h: seq<State>)
    ensures IsHistory(h) && |h| == 16 && h[15] == Terminated
  {
    h := [Discovered, Parsing, Parsed, Resolving, Resolved, Loading, Loaded, Exporting, Exported, Starting, Started,
          Running, Ending, Ended, Terminating, Terminated];
  }

  /** The address of a language module; zero is the null pointer. */
  type Address = nat

  datatype MethodTable = MethodTable(hasUpdate: bool, hasStart: bool, hasEnd: bool, hasExport: bool)

  const NO_METHODS: MethodTable := MethodTable(false, false, false, false)

  /** What of a manifest the life of an extension depends on. */
  datatype ManifestData = ManifestData(name: string, language: string, platforms: seq<string>)

  /**
   * What is on disk: the manifest, if it can be read and is valid, and the language module that the assembly of a
   * module gives, or zero.
   */
  datatype File = File(manifest: Option<ManifestData>, languageModule: Address)

  /** The fields of an extension at one time. */
  datatype Snapshot = Snapshot(id: int, kind: ExtensionType, file: File, state: State, manifest: ManifestData,
                               languageModule: Address, table: MethodTable)

  class Extension {
    const id: int
    const kind: ExtensionType
    const file: File
    var state: State
    var manifest: ManifestData
    var languageModule: Address
    var table: MethodTable

    /** The module whose language module a plugin was loaded with. */
    ghost var provider: Extension?
    /** All states so far. */
    ghost var history: seq<State>

    constructor (id: int, kind: ExtensionType, file: File, name: string)
      ensures Now() == Snapshot(id, kind, file, Discovered, ManifestData(name, "", []), 0, NO_METHODS)
      ensures provider == null && Traced()
    {
      this.id, this.kind, this.file := id, kind, file;
      state := Discovered;
      manifest := ManifestData(name, "", []);
      languageModule := 0;
      table := NO_METHODS;
      provider := null;
      history := [Discovered];
    }

    ghost function Now(): Snapshot
      reads this
    {
      Snapshot(id, kind, file, state, manifest, languageModule, table)
    }

    /** Every change of the state so far was a valid transition. */
    ghost predicate Traced()
      reads `history, `state
    {
      IsHistory(history) && history[|history| - 1] == state
    }

    /** The only method that changes the state. */
    method SetState(newState: State)
      requires Traced() && IsValidTransition(state, newState)
      modifies `state, `history
      ensures Traced() && Now() == old(Now()).(state := newState)
      ensures history == old(history) + [newState]
    {
      state := newState;
      history := history + [newState];
    }

    method StartOperation(newState: State)
      requires Traced() && IsValidTransition(state, newState)
      modifies `state, `history
      ensures Traced() && Now() == old(Now()).(state := newState)
      ensures history == old(history) + [newState]
    {
      SetState(newState);
    }

    method EndOperation(newState: State)
      requires Traced() && IsValidTransition(state, newState)
      modifies `state, `history
      ensures Traced() && Now() == old(Now()).(state := newState)
      ensures history == old(history) + [newState]
    {
      SetState(newState);
    }

    method SetManifest(m: ManifestData)
      modifies `manifest
      ensures Now() == old(Now()).(manifest := m)
    {
      manifest := m;
    }

    /** A null pointer refers to no module. */
    method SetLanguageModule(address: Address, ghost from: Extension?)
      modifies `languageModule, `provider
      ensures Now() == old(Now()).(languageModule := address) && provider == from
    {
      languageModule := address;
      provider := from;
    }

    method SetMethodTable(t: MethodTable)
      modifies `table
      ensures Now() == old(Now()).(table := t)
    {
      table := t;
    }
  }
}
