/** Incremental invalidation of declarations: the forward rescan within one module
    (src/ast_serde.c, propagate_declaration_invalidation) and the reverse-graph form over all
    modules (src/main.c, propagate_global_invalidation). */
module Invalidation {

  datatype Name = Name(text: string)

  /** A declaration of the previous build, as read from the cache. */
  datatype OldDecl = OldDecl(name: Name, hash: nat)

  class Decl {
    const name: Name
    const hash: nat
    const callsTo: seq<Name>
    const usesTypes: seq<Name>
    var isDirty: bool

    constructor (name: Name, hash: nat, callsTo: seq<Name>, usesTypes: seq<Name>)
      ensures this.name == name && this.hash == hash && this.callsTo == callsTo && this.usesTypes == usesTypes
      ensures !isDirty
    {
      this.name, this.hash, this.callsTo, this.usesTypes := name, hash, callsTo, usesTypes;
      isDirty := false;
    }
  }

  // ---------------------------------------------------------------- what should be dirty

  /** Declaration `a` calls or uses a type by the name of `b`. */
  predicate DependsOn(a: Decl, b: Decl) {
    Mentions(a, b.name)
  }

  predicate Mentions(d: Decl, name: Name) {
    name in d.callsTo || name in d.usesTypes
  }

  /** A chain of dependencies, by positions in `ds`. */
  ghost predicate Chain(ds: seq<Decl>, c: seq<nat>) {
    && |c| > 0 && (forall k :: 0 <= k < |c| ==> c[k] < |ds|)
    && forall k :: 0 < k < |c| ==> DependsOn(ds[c[k - 1]], ds[c[k]])
  }

  /** The declaration at `i` is in the seed, or reaches the seed through dependencies. */
  ghost predicate Tainted(ds: seq<Decl>, seed: set<nat>, i: nat) {
    exists c :: Chain(ds, c) && c[0] == i && c[|c| - 1] in seed
  }

  ghost function TaintedSet(ds: seq<Decl>, seed: set<nat>): set<nat> {
    set i: nat | i < |ds| && Tainted(ds, seed, i)
  }

  ghost predicate Closed(ds: seq<Decl>, xs: set<nat>) {
    forall i: nat, j: nat {:trigger DependsOn(ds[i], ds[j])} ::
      i < |ds| && j < |ds| && j in xs && DependsOn(ds[i], ds[j]) ==> i in xs
  }

  lemma {:induction false} TaintedStep(ds: seq<Decl>, seed: set<nat>, i: nat, j: nat)
    requires i < |ds| && j < |ds| && DependsOn(ds[i], ds[j]) && Tainted(ds, seed, j)
    ensures Tainted(ds, seed, i)
  {
    var c :| Chain(ds, c) && c[0] == j && c[|c| - 1] in seed;
    assert Chain(ds, [i] + c);
  }

  lemma {:induction false} TaintedSeed(ds: seq<Decl>, seed: set<nat>, i: nat)
    requires i < |ds| && i in seed
    ensures Tainted(ds, seed, i)
  {
    assert Chain(ds, [i]);
  }

  /** The tainted declarations are the least set that holds the seed and is closed under
      being depended on. */
  lemma {:induction false} TaintedIsLeast(ds: seq<Decl>, seed: set<nat>, xs: set<nat>)
    requires Closed(ds, xs) && (forall i :: i in seed && i < |ds| ==> i in xs)
    ensures forall i :: Tainted(ds, seed, i) ==> i in xs
  {
    forall i | Tainted(ds, seed, i) ensures i in xs {
      var c :| Chain(ds, c) && c[0] == i && c[|c| - 1] in seed;
      ChainInClosed(ds, xs, c);
    }
  }

  lemma {:induction false} ChainInClosed(ds: seq<Decl>, xs: set<nat>, c: seq<nat>)
    requires Closed(ds, xs) && Chain(ds, c) && c[|c| - 1] in xs
    ensures c[0] in xs
    decreases |c|
  {
    if |c| > 1 {
      assert Chain(ds, c[1..]) && c[1..][|c| - 2] == c[|c| - 1];
      ChainInClosed(ds, xs, c[1..]);
      assert DependsOn(ds[c[0]], ds[c[1]]);
    }
  }

  // ---------------------------------------------------------------- the worklist

  ghost predicate Distinct<T>(ws: seq<T>) {
    forall i, j :: 0 <= i < j < |ws| ==> ws[i] != ws[j]
  }

  /** A list of different positions below `n` that misses one has room left. */
  lemma {:induction false} RoomLeft(n: nat, ws: seq<nat>, missing: nat)
    requires Distinct(ws) && (forall k :: 0 <= k < |ws| ==> ws[k] < n)
    requires missing < n && missing !in ws
    ensures |ws| < n
  {
    Pigeonhole(n, ws + [missing]);
  }

  lemma {:induction false} Pigeonhole(n: nat, ws: seq<nat>)
    requires Distinct(ws) && (forall k :: 0 <= k < |ws| ==> ws[k] < n)
    ensures |ws| <= n
  {
    var xs := set w | w in ws;
    SetOfDistinct(ws);
    DirtyFits(n, xs);
  }

  lemma {:induction false} SetOfDistinct<T>(ws: seq<T>)
    requires Distinct(ws)
    ensures |set w | w in ws| == |ws|
  {
    if ws != [] {
      SetOfDistinct(ws[1..]);
      assert (set w | w in ws) == (set w | w in ws[1..]) + {ws[0]};
    }
  }

  function Upto(n: nat): (r: set<nat>)
    ensures |r| == n && forall i: nat :: i in r <==> i < n
  {
    if n == 0 then {} else Upto(n - 1) + {n - 1}
  }

  lemma {:induction false} DirtyFits(n: nat, dirty: set<nat>)
    requires forall i :: i in dirty ==> i < n
    ensures |dirty| <= n
  {
    assert dirty <= Upto(n);
    assert Upto(n) == dirty + (Upto(n) - dirty);
  }

  /** Between steps of either propagation, with `dirty` the positions marked so far: they lie
      in `goal`, which is closed under being depended on, and the worklist holds different
      dirty positions. */
  ghost predicate Progress(ds: seq<Decl>, goal: set<nat>, dirty: set<nat>, waiting: seq<nat>) {
    && Distinct(waiting)
    && (forall k :: 0 <= k < |waiting| ==> waiting[k] in dirty)
    && (forall i :: i in dirty ==> i < |ds| && i in goal)
    && Closed(ds, goal)
  }

  /** What depends on a dirty declaration that is neither waiting nor at `except` is dirty. */
  ghost predicate HandledBut(ds: seq<Decl>, dirty: set<nat>, waiting: seq<nat>, except: int) {
    forall i: nat, j: nat {:trigger DependsOn(ds[i], ds[j])} ::
      i < |ds| && j < |ds| && DependsOn(ds[i], ds[j]) && j in dirty && j !in waiting && j != except ==> i in dirty
  }

  /** Marking a clean declaration that depends on a dirty one keeps this, and the worklist
      has room for it. */
  lemma {:induction false} MarkStep(ds: seq<Decl>, goal: set<nat>, dirty: set<nat>, waiting: seq<nat>, j: nat, m: nat)
    requires Progress(ds, goal, dirty, waiting) && HandledBut(ds, dirty, waiting, j)
    requires m < |ds| && j < |ds| && j in dirty && m !in dirty && DependsOn(ds[m], ds[j])
    ensures |waiting| < |ds| && |dirty + {m}| == |dirty| + 1 <= |ds|
    ensures Progress(ds, goal, dirty + {m}, waiting + [m]) && HandledBut(ds, dirty + {m}, waiting + [m], j)
  {
    RoomLeft(|ds|, waiting, m);
    DirtyFits(|ds|, dirty + {m});
    assert m in waiting + [m];
    forall k | k in waiting ensures k in waiting + [m] {}
  }

  lemma {:induction false} PopStep(ds: seq<Decl>, goal: set<nat>, dirty: set<nat>, waiting: seq<nat>)
    requires Progress(ds, goal, dirty, waiting) && HandledBut(ds, dirty, waiting, -1) && waiting != []
    ensures var top := |waiting| - 1;
            && waiting[top] in dirty && waiting[top] < |ds|
            && Progress(ds, goal, dirty, waiting[..top]) && HandledBut(ds, dirty, waiting[..top], waiting[top])
  {
    var top := |waiting| - 1;
    forall k | k in waiting && k != waiting[top] ensures k in waiting[..top] {
      var i :| 0 <= i < |waiting| && waiting[i] == k;
      assert waiting[..top][i] == k;
    }
  }

  lemma {:induction false} HandledAll(ds: seq<Decl>, dirty: set<nat>, waiting: seq<nat>, j: nat)
    requires HandledBut(ds, dirty, waiting, j) && j < |ds|
    requires forall i: nat :: i < |ds| && DependsOn(ds[i], ds[j]) ==> i in dirty
    ensures HandledBut(ds, dirty, waiting, -1)
  {
  }

  lemma {:induction false} AtStart(ds: seq<Decl>, seed: set<nat>, waiting: seq<nat>)
    requires Distinct(waiting) && forall i: nat :: i in waiting <==> i < |ds| && i in seed
    requires forall i :: i in seed ==> i < |ds|
    ensures Progress(ds, TaintedSet(ds, seed), seed, waiting) && HandledBut(ds, seed, waiting, -1)
  {
    forall i | i in seed ensures Tainted(ds, seed, i) { TaintedSeed(ds, seed, i); }
    forall i: nat, j: nat | i < |ds| && j < |ds| && Tainted(ds, seed, j) && DependsOn(ds[i], ds[j])
      ensures Tainted(ds, seed, i)
    {
      TaintedStep(ds, seed, i, j);
    }
    forall k | 0 <= k < |waiting| ensures waiting[k] in seed { assert waiting[k] in waiting; }
  }

  lemma {:induction false} AtEnd(ds: seq<Decl>, seed: set<nat>, dirty: set<nat>)
    requires Progress(ds, TaintedSet(ds, seed), dirty, []) && HandledBut(ds, dirty, [], -1) && seed <= dirty
    ensures dirty == TaintedSet(ds, seed)
  {
    TaintedIsLeast(ds, seed, dirty);
  }

  // ---------------------------------------------------------------- the fields and the array

  /** The is_dirty fields are set at exactly the positions of `dirty`. */
  ghost predicate DirtyAt(ds: seq<Decl>, dirty: set<nat>)
    reads ds
  {
    forall i: nat :: i < |ds| ==> (ds[i].isDirty <==> i in dirty)
  }

  ghost function DirtySet(ds: seq<Decl>): set<nat>
    reads ds
  {
    set i: nat | i < |ds| && ds[i].isDirty
  }

  /** The first `top` slots of the worklist hold the declarations at `waiting`. */
  ghost predicate Listed(ds: seq<Decl>, worklist: array<Decl>, top: int, waiting: seq<nat>)
    reads worklist
  {
    && worklist.Length == |ds| && top == |waiting| <= |ds|
    && forall k :: 0 <= k < top ==> waiting[k] < |ds| && worklist[k] == ds[waiting[k]]
  }

  /** Marks a clean declaration and pushes it. */
  method MarkAndPush(ds: seq<Decl>, d: Decl, ghost m: nat, worklist: array<Decl>, top: nat, ghost dirty: set<nat>,
                     ghost waiting: seq<nat>)
    requires Distinct(ds) && m < |ds| && ds[m] == d && !d.isDirty && |waiting| < |ds|
    requires Listed(ds, worklist, top, waiting) && DirtyAt(ds, dirty)
    modifies d, worklist
    ensures Listed(ds, worklist, top + 1, waiting + [m]) && DirtyAt(ds, dirty + {m})
  {
    d.isDirty := true;
    worklist[top] := d;
  }

  /** Puts the dirty declarations on a worklist with one slot for each declaration. */
  method Enqueue(ds: seq<Decl>, ghost seed: set<nat>) returns (worklist: array<Decl>, top: nat, ghost waiting: seq<nat>)
    requires |ds| > 0 && DirtyAt(ds, seed) && (forall i :: i in seed ==> i < |ds|)
    ensures fresh(worklist) && Listed(ds, worklist, top, waiting)
    ensures Progress(ds, TaintedSet(ds, seed), seed, waiting) && HandledBut(ds, seed, waiting, -1)
  {
    worklist := new Decl[|ds|](_ => ds[0]);
    top, waiting := 0, [];
    for m := 0 to |ds|
      invariant Listed(ds, worklist, top, waiting) && Distinct(waiting) && top <= m
      invariant forall k :: 0 <= k < top ==> waiting[k] < m && waiting[k] in seed
      invariant forall i: nat :: i < m && i in seed ==> i in waiting
    {
      if ds[m].isDirty {
        worklist[top], waiting := ds[m], waiting + [m];
        top := top + 1;
      }
    }
    AtStart(ds, seed, waiting);
  }

  // ---------------------------------------------------------------- the forward rescan

  function FindByName(olds: seq<OldDecl>, name: Name): (k: nat)
    ensures k <= |olds|
    ensures k < |olds| ==> olds[k].name == name
    ensures forall j :: 0 <= j < k ==> olds[j].name != name
  {
    if olds == [] then 0 else if olds[0].name == name then 0 else 1 + FindByName(olds[1..], name)
  }

  /** New, or changed against the first declaration of the name in the previous build. */
  predicate Changed(olds: seq<OldDecl>, d: Decl) {
    var k := FindByName(olds, d.name);
    k == |olds| || olds[k].hash != d.hash
  }

  /** The previous build has another declaration first under the name, or none. */
  ghost predicate NewOrChanged(olds: seq<OldDecl>, d: Decl) {
    || (forall k :: 0 <= k < |olds| ==> olds[k].name != d.name)
    || exists k :: 0 <= k < |olds| && olds[k].name == d.name && olds[k].hash != d.hash
                   && forall l :: 0 <= l < k ==> olds[l].name != d.name
  }

  /** The declarations that are dirty on their own merits. */
  ghost function ChangedSet(olds: seq<OldDecl>, ds: seq<Decl>): set<nat> {
    set i: nat | i < |ds| && NewOrChanged(olds, ds[i])
  }

  lemma {:induction false} ChangedIsSeen(olds: seq<OldDecl>, d: Decl)
    ensures Changed(olds, d) <==> NewOrChanged(olds, d)
  {
  }

  /** propagate_declaration_invalidation marks exactly the declarations that are new, changed
      or reach such a one. */
  method PropagateDeclarationInvalidation(olds: seq<OldDecl>, ds: seq<Decl>)
    requires Distinct(ds)
    modifies ds
    ensures DirtyAt(ds, TaintedSet(ds, ChangedSet(olds, ds)))
  {
    ghost var seed := ChangedSet(olds, ds);
    for m := 0 to |ds|
      invariant forall i: nat :: i < m ==> (ds[i].isDirty <==> i in seed)
    {
      ds[m].isDirty := Changed(olds, ds[m]);
      ChangedIsSeen(olds, ds[m]);
    }
    assert DirtySet(ds) == seed;
    PropagateByRescan(ds);
  }

  /** The rescan marks what reaches a declaration dirty at the start, and its worklist of |ds|
      slots never overflows. */
  method PropagateByRescan(ds: seq<Decl>)
    requires Distinct(ds)
    modifies ds
    ensures DirtyAt(ds, TaintedSet(ds, old(DirtySet(ds))))
  {
    if |ds| == 0 { return; }
    ghost var seed := DirtySet(ds);
    var worklist, top, waiting := Enqueue(ds, seed);
    ghost var dirty, goal := seed, TaintedSet(ds, seed);
    DirtyFits(|ds|, dirty);
    while top > 0
      invariant Listed(ds, worklist, top, waiting) && fresh(worklist) && DirtyAt(ds, dirty)
      invariant Progress(ds, goal, dirty, waiting) && HandledBut(ds, dirty, waiting, -1)
      invariant seed <= dirty && |dirty| <= |ds|
      decreases 2 * (|ds| - |dirty|) + top
    {
      top, dirty, waiting := HandleLast(ds, goal, worklist, top, dirty, waiting);
    }
    AtEnd(ds, seed, dirty);
  }

  /** Takes the last dirty declaration off the worklist and handles it. */
  method HandleLast(ds: seq<Decl>, ghost goal: set<nat>, worklist: array<Decl>, top: nat, ghost dirty: set<nat>,
                    ghost waiting: seq<nat>)
    returns (top': nat, ghost dirty': set<nat>, ghost waiting': seq<nat>)
    requires Distinct(ds) && top > 0
    requires Listed(ds, worklist, top, waiting) && DirtyAt(ds, dirty)
    requires Progress(ds, goal, dirty, waiting) && HandledBut(ds, dirty, waiting, -1)
    modifies ds, worklist
    ensures Listed(ds, worklist, top', waiting') && DirtyAt(ds, dirty')
    ensures Progress(ds, goal, dirty', waiting') && HandledBut(ds, dirty', waiting', -1)
    ensures dirty <= dirty' && |dirty'| <= |ds| && 2 * (|ds| - |dirty'|) + top' < 2 * (|ds| - |dirty|) + top
  {
    PopStep(ds, goal, dirty, waiting);
    assert Listed(ds, worklist, top - 1, waiting[..top - 1]);
    top', dirty', waiting' :=
      Rescan(ds, goal, worklist[top - 1], waiting[top - 1], worklist, top - 1, dirty, waiting[..top - 1]);
  }

  /** Scans all declarations for ones that depend on the dirty one just taken. */
  method Rescan(ds: seq<Decl>, ghost goal: set<nat>, dirtyItem: Decl, ghost j: nat, worklist: array<Decl>,
                top: nat, ghost dirty: set<nat>, ghost waiting: seq<nat>)
    returns (top': nat, ghost dirty': set<nat>, ghost waiting': seq<nat>)
    requires Distinct(ds) && j < |ds| && dirtyItem == ds[j] && j in dirty
    requires Listed(ds, worklist, top, waiting) && DirtyAt(ds, dirty)
    requires Progress(ds, goal, dirty, waiting) && HandledBut(ds, dirty, waiting, j)
    modifies ds, worklist
    ensures Listed(ds, worklist, top', waiting') && DirtyAt(ds, dirty')
    ensures Progress(ds, goal, dirty', waiting') && HandledBut(ds, dirty', waiting', -1)
    ensures dirty <= dirty' && |dirty'| <= |ds| && 2 * (|ds| - |dirty'|) + top' <= 2 * (|ds| - |dirty|) + top
  {
    top', dirty', waiting' := top, dirty, waiting;
    DirtyFits(|ds|, dirty);
    for m := 0 to |ds|
      invariant Listed(ds, worklist, top', waiting') && DirtyAt(ds, dirty') && j in dirty'
      invariant Progress(ds, goal, dirty', waiting') && HandledBut(ds, dirty', waiting', j)
      invariant forall i: nat :: i < m && DependsOn(ds[i], dirtyItem) ==> i in dirty'
      invariant dirty <= dirty' && |dirty'| <= |ds| && 2 * (|ds| - |dirty'|) + top' <= 2 * (|ds| - |dirty|) + top
    {
      if !ds[m].isDirty && DependsOn(ds[m], dirtyItem) {
        ghost var n: nat := m;
        MarkStep(ds, goal, dirty', waiting', j, n);
        MarkAndPush(ds, ds[m], n, worklist, top', dirty', waiting');
        top', dirty', waiting' := top' + 1, dirty' + {n}, waiting' + [n];
      }
    }
    HandledAll(ds, dirty', waiting', j);
  }

  // ---------------------------------------------------------------- the reverse graph

  function Links<T>(rev: map<Name, seq<T>>, name: Name): seq<T> {
    if name in rev then rev[name] else []
  }

  /** The lists of `rev` hold the declarations at the positions in the lists of `at`. */
  ghost predicate Linked(ds: seq<Decl>, rev: map<Name, seq<Decl>>, at: map<Name, seq<nat>>) {
    && rev.Keys == at.Keys
    && forall name :: name in at ==> Placed(ds, rev[name], at[name])
  }

  ghost predicate Placed(ds: seq<Decl>, list: seq<Decl>, at: seq<nat>) {
    |list| == |at| && forall k :: 0 <= k < |at| ==> at[k] < |ds| && list[k] == ds[at[k]]
  }

  method LinkAll(ds: seq<Decl>, m: nat, names: seq<Name>, rev: map<Name, seq<Decl>>, ghost at: map<Name, seq<nat>>)
    returns (rev': map<Name, seq<Decl>>, ghost at': map<Name, seq<nat>>)
    requires m < |ds| && Linked(ds, rev, at)
    ensures Linked(ds, rev', at')
    ensures forall name, i: nat :: i in Links(at', name) <==> i in Links(at, name) || (i == m && name in names)
  {
    rev', at' := rev, at;
    for k := 0 to |names|
      invariant Linked(ds, rev', at')
      invariant forall name, i: nat :: i in Links(at', name) <==> i in Links(at, name) || (i == m && name in names[..k])
    {
      rev' := rev'[names[k] := [ds[m]] + Links(rev', names[k])];
      at' := at'[names[k] := [m] + Links(at', names[k])];
      assert names[..k + 1] == names[..k] + [names[k]];
    }
    assert names[..|names|] == names;
  }

  method BuildReverse(ds: seq<Decl>) returns (rev: map<Name, seq<Decl>>, ghost at: map<Name, seq<nat>>)
    ensures Linked(ds, rev, at)
    ensures forall name, i: nat :: i in Links(at, name) <==> i < |ds| && Mentions(ds[i], name)
  {
    rev, at := map[], map[];
    assert forall name :: Links(at, name) == [];
    for m := 0 to |ds|
      invariant Linked(ds, rev, at)
      invariant forall name, i: nat :: i in Links(at, name) <==> i < m && Mentions(ds[i], name)
    {
      rev, at := LinkAll(ds, m, ds[m].callsTo, rev, at);
      rev, at := LinkAll(ds, m, ds[m].usesTypes, rev, at);
    }
  }

  /** The reverse graph gives the same marks as the rescan, with a worklist of |ds| slots. */
  method PropagateGlobalInvalidation(ds: seq<Decl>)
    requires Distinct(ds)
    modifies ds
    ensures DirtyAt(ds, TaintedSet(ds, old(DirtySet(ds))))
  {
    var rev, at := BuildReverse(ds);
    if |ds| == 0 { return; }
    ghost var seed := DirtySet(ds);
    var worklist, top, waiting := Enqueue(ds, seed);
    ghost var dirty, goal := seed, TaintedSet(ds, seed);
    DirtyFits(|ds|, dirty);
    while top > 0
      invariant Listed(ds, worklist, top, waiting) && fresh(worklist) && DirtyAt(ds, dirty)
      invariant Progress(ds, goal, dirty, waiting) && HandledBut(ds, dirty, waiting, -1)
      invariant seed <= dirty && |dirty| <= |ds|
      decreases 2 * (|ds| - |dirty|) + top
    {
      top, dirty, waiting := FollowLast(ds, goal, rev, at, worklist, top, dirty, waiting);
    }
    AtEnd(ds, seed, dirty);
  }

  /** Takes the last dirty declaration off the worklist and follows its reverse links. */
  method FollowLast(ds: seq<Decl>, ghost goal: set<nat>, rev: map<Name, seq<Decl>>, ghost at: map<Name, seq<nat>>,
                    worklist: array<Decl>, top: nat, ghost dirty: set<nat>, ghost waiting: seq<nat>)
    returns (top': nat, ghost dirty': set<nat>, ghost waiting': seq<nat>)
    requires Distinct(ds) && top > 0 && Linked(ds, rev, at)
    requires forall name, i: nat :: i in Links(at, name) <==> i < |ds| && Mentions(ds[i], name)
    requires Listed(ds, worklist, top, waiting) && DirtyAt(ds, dirty)
    requires Progress(ds, goal, dirty, waiting) && HandledBut(ds, dirty, waiting, -1)
    modifies ds, worklist
    ensures Listed(ds, worklist, top', waiting') && DirtyAt(ds, dirty')
    ensures Progress(ds, goal, dirty', waiting') && HandledBut(ds, dirty', waiting', -1)
    ensures dirty <= dirty' && |dirty'| <= |ds| && 2 * (|ds| - |dirty'|) + top' < 2 * (|ds| - |dirty|) + top
  {
    PopStep(ds, goal, dirty, waiting);
    assert Listed(ds, worklist, top - 1, waiting[..top - 1]);
    ghost var j := waiting[top - 1];
    var name := worklist[top - 1].name;
    forall k | 0 <= k < |Links(at, name)| ensures DependsOn(ds[Links(at, name)[k]], ds[j]) {
      assert Links(at, name)[k] in Links(at, name);
    }
    top', dirty', waiting' := MarkDependents(ds, goal, Links(rev, name), Links(at, name), j,
                                             worklist, top - 1, dirty, waiting[..top - 1]);
    HandledAll(ds, dirty', waiting', j);
  }

  method MarkDependents(ds: seq<Decl>, ghost goal: set<nat>, dependents: seq<Decl>, ghost at: seq<nat>, ghost j: nat,
                        worklist: array<Decl>, top: nat, ghost dirty: set<nat>, ghost waiting: seq<nat>)
    returns (top': nat, ghost dirty': set<nat>, ghost waiting': seq<nat>)
    requires Distinct(ds) && Placed(ds, dependents, at)
    requires j < |ds| && j in dirty && forall k :: 0 <= k < |at| ==> DependsOn(ds[at[k]], ds[j])
    requires Listed(ds, worklist, top, waiting) && DirtyAt(ds, dirty)
    requires Progress(ds, goal, dirty, waiting) && HandledBut(ds, dirty, waiting, j)
    modifies ds, worklist
    ensures Listed(ds, worklist, top', waiting') && DirtyAt(ds, dirty')
    ensures Progress(ds, goal, dirty', waiting') && HandledBut(ds, dirty', waiting', j)
    ensures forall k :: 0 <= k < |at| ==> at[k] in dirty'
    ensures dirty <= dirty' && |dirty'| <= |ds| && 2 * (|ds| - |dirty'|) + top' <= 2 * (|ds| - |dirty|) + top
  {
    top', dirty', waiting' := top, dirty, waiting;
    DirtyFits(|ds|, dirty);
    for k := 0 to |dependents|
      invariant Listed(ds, worklist, top', waiting') && DirtyAt(ds, dirty') && j in dirty'
      invariant Progress(ds, goal, dirty', waiting') && HandledBut(ds, dirty', waiting', j)
      invariant forall i :: 0 <= i < k ==> at[i] in dirty'
      invariant dirty <= dirty' && |dirty'| <= |ds| && 2 * (|ds| - |dirty'|) + top' <= 2 * (|ds| - |dirty|) + top
    {
      if !dependents[k].isDirty {
        ghost var n: nat := at[k];
        MarkStep(ds, goal, dirty', waiting', j, n);
        MarkAndPush(ds, dependents[k], n, worklist, top', dirty', waiting');
        top', dirty', waiting' := top' + 1, dirty' + {n}, waiting' + [n];
      }
    }
  }

  // ---------------------------------------------------------------- the order of the modules

  /** Listing the same declarations in another order, as another bucket order of the module
      table does, taints the same ones. */
  lemma {:induction false} OrderDoesNotMatter(ds: seq<Decl>, es: seq<Decl>, p: seq<nat>, q: seq<nat>, seed: set<nat>,
                                              seed': set<nat>, i: nat)
    requires Renumbers(ds, es, p, seed, seed') && Renumbers(es, ds, q, seed', seed)
    requires i < |ds| && p[i] < |es| && q[p[i]] == i
    ensures Tainted(ds, seed, i) <==> Tainted(es, seed', p[i])
  {
    if Tainted(ds, seed, i) { TaintMoves(ds, es, p, seed, seed', i); }
    if Tainted(es, seed', p[i]) { TaintMoves(es, ds, q, seed', seed, p[i]); }
  }

  /** `p` gives the place in `es` of each declaration of `ds`, and the seeds correspond. */
  ghost predicate Renumbers(ds: seq<Decl>, es: seq<Decl>, p: seq<nat>, seed: set<nat>, seed': set<nat>) {
    && |p| == |ds| && (forall i :: 0 <= i < |p| ==> p[i] < |es| && es[p[i]] == ds[i])
    && forall i :: 0 <= i < |p| ==> (i in seed <==> p[i] in seed')
  }

  lemma {:induction false} TaintMoves(ds: seq<Decl>, es: seq<Decl>, p: seq<nat>, seed: set<nat>, seed': set<nat>,
                                      i: nat)
    requires Renumbers(ds, es, p, seed, seed') && i < |ds| && Tainted(ds, seed, i)
    ensures Tainted(es, seed', p[i])
  {
    var c :| Chain(ds, c) && c[0] == i && c[|c| - 1] in seed;
    var c' := seq(|c|, k requires 0 <= k < |c| => p[c[k]]);
    assert Chain(es, c') && c'[0] == p[i] && c'[|c'| - 1] in seed';
  }
}
