/** Which nodes the AST cache writes, and in which order (src/ast_serde.c, gather_enter): a pass of
    the visitor that starts nested traversals for the dimension sizes of types. */
module AstGather {
  import opened Ast
  import opened Visitor
  import opened Stream
  import opened StructEqual

  type u64 = n: nat | n < 0x1_0000_0000_0000_0000

  // ---------------------------------------------------------------- nodes as machine words

  /** A node as the 26 machine words of its struct, with the sizes of the dimensions of its
      value's type and of its declared type; an absent size array is all NULL. */
  datatype Node = Node(words: seq<u64>, dims1: seq<u64>, dims2: seq<u64>)

  const NODE_WORDS: nat := 26
  const NEXT_WORD: nat := 1

  /** The memory of the compiler that writes. */
  type Heap = map<Ptr, Node>

  /** The kinds in the order of the enumeration. */
  const KINDS: seq<Kind> := [
    ERROR, BINOP, UOP, ADDR_OF, DEREF, IDENTIF, VAR_DECL, NUM_LIT, STR_LIT, CHAR_LIT, BOOL_LIT, ARRAY_LIT, IF, BLOCK,
    STRUCT, UNION, ENUM, ENUM_MEMBER, DEFER, FOR, WHILE, FUNC, FUNC_CALL, PARAM, RET, INDEX, MEMBER, SWITCH, CASE,
    EXTERN, USE, NULL_LIT, BREAK, CONTINUE, CAST, SIZEOF, PROGRAM]

  function KindOf(code: nat): Kind {
    if code < |KINDS| then KINDS[code] else ERROR
  }

  /** Where the union, which begins at word 13, keeps the child pointers: behind a token (three
      words), a type (seven words) or both. */
  function KidWords(k: Kind): (r: seq<nat>)
    ensures forall i :: 0 <= i < |r| ==> r[i] < NODE_WORDS
  {
    match k
    case PROGRAM | BLOCK | ARRAY_LIT | EXTERN | MEMBER => [13]
    case FUNC_CALL | INDEX | CASE => [13, 14]
    case SWITCH => [13, 14, 15]
    case UOP | ADDR_OF | DEREF | STRUCT | UNION | ENUM | ENUM_MEMBER | DEFER | RET => [16]
    case BINOP | WHILE => [16, 17]
    case IF => [16, 17, 18]
    case FOR => [16, 17, 18, 19]
    case VAR_DECL => [23]
    case FUNC => [24, 25]
    case CAST => [20]
    case SIZEOF => [21]
    case _ => []
  }

  function WordAt(words: seq<nat>, i: nat): nat {
    if i < |words| then words[i] else 0
  }

  const NO_TOKEN := Token(0, [])
  const NO_TYPE := DataType(NO_TOKEN, 0, 0, false, false, false, false)

  /** What a traversal sees in the words of a node: its kind, its sibling and its children, and
      whether a sizeof is of a type. */
  function CellOf(words: seq<nat>): Cell {
    var kind := KindOf(WordAt(words, 0) % U32);
    var at := KidWords(kind);
    var kids := seq(|at|, i requires 0 <= i < |at| => WordAt(words, at[i]));
    var flags := if kind.SIZEOF? then [WordAt(words, 13) % 0x100 != 0] else [];
    Cell(kind, WordAt(words, NEXT_WORD), kids, NO_TOKEN, NO_TOKEN, flags, NO_TYPE, 0)
  }

  function MemoryOf(h: Heap): Memory {
    map p | p in h :: CellOf(h[p].words)
  }

  // ---------------------------------------------------------------- what is reached

  /** From each node, the nodes visited from it. */
  type Graph = map<Ptr, set<Ptr>>

  function SetOf(ps: seq<Ptr>): set<Ptr> {
    set p | p in ps
  }

  /** The children of node `p` and the sizes of both kinds of dimensions. */
  function Visited(h: Heap, p: Ptr): set<Ptr>
    requires p in h
  {
    var items := Items(MemoryOf(h), p);
    (if items.Some? then SetOf(Children(items.value)) else {}) + (SetOf(h[p].dims1 + h[p].dims2) - {NULL})
  }

  ghost predicate IsGraph(h: Heap, g: Graph) {
    g.Keys == h.Keys && forall p {:trigger Visited(h, p)} :: p in h ==> g[p] == Visited(h, p)
  }

  function GraphOf(h: Heap): Graph {
    map p | p in h :: Visited(h, p)
  }

  ghost predicate Edge(g: Graph, p: Ptr, q: Ptr) {
    p in g && q in g[p]
  }

  /** A chain of `n` visits leads from `p` to `q`. */
  ghost predicate ReachedIn(g: Graph, p: Ptr, q: Ptr, n: nat)
    decreases n
  {
    if n == 0 then q == p else exists m :: Edge(g, p, m) && ReachedIn(g, m, q, n - 1)
  }

  ghost predicate Reached(g: Graph, p: Ptr, q: Ptr) {
    exists n: nat :: ReachedIn(g, p, q, n)
  }

  lemma {:induction false} ReachedSelf(g: Graph, p: Ptr)
    ensures Reached(g, p, p)
  {
    assert ReachedIn(g, p, p, 0);
  }

  lemma {:induction false} ReachedOver(g: Graph, p: Ptr, m: Ptr, q: Ptr)
    requires Edge(g, p, m) && Reached(g, m, q)
    ensures Reached(g, p, q)
  {
    var n: nat :| ReachedIn(g, m, q, n);
    assert ReachedIn(g, p, q, n + 1);
  }

  lemma {:induction false} ReachedOn(g: Graph, p: Ptr, m: Ptr, q: Ptr, n: nat)
    requires ReachedIn(g, p, m, n) && Edge(g, m, q)
    ensures Reached(g, p, q)
    decreases n
  {
    if n == 0 {
      ReachedSelf(g, q);
      ReachedOver(g, p, q, q);
    } else {
      var k :| Edge(g, p, k) && ReachedIn(g, k, m, n - 1);
      ReachedOn(g, k, m, q, n - 1);
      ReachedOver(g, p, k, q);
    }
  }

  /** What is closed under visits holds all that is reached from it. */
  lemma {:induction false} ClosedReaches(g: Graph, ps: set<Ptr>, p: Ptr, q: Ptr, n: nat)
    requires p in ps && ReachedIn(g, p, q, n) && forall m, r :: m in ps && Edge(g, m, r) ==> r in ps
    ensures q in ps
    decreases n
  {
    if n > 0 {
      var m :| Edge(g, p, m) && ReachedIn(g, m, q, n - 1);
      ClosedReaches(g, ps, m, q, n - 1);
    }
  }

  // ---------------------------------------------------------------- trees below a node

  /** The children below `p` lie in memory and end within `depth` levels. */
  ghost predicate Ends(mem: Memory, p: Ptr, depth: nat)
    decreases depth
  {
    && p in mem && depth > 0 && Items(mem, p).Some?
    && forall i :: 0 <= i < |Children(Items(mem, p).value)| ==> Ends(mem, Children(Items(mem, p).value)[i], depth - 1)
  }

  /** The tree of children below `p`. */
  function Grow(mem: Memory, p: Ptr, depth: nat): Shape
    decreases depth
  {
    if depth == 0 || Items(mem, p).None? then Shape(p, [])
    else
      var ps := Children(Items(mem, p).value);
      Shape(p, seq(|ps|, i requires 0 <= i < |ps| => Grow(mem, ps[i], depth - 1)))
  }

  lemma {:induction false} GrowShows(mem: Memory, p: Ptr, depth: nat)
    requires Ends(mem, p, depth)
    ensures Grow(mem, p, depth).p == p && Shows(mem, Grow(mem, p, depth))
    decreases depth
  {
    var ps, sh := Children(Items(mem, p).value), Grow(mem, p, depth);
    forall i | 0 <= i < |ps| ensures sh.kids[i].p == ps[i] && Shows(mem, sh.kids[i]) {
      GrowShows(mem, ps[i], depth - 1);
    }
    assert Roots(sh.kids) == ps;
  }

  /** Whatever is reached has a finite tree below it.  A tree has no more levels than there are
      nodes, so this says that no node lies below itself. */
  ghost predicate AllEnd(h: Heap, g: Graph, p: Ptr) {
    forall q :: Reached(g, p, q) ==> Ends(MemoryOf(h), q, |h|)
  }

  lemma {:induction false} AllEndBelow(h: Heap, g: Graph, p: Ptr, q: Ptr)
    requires AllEnd(h, g, p) && Edge(g, p, q)
    ensures AllEnd(h, g, q) && Ends(MemoryOf(h), q, |h|)
  {
    forall r | Reached(g, q, r) ensures Reached(g, p, r) { ReachedOver(g, p, q, r); }
    ReachedSelf(g, q);
  }

  // ---------------------------------------------------------------- the pass

  /** The queue, and the map from a node to its index. */
  datatype Gathered = Gathered(queue: seq<Ptr>, index: map<Ptr, u32>)

  /** The dimension sizes of a new node, one after the other. */
  function Dims(nested: (Gathered, Ptr) -> Gathered, ds: seq<Ptr>, s: Gathered): Gathered
    decreases |ds|
  {
    if ds == [] then s else Dims(nested, ds[1..], if ds[0] == NULL then s else nested(s, ds[0]))
  }

  /** The node itself is queued. */
  function Queued(s: Gathered, n: Ptr): Gathered {
    Gathered(s.queue + [n], s.index[n := |s.queue| % U32])
  }

  /** gather_enter.  A node met again is left alone, and its children are traversed again.  The
      dimension sizes of a new node are traversed at once, which may nest as deep as there are
      new nodes: `levels`. */
  function GatherEnter(h: Heap, levels: nat, s: Gathered, n: Ptr): Gathered
    decreases levels, 0
  {
    if n in s.index || n !in h then s
    else if levels == 0 then Queued(s, n)
    else Dims(Traversal(h, levels - 1), h[n].dims1 + h[n].dims2, Queued(s, n))
  }

  /** ast_traverse, as it is called for one dimension size. */
  function Traversal(h: Heap, levels: nat): (Gathered, Ptr) -> Gathered
    decreases levels, 2
  {
    (s: Gathered, d: Ptr) =>
      match Visit(GatherVisitor(h, levels), Grow(MemoryOf(h), d, |h|), s)
      case Some((_, s')) => s'
      case None => s
  }

  function GatherVisitor(h: Heap, levels: nat): Visitor<Gathered>
    decreases levels, 1
  {
    Visitor((s: Gathered) => MemoryOf(h), (s: Gathered, n: Ptr) => (GatherEnter(h, levels, s, n), Continue), None, None)
  }

  // ---------------------------------------------------------------- what it gathers

  /** Each queued node is indexed by its place, and no node is queued twice. */
  ghost predicate Indexed(ps: set<Ptr>, s: Gathered) {
    && (forall p :: p in s.index ==> p in s.queue && p in ps)
    && (forall i :: 0 <= i < |s.queue| ==> s.queue[i] in s.index && s.index[s.queue[i]] == i % U32)
    && forall i, j :: 0 <= i < j < |s.queue| ==> s.queue[i] != s.queue[j]
  }

  /** The nodes still to be met. */
  function Unmet(ps: set<Ptr>, s: Gathered): nat {
    |ps - s.index.Keys|
  }

  ghost predicate Extends(s: Gathered, t: Gathered) {
    s.queue <= t.queue && s.index.Keys <= t.index.Keys
  }

  /** From `s` to `t` the queue has grown by nodes that are reached from `p`, each with all that
      is visited from it. */
  ghost predicate Step(g: Graph, p: Ptr, s: Gathered, t: Gathered) {
    && Indexed(g.Keys, t) && Extends(s, t)
    && (forall q :: q in t.index.Keys - s.index.Keys ==> Reached(g, p, q))
    && forall q, r :: q in t.index.Keys - s.index.Keys && Edge(g, q, r) ==> r in t.index.Keys
  }

  lemma {:induction false} StepNone(g: Graph, p: Ptr, s: Gathered)
    requires Indexed(g.Keys, s)
    ensures Step(g, p, s, s)
  {
  }

  lemma {:induction false} ExtendsTwo(s: Gathered, t: Gathered, u: Gathered)
    requires Extends(s, t) && Extends(t, u)
    ensures Extends(s, u)
  {
  }

  lemma {:induction false} StepTwo(g: Graph, p: Ptr, s: Gathered, t: Gathered, u: Gathered)
    requires Step(g, p, s, t) && Step(g, p, t, u)
    ensures Step(g, p, s, u)
  {
    ExtendsTwo(s, t, u);
    forall q | q in u.index.Keys - s.index.Keys
      ensures Reached(g, p, q) && forall r :: Edge(g, q, r) ==> r in u.index.Keys
    {
      if q in t.index.Keys {
        assert q in t.index.Keys - s.index.Keys;
      } else {
        assert q in u.index.Keys - t.index.Keys;
      }
    }
  }

  lemma {:induction false} StepBelow(g: Graph, p: Ptr, q: Ptr, s: Gathered, t: Gathered)
    requires Edge(g, p, q) && Step(g, q, s, t)
    ensures Step(g, p, s, t)
  {
    forall r | r in t.index.Keys - s.index.Keys ensures Reached(g, p, r) { ReachedOver(g, p, q, r); }
  }

  lemma {:induction false} UnmetLess(ps: set<Ptr>, s: Gathered, t: Gathered)
    requires Extends(s, t)
    ensures Unmet(ps, t) <= Unmet(ps, s)
  {
    assert ps - s.index.Keys == (ps - t.index.Keys) + (ps * (t.index.Keys - s.index.Keys));
  }

  /** Just `n` has been added. */
  ghost predicate Adds(s: Gathered, n: Ptr, t: Gathered) {
    t.queue == s.queue + [n] && t.index.Keys == s.index.Keys + {n}
  }

  lemma {:induction false} AddsIndexed(ps: set<Ptr>, s: Gathered, n: Ptr, at: u32, t: Gathered)
    requires Indexed(ps, s) && n in ps && n !in s.index && at == |s.queue| % U32
    requires t == Gathered(s.queue + [n], s.index[n := at])
    ensures Indexed(ps, t) && Adds(s, n, t)
  {
    forall i | 0 <= i < |t.queue| ensures t.queue[i] in t.index && t.index[t.queue[i]] == i % U32 {
      if i < |s.queue| { assert t.queue[i] == s.queue[i]; }
    }
    forall p | p in t.index ensures p in t.queue && p in ps {
      if p == n { assert t.queue[|s.queue|] == n; } else { assert p in s.queue; }
    }
  }

  lemma {:induction false} AddsLess(ps: set<Ptr>, s: Gathered, n: Ptr, t: Gathered)
    requires Adds(s, n, t) && n in ps && n !in s.index
    ensures Unmet(ps, t) < Unmet(ps, s)
  {
    assert ps - s.index.Keys == (ps - t.index.Keys) + {n};
  }

  /** A new node together with all that is visited from it. */
  lemma {:induction false} NodeGathers(g: Graph, n: Ptr, s: Gathered, s1: Gathered, t: Gathered)
    requires Step(g, n, s1, t) && Adds(s, n, s1)
    requires forall r :: Edge(g, n, r) ==> r in t.index.Keys
    ensures Step(g, n, s, t) && n in t.index
  {
    ReachedSelf(g, n);
    ExtendsTwo(s, s1, t);
    forall q | q in t.index.Keys - s.index.Keys
      ensures Reached(g, n, q) && forall r :: Edge(g, q, r) ==> r in t.index.Keys
    {
      if q != n { assert q in t.index.Keys - s1.index.Keys; }
    }
  }

  lemma {:induction false} EdgesAre(h: Heap, g: Graph, n: Ptr, items: seq<Item>, kids: seq<Shape>)
    requires IsGraph(h, g) && n in h && Items(MemoryOf(h), n) == Some(items) && Children(items) == Roots(kids)
    ensures forall i :: 0 <= i < |kids| ==> Edge(g, n, kids[i].p)
    ensures forall d :: d in h[n].dims1 + h[n].dims2 && d != NULL ==> Edge(g, n, d)
    ensures forall q :: Edge(g, n, q) ==>
              q in Roots(kids) || (q in h[n].dims1 + h[n].dims2 && q != NULL)
  {
    assert g[n] == Visited(h, n);
    forall i | 0 <= i < |kids| ensures Edge(g, n, kids[i].p) { assert Roots(kids)[i] == kids[i].p; }
  }

  /** Where `n` is queued when it is new. */
  ghost predicate Next(s: Gathered, n: Ptr, t: Gathered) {
    n !in s.index ==> |s.queue| < |t.queue| && t.queue[|s.queue|] == n
  }

  /** A visit, with enough levels left, queues what is reached. */
  lemma {:induction false} VisitGathers(h: Heap, g: Graph, levels: nat, sh: Shape, s: Gathered) returns (t: Gathered)
    requires IsGraph(h, g) && Indexed(g.Keys, s) && Shows(MemoryOf(h), sh) && AllEnd(h, g, sh.p)
    requires Unmet(g.Keys, s) <= levels
    ensures Visit(GatherVisitor(h, levels), sh, s) == Some((true, t))
    ensures Step(g, sh.p, s, t) && sh.p in t.index && Next(s, sh.p, t)
    decreases levels, 1, sh, 1, 0
  {
    var n, items := sh.p, Items(MemoryOf(h), sh.p).value;
    if n in s.index {
      t := OldGathers(h, g, levels, sh, items, s);
    } else {
      var s1 := Enqueues(h, g, levels, s, n);
      t := NewGathers(h, g, levels, sh, items, s, s1);
    }
  }

  lemma {:induction false} Enqueues(h: Heap, g: Graph, levels: nat, s: Gathered, n: Ptr) returns (t: Gathered)
    requires g.Keys == h.Keys && Indexed(g.Keys, s) && n in h && n !in s.index && Unmet(g.Keys, s) <= levels
    ensures Indexed(g.Keys, t) && Adds(s, n, t) && Unmet(g.Keys, t) < levels
    ensures GatherEnter(h, levels, s, n) == Dims(Traversal(h, levels - 1), h[n].dims1 + h[n].dims2, t)
  {
    t := Queued(s, n);
    AddsIndexed(g.Keys, s, n, |s.queue| % U32, t);
    AddsLess(g.Keys, s, n, t);
  }

  /** The visit of a node that is met again. */
  lemma {:induction false} OldGathers(h: Heap, g: Graph, levels: nat, sh: Shape, items: seq<Item>, s: Gathered)
    returns (t: Gathered)
    requires IsGraph(h, g) && Indexed(g.Keys, s) && Shows(MemoryOf(h), sh) && AllEnd(h, g, sh.p)
    requires Items(MemoryOf(h), sh.p) == Some(items) && Unmet(g.Keys, s) <= levels && sh.p in s.index
    ensures Visit(GatherVisitor(h, levels), sh, s) == Some((true, t))
    ensures Step(g, sh.p, s, t) && sh.p in t.index && Next(s, sh.p, t)
    decreases levels, 1, sh, 0, 1
  {
    EdgesAre(h, g, sh.p, items, sh.kids);
    t := ChildrenGather(h, g, levels, sh.p, items, sh.kids, s);
    VisitIs(GatherVisitor(h, levels), sh, items, s, s, t);
  }

  /** The visit of a node that is queued. */
  lemma {:induction false} NewGathers(h: Heap, g: Graph, levels: nat, sh: Shape, items: seq<Item>, s: Gathered,
                                      s1: Gathered) returns (t: Gathered)
    requires IsGraph(h, g) && Indexed(g.Keys, s1) && Shows(MemoryOf(h), sh) && AllEnd(h, g, sh.p)
    requires Items(MemoryOf(h), sh.p) == Some(items) && Unmet(g.Keys, s1) < levels && Adds(s, sh.p, s1)
    requires GatherEnter(h, levels, s, sh.p) == Dims(Traversal(h, levels - 1), h[sh.p].dims1 + h[sh.p].dims2, s1)
    ensures Visit(GatherVisitor(h, levels), sh, s) == Some((true, t))
    ensures Step(g, sh.p, s, t) && sh.p in t.index && Next(s, sh.p, t)
    decreases levels, 1, sh, 0, 1
  {
    EdgesAre(h, g, sh.p, items, sh.kids);
    var s2 := EnterGathers(h, g, levels - 1, sh.p, h[sh.p].dims1 + h[sh.p].dims2, s1);
    t := ChildrenGather(h, g, levels, sh.p, items, sh.kids, s2);
    EnteredGathers(h, g, sh.p, items, sh.kids, s, s1, s2, t);
    VisitIs(GatherVisitor(h, levels), sh, items, s, s2, t);
  }

  lemma {:induction false} VisitIs(v: Visitor<Gathered>, sh: Shape, items: seq<Item>, s: Gathered, s1: Gathered,
                                   t: Gathered)
    requires v.enter(s, sh.p) == (s1, Continue) && v.exit.None?
    requires Items(v.mem(s1), sh.p) == Some(items) && Children(items) == Roots(sh.kids)
    requires VisitItems(v, sh.p, items, sh.kids, s1) == Some((true, t))
    ensures Visit(v, sh, s) == Some((true, t))
  {
  }

  /** The dimension sizes `ds` of the node `n` that has just been queued. */
  lemma {:induction false} EnterGathers(h: Heap, g: Graph, levels: nat, n: Ptr, ds: seq<Ptr>, s: Gathered)
    returns (t: Gathered)
    requires IsGraph(h, g) && Indexed(g.Keys, s) && AllEnd(h, g, n)
    requires Unmet(g.Keys, s) <= levels && forall d :: d in ds && d != NULL ==> Edge(g, n, d)
    ensures t == Dims(Traversal(h, levels), ds, s) && Step(g, n, s, t) && Unmet(g.Keys, t) <= levels
    ensures forall d :: d in ds && d != NULL ==> d in t.index
    decreases levels, 4, 0, 0, 0
  {
    var nested := AllTraverse(h, g, n, levels);
    DimsGather(g, levels, n, nested, ds, s);
    t := Dims(nested, ds, s);
    UnmetLess(g.Keys, s, t);
  }

  lemma {:induction false} AllTraverse(h: Heap, g: Graph, n: Ptr, levels: nat)
    returns (nested: (Gathered, Ptr) -> Gathered)
    requires IsGraph(h, g) && AllEnd(h, g, n)
    ensures nested == Traversal(h, levels) && forall s, d :: Traverses(g, n, levels, nested, s, d)
    decreases levels, 3, 0, 0, 0
  {
    nested := Traversal(h, levels);
    forall s, d ensures Traverses(g, n, levels, nested, s, d) { NestedTraverses(h, g, n, levels, s, d); }
  }

  lemma {:induction false} EnteredGathers(h: Heap, g: Graph, n: Ptr, items: seq<Item>, kids: seq<Shape>, s: Gathered,
                                          s1: Gathered, s2: Gathered, t: Gathered)
    requires IsGraph(h, g) && n in h && Items(MemoryOf(h), n) == Some(items) && Children(items) == Roots(kids)
    requires Adds(s, n, s1) && Step(g, n, s1, s2) && Step(g, n, s2, t)
    requires AllIn(kids, t)
    requires forall d :: d in h[n].dims1 + h[n].dims2 && d != NULL ==> d in s2.index
    ensures Step(g, n, s, t) && n in t.index && Next(s, n, t)
  {
    EdgesAre(h, g, n, items, kids);
    StepTwo(g, n, s1, s2, t);
    forall q | Edge(g, n, q) ensures q in t.index.Keys {
      if q in Roots(kids) { var i :| 0 <= i < |kids| && Roots(kids)[i] == q; } else { assert q in s2.index.Keys; }
    }
    NodeGathers(g, n, s, s1, t);
  }

  /** A traversal from a node visited from `n` queues what is reached, when few enough nodes are
      left. */
  ghost predicate Traverses(g: Graph, n: Ptr, levels: nat, nested: (Gathered, Ptr) -> Gathered, s: Gathered, d: Ptr) {
    Indexed(g.Keys, s) && Unmet(g.Keys, s) <= levels && Edge(g, n, d) ==>
      Step(g, n, s, nested(s, d)) && d in nested(s, d).index
  }

  lemma {:induction false} DimsGather(g: Graph, levels: nat, n: Ptr, nested: (Gathered, Ptr) -> Gathered, ds: seq<Ptr>,
                                      s: Gathered)
    requires Indexed(g.Keys, s) && Unmet(g.Keys, s) <= levels && forall t, d :: Traverses(g, n, levels, nested, t, d)
    requires forall d :: d in ds && d != NULL ==> Edge(g, n, d)
    ensures Step(g, n, s, Dims(nested, ds, s))
    ensures forall d :: d in ds && d != NULL ==> d in Dims(nested, ds, s).index
    decreases |ds|
  {
    if ds == [] {
      StepNone(g, n, s);
    } else {
      var s1 := if ds[0] == NULL then s else nested(s, ds[0]);
      if ds[0] == NULL { StepNone(g, n, s); } else { assert Traverses(g, n, levels, nested, s, ds[0]); }
      UnmetLess(g.Keys, s, s1);
      DimsGather(g, levels, n, nested, ds[1..], s1);
      StepTwo(g, n, s, s1, Dims(nested, ds, s));
    }
  }

  lemma {:induction false} NestedTraverses(h: Heap, g: Graph, n: Ptr, levels: nat, s: Gathered, d: Ptr)
    requires IsGraph(h, g) && AllEnd(h, g, n)
    ensures Traverses(g, n, levels, Traversal(h, levels), s, d)
    decreases levels, 2, 0, 0, 0
  {
    if Indexed(g.Keys, s) && Unmet(g.Keys, s) <= levels && Edge(g, n, d) {
      AllEndBelow(h, g, n, d);
      GrowShows(MemoryOf(h), d, |h|);
      var t := VisitGathers(h, g, levels, Grow(MemoryOf(h), d, |h|), s);
      StepBelow(g, n, d, s, t);
    }
  }

  lemma {:induction false} ChildrenGather(h: Heap, g: Graph, levels: nat, n: Ptr, items: seq<Item>, kids: seq<Shape>,
                                          s: Gathered) returns (t: Gathered)
    requires IsGraph(h, g) && Indexed(g.Keys, s) && Children(items) == Roots(kids) && AllShow(MemoryOf(h), kids)
    requires AllEnd(h, g, n) && Unmet(g.Keys, s) <= levels && forall i :: 0 <= i < |kids| ==> Edge(g, n, kids[i].p)
    ensures VisitItems(GatherVisitor(h, levels), n, items, kids, s) == Some((true, t))
    ensures Step(g, n, s, t) && AllIn(kids, t)
    decreases levels, 1, kids, 0, |items|
  {
    if items == [] {
      assert |Roots(kids)| == |kids|;
      t := s;
    } else if items[0].Gap? {
      t := ChildrenGather(h, g, levels, n, items[1..], kids, s);
    } else {
      FirstChild(items, kids);
      KidsSplit(h, g, n, kids);
      var s1 := VisitGathers(h, g, levels, kids[0], s);
      StepBelow(g, n, kids[0].p, s, s1);
      UnmetLess(g.Keys, s, s1);
      t := ChildrenGather(h, g, levels, n, items[1..], kids[1..], s1);
      KidsGather(g, n, kids, s, s1, t);
    }
  }

  lemma {:induction false} KidsSplit(h: Heap, g: Graph, n: Ptr, kids: seq<Shape>)
    requires kids != [] && AllShow(MemoryOf(h), kids) && AllEnd(h, g, n)
    requires forall i :: 0 <= i < |kids| ==> Edge(g, n, kids[i].p)
    ensures Shows(MemoryOf(h), kids[0]) && AllEnd(h, g, kids[0].p) && Edge(g, n, kids[0].p)
    ensures AllShow(MemoryOf(h), kids[1..]) && forall i :: 0 <= i < |kids[1..]| ==> Edge(g, n, kids[1..][i].p)
  {
    AllEndBelow(h, g, n, kids[0].p);
  }

  ghost predicate AllIn(kids: seq<Shape>, t: Gathered) {
    forall i :: 0 <= i < |kids| ==> kids[i].p in t.index
  }

  lemma {:induction false} KidsGather(g: Graph, n: Ptr, kids: seq<Shape>, s: Gathered, s1: Gathered, t: Gathered)
    requires kids != [] && Step(g, n, s, s1) && Step(g, n, s1, t) && kids[0].p in s1.index && AllIn(kids[1..], t)
    ensures Step(g, n, s, t) && AllIn(kids, t)
  {
    StepTwo(g, n, s, s1, t);
    forall i | 0 <= i < |kids| ensures kids[i].p in t.index {
      if i > 0 { assert kids[1..][i - 1] == kids[i]; } else { assert kids[0].p in s1.index.Keys; }
    }
  }

  // ---------------------------------------------------------------- gathering

  /** From the root, exactly what is reached is gathered, each node once and indexed by its place
      in the queue, the root first. */
  ghost predicate GatheredFrom(h: Heap, root: Ptr, s: Gathered) {
    && Indexed(h.Keys, s) && s.queue != [] && s.queue[0] == root
    && forall p :: p in s.index <==> Reached(GraphOf(h), root, p)
  }

  lemma {:induction false} AllReached(h: Heap, root: Ptr, t: Gathered)
    requires Step(GraphOf(h), root, Gathered([], map[]), t) && root in t.index
    ensures forall p :: p in t.index <==> Reached(GraphOf(h), root, p)
  {
    var g := GraphOf(h);
    var none: map<Ptr, u32> := map[];
    assert t.index.Keys - none.Keys == t.index.Keys;
    forall p | Reached(g, root, p) ensures p in t.index {
      var n: nat :| ReachedIn(g, root, p, n);
      ClosedReaches(g, t.index.Keys, root, p, n);
    }
    forall p | p in t.index.Keys ensures Reached(g, root, p) {}
  }

  lemma {:induction false} GraphIsGraph(h: Heap)
    ensures IsGraph(h, GraphOf(h))
  {
  }

  lemma {:induction false} RootGathers(h: Heap, root: Ptr, start: Gathered) returns (t: Gathered)
    requires root != NULL && AllEnd(h, GraphOf(h), root) && start == Gathered([], map[])
    ensures Visit(GatherVisitor(h, |h|), Grow(MemoryOf(h), root, |h|), start) == Some((true, t))
    ensures GatheredFrom(h, root, t) && Grow(MemoryOf(h), root, |h|).p == root
  {
    var g := GraphOf(h);
    GraphIsGraph(h);
    ReachedSelf(g, root);
    GrowShows(MemoryOf(h), root, |h|);
    assert Unmet(g.Keys, start) <= |h| by { assert g.Keys - start.index.Keys == h.Keys && |h.Keys| == |h|; }
    t := VisitGathers(h, g, |h|, Grow(MemoryOf(h), root, |h|), start);
    AllReached(h, root, t);
  }

  /** The traversal of cache_write_ast. */
  method Gather(h: Heap, root: Ptr) returns (s: Gathered)
    requires root != NULL && AllEnd(h, GraphOf(h), root)
    ensures GatheredFrom(h, root, s)
  {
    var start := Gathered([], map[]);
    ghost var t := RootGathers(h, root, start);
    var ok;
    ok, s := Traverse(GatherVisitor(h, |h|), root, start, Grow(MemoryOf(h), root, |h|));
  }
}
