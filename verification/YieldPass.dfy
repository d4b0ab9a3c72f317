/** inject_yield_assignments (src/cgen.c) on the AST in memory: the visitor callbacks that
    overwrite tail nodes in place, against the transformation of module YieldMeaning. */
module YieldPass {
  import opened Ast
  import opened Visitor
  import M = YieldMeaning

  const MAX_PARENTS := 2048

  /** The pass state: the memory, the next free address of the arena, and parent_stack. */
  datatype State = State(mem: Memory, next: Ptr, parents: seq<Ptr>)

  const NO_TYPE := DataType(Token(0, []), 0, 0, false, false, false, false)

  function Target(v: M.Name): Cell {
    Cell(IDENTIF, NULL, [], Token(0, v), Token(0, []), [], NO_TYPE, 0)
  }

  /** Is node `n` on the execution tail, seen from the node on top of parent_stack? */
  predicate Followed(s: State, n: Ptr) {
    s.parents != [] && s.parents[|s.parents| - 1] in s.mem ==>
      var parent := s.mem[s.parents[|s.parents| - 1]];
      match parent.kind
      case BLOCK => n in s.mem && s.mem[n].next == NULL
      case IF | SWITCH | CASE => n != Kid(parent, 0)
      case _ => false
  }

  /** Overwrite node `n` with an assignment whose right-hand side is a copy of the old node,
      keeping its place in its list. */
  function Overwrite(s: State, n: Ptr, v: M.Name): State
    requires n in s.mem
  {
    var assignment := Cell(BINOP, s.mem[n].next, [s.next, s.next + 1], Token(0, M.ASSIGN), Token(0, []), [],
                           NO_TYPE, 0);
    s.(mem := s.mem[s.next := Target(v)][s.next + 1 := s.mem[n].(next := NULL)][n := assignment],
       next := s.next + 2)
  }

  function YieldEnter(s: State, n: Ptr, v: M.Name): (State, VisitResult) {
    if n !in s.mem || !Followed(s, n) then (s, SkipChildren)
    else if |s.parents| >= MAX_PARENTS then (s, Abort)
    else
      var s1 := s.(parents := s.parents + [n]);
      if M.Passes(s.mem[n].kind) then (s1, Continue)
      else if M.Excluded(s.mem[n].kind) then (s1, SkipChildren)
      else (Overwrite(s1, n, v), SkipChildren)
  }

  function YieldExit(s: State, n: Ptr): State {
    if s.parents != [] && s.parents[|s.parents| - 1] == n
    then s.(parents := s.parents[..|s.parents| - 1])
    else s
  }

  function YieldVisitor(v: M.Name): Visitor<State> {
    Visitor((s: State) => s.mem, (s: State, n: Ptr) => YieldEnter(s, n, v), None,
            Some((s: State, n: Ptr) => YieldExit(s, n)))
  }

  // ---------------------------------------------------------------- trees in memory

  /** The tree that the memory shows at a place. */
  function Abs(mem: Memory, sh: Shape): M.Tree
    decreases sh, 1
  {
    if sh.p !in mem then M.Tree(ERROR, [], [])
    else M.Tree(mem[sh.p].kind, mem[sh.p].tok.text, AbsAll(mem, sh.kids))
  }

  function AbsAll(mem: Memory, shs: seq<Shape>): (r: seq<M.Tree>)
    ensures |r| == |shs| && forall i :: 0 <= i < |r| ==> r[i] == Abs(mem, shs[i])
    decreases shs, 0
  {
    if shs == [] then [] else [Abs(mem, shs[0])] + AbsAll(mem, shs[1..])
  }

  /** The fields the pass looks at are the fields that are visited: a block's statements are
      its list, and an if, switch or case has its first field. */
  predicate Placed(mem: Memory, sh: Shape)
    decreases sh
  {
    && sh.p in mem && Proper(mem, sh.p, Fields(mem[sh.p]))
    && (M.Passes(mem[sh.p].kind) ==>
          if mem[sh.p].kind.BLOCK? then ListAt(mem, Kid(mem[sh.p], 0)) == Some(Roots(sh.kids))
          else sh.kids != [] && sh.kids[0].p == Kid(mem[sh.p], 0))
    && forall i :: 0 <= i < |sh.kids| ==> Placed(mem, sh.kids[i])
  }

  /** No child field names node `n`: no node is its own child. */
  predicate Proper(mem: Memory, n: Ptr, fs: seq<Field>) {
    forall i :: 0 <= i < |fs| ==>
      match fs[i]
      case Single(p) => p != n
      case Listed(head) => ListAt(mem, head).Some? ==> n !in ListAt(mem, head).value
      case Mark(_) => true
  }

  /** How far parent_stack grows below a tree. */
  function TailDepth(t: M.Tree): nat
    decreases t, 1
  {
    if M.Passes(t.kind) then 1 + MaxDepth(t.kids) else 1
  }

  function MaxDepth(ts: seq<M.Tree>): (r: nat)
    decreases ts, 0
  {
    if ts == [] then 0
    else var d, rest := TailDepth(ts[0]), MaxDepth(ts[1..]); if d > rest then d else rest
  }

  /** What no step of the pass changes: nodes keep their successors, and old nodes outside
      `ps` keep their cells. */
  ghost predicate Keeps(a: Memory, b: Memory, ps: set<Ptr>) {
    && a.Keys <= b.Keys
    && (forall p :: p in a ==> b[p].next == a[p].next)
    && (forall p :: p in a && p !in ps ==> b[p] == a[p])
  }

  ghost predicate Allocated(s: State) {
    NULL !in s.mem && s.next > 0 && forall p :: p in s.mem ==> p < s.next
  }

  // ---------------------------------------------------------------- framing

  lemma {:induction false} ChainKept(a: Memory, b: Memory, head: Ptr, fuel: nat, more: nat)
    requires a.Keys <= b.Keys && fuel <= more && forall p :: p in a ==> b[p].next == a[p].next
    ensures Chain(a, head, fuel).Some? ==> Chain(b, head, more) == Chain(a, head, fuel)
    decreases fuel
  {
    if head != NULL && fuel > 0 && head in a {
      ChainKept(a, b, a[head].next, fuel - 1, more - 1);
    }
  }

  lemma {:induction false} ListKept(a: Memory, b: Memory, head: Ptr)
    requires a.Keys <= b.Keys && forall p :: p in a ==> b[p].next == a[p].next
    ensures ListAt(a, head).Some? ==> ListAt(b, head) == ListAt(a, head)
  {
    KeysCard(a, b);
    ChainKept(a, b, head, |a|, |b|);
  }

  lemma {:induction false} KeysCard(a: Memory, b: Memory)
    requires a.Keys <= b.Keys
    ensures |a| <= |b|
  {
    assert |b.Keys| == |a.Keys| + |b.Keys - a.Keys| by { assert b.Keys == a.Keys + (b.Keys - a.Keys); }
    assert |a| == |a.Keys| && |b| == |b.Keys|;
  }

  lemma {:induction false} FieldsKept(a: Memory, b: Memory, n: Ptr, fs: seq<Field>)
    requires a.Keys <= b.Keys && forall p :: p in a ==> b[p].next == a[p].next
    ensures AllItems(a, n, fs).Some? ==> AllItems(b, n, fs) == AllItems(a, n, fs)
  {
    if fs != [] {
      FieldsKept(a, b, n, fs[1..]);
      if fs[0].Listed? { ListKept(a, b, fs[0].head); }
    }
  }

  lemma {:induction false} TreeKept(a: Memory, b: Memory, sh: Shape, ps: set<Ptr>)
    requires Keeps(a, b, ps) && Shows(a, sh) && Addresses(sh) !! ps
    ensures Shows(b, sh) && Abs(b, sh) == Abs(a, sh)
    ensures Placed(a, sh) ==> Placed(b, sh)
    decreases sh, 1
  {
    FieldsKept(a, b, sh.p, Fields(a[sh.p]));
    TreesKept(a, b, sh.kids, ps);
    if Placed(a, sh) { ProperKept(a, b, sh.p, Fields(a[sh.p])); }
    if Placed(a, sh) && a[sh.p].kind.BLOCK? { ListKept(a, b, Kid(a[sh.p], 0)); }
  }

  lemma {:induction false} TreesKept(a: Memory, b: Memory, shs: seq<Shape>, ps: set<Ptr>)
    requires Keeps(a, b, ps) && AllAddresses(shs) !! ps
    requires forall i :: 0 <= i < |shs| ==> Shows(a, shs[i])
    ensures forall i :: 0 <= i < |shs| ==> Shows(b, shs[i])
    ensures forall i :: 0 <= i < |shs| && Placed(a, shs[i]) ==> Placed(b, shs[i])
    ensures AbsAll(b, shs) == AbsAll(a, shs)
    decreases shs, 0
  {
    if shs != [] {
      TreeKept(a, b, shs[0], ps);
      TreesKept(a, b, shs[1..], ps);
      forall i | 0 <= i < |shs| ensures Shows(b, shs[i]) && (Placed(a, shs[i]) ==> Placed(b, shs[i])) {
        if i > 0 { assert shs[i] == shs[1..][i - 1]; }
      }
    }
  }

  lemma {:induction false} ProperKept(a: Memory, b: Memory, n: Ptr, fs: seq<Field>)
    requires a.Keys <= b.Keys && forall p :: p in a ==> b[p].next == a[p].next
    requires Proper(a, n, fs) && AllItems(a, n, fs).Some?
    ensures Proper(b, n, fs)
  {
    if fs != [] {
      assert Proper(a, n, fs[1..]) by {
        forall i | 0 <= i < |fs[1..]| ensures fs[1..][i] == fs[i + 1] {}
      }
      ProperKept(a, b, n, fs[1..]);
      if fs[0].Listed? { ListKept(a, b, fs[0].head); }
      assert forall i :: 0 < i < |fs| ==> fs[i] == fs[1..][i - 1];
    }
  }

  lemma {:induction false} ManyElsewhere(n: Ptr, m: Ptr, ps: seq<Ptr>, step: nat)
    requires n !in ps && m !in ps
    ensures Many(m, ps, step) == Many(n, ps, step)
    decreases |ps|
  {
    if |ps| > 1 { ManyElsewhere(n, m, ps[1..], step + 1); }
  }

  /** A copy of a node elsewhere has the same children. */
  lemma {:induction false} ItemsElsewhere(mem: Memory, n: Ptr, m: Ptr, fs: seq<Field>)
    requires Proper(mem, n, fs) && Proper(mem, m, fs)
    ensures AllItems(mem, m, fs) == AllItems(mem, n, fs)
  {
    if fs != [] {
      forall i | 0 <= i < |fs[1..]| ensures fs[1..][i] == fs[i + 1] {}
      assert Proper(mem, n, fs[1..]) && Proper(mem, m, fs[1..]);
      ItemsElsewhere(mem, n, m, fs[1..]);
      if fs[0].Listed? && ListAt(mem, fs[0].head).Some? {
        ManyElsewhere(n, m, ListAt(mem, fs[0].head).value, 0);
      }
    }
  }

  // ---------------------------------------------------------------- the pass does the transformation

  /** From `s` the pass has reached `s'`, and where `sh` stood there now stands the tree
      `sh'`, grown by newly allocated nodes only. */
  ghost predicate Reached(s: State, s': State, old_: set<Ptr>, new_: set<Ptr>) {
    && s'.parents == s.parents && Allocated(s') && s.next <= s'.next
    && Keeps(s.mem, s'.mem, old_)
    && forall p :: p in new_ ==> p in old_ || s.next <= p < s'.next
  }

  /** Where the tree `sh` stood, the pass has left the tree `sh'`, which is `t`. */
  ghost predicate Injected(s: State, s': State, sh: Shape, sh': Shape, t: M.Tree) {
    Reached(s, s', Addresses(sh), Addresses(sh')) && sh'.p == sh.p && Shows(s'.mem, sh') && Abs(s'.mem, sh') == t
  }

  ghost predicate AllInjected(s: State, s': State, shs: seq<Shape>, shs': seq<Shape>, ts: seq<M.Tree>) {
    && Reached(s, s', AllAddresses(shs), AllAddresses(shs')) && Roots(shs') == Roots(shs)
    && AllShow(s'.mem, shs') && AbsAll(s'.mem, shs') == ts
  }

  /** A tree the pass can be run on. */
  ghost predicate Legible(s: State, sh: Shape) {
    Allocated(s) && Shows(s.mem, sh) && IsTree(sh) && Placed(s.mem, sh)
  }

  /** The children of node `n` from the `i`th on, its visit being under way. */
  ghost predicate KidsLegible(s: State, n: Ptr, kids: seq<Shape>, i: nat) {
    && Allocated(s) && s.parents != [] && s.parents[|s.parents| - 1] == n && n in s.mem
    && AreTrees(kids) && n !in AllAddresses(kids)
    && (forall j :: 0 <= j < |kids| ==> Shows(s.mem, kids[j]) && Placed(s.mem, kids[j]))
    && forall j :: 0 <= j < |kids| ==>
         (Followed(s, kids[j].p) <==> M.IsTail(s.mem[n].kind, i + j, i + |kids|))
  }

  lemma {:induction false} ShownInside(mem: Memory, sh: Shape)
    requires Shows(mem, sh)
    ensures Addresses(sh) <= mem.Keys
    decreases sh, 1
  {
    AllShownInside(mem, sh.kids);
  }

  lemma {:induction false} AllShownInside(mem: Memory, shs: seq<Shape>)
    requires forall i :: 0 <= i < |shs| ==> Shows(mem, shs[i])
    ensures AllAddresses(shs) <= mem.Keys
    decreases shs, 0
  {
    if shs != [] {
      ShownInside(mem, shs[0]);
      AllShownInside(mem, shs[1..]);
    }
  }

  /** The tree after node `n` has been overwritten. */
  function Overwritten(s: State, sh: Shape): Shape {
    Shape(sh.p, [Shape(s.next, []), Shape(s.next + 1, sh.kids)])
  }

  lemma {:induction false} OverwriteKeeps(s: State, n: Ptr, v: M.Name)
    requires Allocated(s) && n in s.mem
    ensures var t := Overwrite(s, n, v);
            Allocated(t) && Keeps(s.mem, t.mem, {n}) && t.next == s.next + 2
  {
  }

  lemma {:induction false} FieldsOf(c: Cell, next: Ptr)
    ensures Fields(c.(next := next)) == Fields(c)
  {
    var d := c.(next := next);
    assert d.kind == c.kind && d.kids == c.kids;
  }

  /** The copy of the old node has the old node's children. */
  lemma {:induction false} ChildrenInside(mem: Memory, sh: Shape)
    requires Shows(mem, sh)
    ensures forall p :: p in Children(Items(mem, sh.p).value) ==> p in mem
  {
    forall p | p in Children(Items(mem, sh.p).value) ensures p in mem {
      var i :| 0 <= i < |Roots(sh.kids)| && Roots(sh.kids)[i] == p;
      assert Shows(mem, sh.kids[i]);
    }
  }

  lemma {:induction false} CopyItems(s: State, sh: Shape, v: M.Name)
    requires Allocated(s) && Shows(s.mem, sh) && Placed(s.mem, sh)
    ensures Items(Overwrite(s, sh.p, v).mem, s.next + 1) == Items(s.mem, sh.p)
  {
    var t, n, b := Overwrite(s, sh.p, v), sh.p, s.next + 1;
    OverwriteKeeps(s, n, v);
    var fs := Fields(s.mem[n]);
    FieldsOf(s.mem[n], NULL);
    FieldsKept(s.mem, t.mem, n, fs);
    ProperKept(s.mem, t.mem, n, fs);
    ChildrenInside(s.mem, sh);
    CopyIsProper(s.mem, t.mem, n, b, fs);
    ItemsElsewhere(t.mem, n, b, fs);
  }

  /** The copy of the old node shows the old tree. */
  lemma {:induction false} CopyShows(s: State, sh: Shape, v: M.Name)
    requires Legible(s, sh)
    ensures var t, copy := Overwrite(s, sh.p, v), Shape(s.next + 1, sh.kids);
            Shows(t.mem, copy) && Abs(t.mem, copy) == Abs(s.mem, sh)
  {
    var t := Overwrite(s, sh.p, v);
    CopyItems(s, sh, v);
    OverwriteKeeps(s, sh.p, v);
    TreesKept(s.mem, t.mem, sh.kids, {sh.p});
    assert t.mem[s.next + 1].kind == s.mem[sh.p].kind && t.mem[s.next + 1].tok == s.mem[sh.p].tok;
  }

  lemma {:induction false} AssignmentShows(s: State, n: Ptr, v: M.Name)
    requires Allocated(s) && n in s.mem
    ensures var t := Overwrite(s, n, v);
            && Items(t.mem, n) == Some([Child(s.next), Gap(0), Child(s.next + 1)])
            && Children([Child(s.next), Gap(0), Child(s.next + 1)]) == [s.next, s.next + 1]
            && Shows(t.mem, Shape(s.next, [])) && Abs(t.mem, Shape(s.next, [])) == M.Tree(IDENTIF, v, [])
  {
    var t, a, b := Overwrite(s, n, v), s.next, s.next + 1;
    ThreeItems(t.mem, n, a, b);
    assert Fields(t.mem[n]) == [Single(a), Mark(0), Single(b)];
    var items := [Child(a), Gap(0), Child(b)];
    assert items[1..] == [Gap(0), Child(b)] && items[1..][1..] == [Child(b)] && items[1..][1..][1..] == [];
    assert Children(items[1..][1..]) == [b];
    assert Children(items) == [a] + Children(items[1..]);
    assert Fields(t.mem[a]) == [] && Roots([]) == [];
  }

  lemma {:induction false} ThreeItems(mem: Memory, n: Ptr, a: Ptr, b: Ptr)
    requires a != NULL && b != NULL && a != n && b != n
    ensures AllItems(mem, n, [Single(a), Mark(0), Single(b)]) == Some([Child(a), Gap(0), Child(b)])
  {
    var fs := [Single(a), Mark(0), Single(b)];
    assert fs[1..] == [Mark(0), Single(b)] && fs[1..][1..] == [Single(b)] && fs[1..][1..][1..] == [];
    assert AllItems(mem, n, fs[1..][1..]) == Some([Child(b)] + []);
    assert AllItems(mem, n, fs[1..]) == Some([Gap(0)] + ([Child(b)] + []));
    var items: seq<Item> := [Child(a)] + ([Gap(0)] + ([Child(b)] + []));
    assert AllItems(mem, n, fs) == Some(items);
    assert items == [Child(a), Gap(0), Child(b)];
  }

  lemma {:induction false} OverwriteAssigns(s: State, sh: Shape, v: M.Name)
    requires Legible(s, sh)
    ensures var t, sh' := Overwrite(s, sh.p, v), Overwritten(s, sh);
            Shows(t.mem, sh') && Abs(t.mem, sh') == M.Assignment(v, Abs(s.mem, sh))
  {
    var t, sh' := Overwrite(s, sh.p, v), Overwritten(s, sh);
    CopyShows(s, sh, v);
    AssignmentShows(s, sh.p, v);
    var kids := sh'.kids;
    assert kids[0] == Shape(s.next, []) && kids[1] == Shape(s.next + 1, sh.kids);
    assert Roots(kids) == [s.next, s.next + 1];
    assert AbsAll(t.mem, kids) == [Abs(t.mem, kids[0]), Abs(t.mem, kids[1])];
  }

  lemma {:induction false} OverwriteReaches(s: State, sh: Shape, v: M.Name)
    requires Allocated(s) && sh.p in s.mem
    ensures Reached(s, Overwrite(s, sh.p, v), Addresses(sh), Addresses(Overwritten(s, sh)))
  {
    OverwriteKeeps(s, sh.p, v);
    var a, b := Shape(s.next, []), Shape(s.next + 1, sh.kids);
    assert [a, b][1..] == [b] && [b][1..] == [];
    assert AllAddresses([b]) == Addresses(b) + {};
    assert AllAddresses([a, b]) == Addresses(a) + AllAddresses([b]);
  }

  /** Children are old nodes, so a new node is not among them. */
  lemma {:induction false} CopyIsProper(a: Memory, b: Memory, n: Ptr, m: Ptr, fs: seq<Field>)
    requires AllItems(a, n, fs).Some? && m !in a && m != NULL && NULL !in a
    requires forall p :: p in Children(AllItems(a, n, fs).value) ==> p in a
    requires Proper(a, n, fs) && a.Keys <= b.Keys && forall p :: p in a ==> b[p].next == a[p].next
    ensures Proper(b, m, fs)
  {
    if fs != [] {
      var first, rest := FieldItems(a, n, fs[0]).value, AllItems(a, n, fs[1..]).value;
      ChildrenConcat(first, rest);
      assert Proper(a, n, fs[1..]) by {
        forall i | 0 <= i < |fs[1..]| ensures fs[1..][i] == fs[i + 1] {}
      }
      CopyIsProper(a, b, n, m, fs[1..]);
      if fs[0].Listed? { ListKept(a, b, fs[0].head); }
      assert fs[0].Single? && fs[0].p != NULL && fs[0].p != n ==> Children(first)[0] == fs[0].p;
      assert forall i :: 0 < i < |fs| ==> fs[i] == fs[1..][i - 1];
    }
  }

  /** A node on the tail is rewritten in place; what is off the tail is left alone. */
  lemma {:induction false} VisitInjects(s: State, sh: Shape, v: M.Name) returns (s': State, sh': Shape)
    requires Legible(s, sh) && Followed(s, sh.p)
    requires |s.parents| + TailDepth(Abs(s.mem, sh)) <= MAX_PARENTS
    ensures Visit(YieldVisitor(v), sh, s) == Some((true, s'))
    ensures Injected(s, s', sh, sh', M.Inject(Abs(s.mem, sh), v))
    decreases sh, 1
  {
    var n := sh.p;
    var s1 := s.(parents := s.parents + [n]);
    assert s1.parents[..|s.parents|] == s.parents;
    if M.Passes(s.mem[n].kind) {
      s', sh' := PassInjects(s, sh, v);
    } else if M.Excluded(s.mem[n].kind) {
      s', sh' := s, sh;
      LeftAlone(s, sh);
    } else {
      OverwriteInjects(s, sh, v);
      s', sh' := Overwrite(s, n, v), Overwritten(s, sh);
      assert Overwrite(s1, n, v) == s'.(parents := s1.parents);
    }
  }

  lemma {:induction false} LeftAlone(s: State, sh: Shape)
    requires Legible(s, sh)
    ensures Injected(s, s, sh, sh, Abs(s.mem, sh))
  {
    ShownInside(s.mem, sh);
  }

  lemma {:induction false} OverwriteInjects(s: State, sh: Shape, v: M.Name)
    requires Legible(s, sh)
    ensures Injected(s, Overwrite(s, sh.p, v), sh, Overwritten(s, sh), M.Assignment(v, Abs(s.mem, sh)))
  {
    OverwriteAssigns(s, sh, v);
    OverwriteReaches(s, sh, v);
  }

  lemma {:induction false} PassInjects(s: State, sh: Shape, v: M.Name) returns (s': State, sh': Shape)
    requires Legible(s, sh) && Followed(s, sh.p)
    requires M.Passes(s.mem[sh.p].kind) && |s.parents| + TailDepth(Abs(s.mem, sh)) <= MAX_PARENTS
    ensures Visit(YieldVisitor(v), sh, s) == Some((true, s'))
    ensures Injected(s, s', sh, sh', M.Inject(Abs(s.mem, sh), v))
    decreases sh, 0
  {
    var n := sh.p;
    var s1 := s.(parents := s.parents + [n]);
    TailsAreLast(s1, sh);
    var s2, kids' := ItemsInject(s1, n, Items(s.mem, n).value, sh.kids, v, 0);
    s', sh' := s2.(parents := s.parents), Shape(n, kids');
    PassVisits(s, s2, sh, v);
    PassRebuilt(s, s1, s2, sh, kids', M.InjectKids(s.mem[n].kind, AbsAll(s.mem, sh.kids), v, 0));
  }

  /** A node of a kind that passes the followed path on is entered and left again. */
  lemma {:induction false} PassVisits(s: State, s2: State, sh: Shape, v: M.Name)
    requires sh.p in s.mem && Followed(s, sh.p) && |s.parents| < MAX_PARENTS && M.Passes(s.mem[sh.p].kind)
    requires Items(s.mem, sh.p).Some? && Children(Items(s.mem, sh.p).value) == Roots(sh.kids)
    requires VisitItems(YieldVisitor(v), sh.p, Items(s.mem, sh.p).value, sh.kids, s.(parents := s.parents + [sh.p])) ==
             Some((true, s2))
    requires s2.parents == s.parents + [sh.p]
    ensures Visit(YieldVisitor(v), sh, s) == Some((true, s2.(parents := s.parents)))
  {
    assert s2.parents[..|s.parents|] == s.parents;
  }

  /** A node whose children have been rewritten. */
  lemma {:induction false} PassRebuilt(s: State, s1: State, s2: State, sh: Shape, kids': seq<Shape>, ts: seq<M.Tree>)
    requires Legible(s, sh) && s1 == s.(parents := s1.parents) && AllInjected(s1, s2, sh.kids, kids', ts)
    ensures Injected(s, s2.(parents := s.parents), sh, Shape(sh.p, kids'),
                     M.Tree(s.mem[sh.p].kind, s.mem[sh.p].tok.text, ts))
  {
    FieldsKept(s.mem, s2.mem, sh.p, Fields(s.mem[sh.p]));
    assert Shape(sh.p, kids').kids == kids';
  }

  /** The pass follows exactly the children in tail position. */
  lemma {:induction false} TailsAreLast(s: State, sh: Shape)
    requires Legible(s, sh) && M.Passes(s.mem[sh.p].kind)
    requires s.parents != [] && s.parents[|s.parents| - 1] == sh.p
    ensures KidsLegible(s, sh.p, sh.kids, 0)
  {
    forall j | 0 <= j < |sh.kids|
      ensures Followed(s, sh.kids[j].p) <==> M.IsTail(s.mem[sh.p].kind, j, |sh.kids|)
    {
      assert Roots(sh.kids)[j] == sh.kids[j].p;
      if s.mem[sh.p].kind.BLOCK? {
        ChainNext(s.mem, Kid(s.mem[sh.p], 0), |s.mem|, j);
        assert Shows(s.mem, sh.kids[j]);
      } else if j > 0 {
        RootsDiffer(sh.kids, 0, j);
      }
    }
  }

  lemma {:induction false} ChainNext(mem: Memory, head: Ptr, fuel: nat, j: nat)
    requires Chain(mem, head, fuel).Some? && j < |Chain(mem, head, fuel).value|
    ensures var ps := Chain(mem, head, fuel).value;
            ps[j] in mem && mem[ps[j]].next == if j + 1 < |ps| then ps[j + 1] else NULL
    decreases fuel
  {
    if j > 0 {
      ChainNext(mem, mem[head].next, fuel - 1, j - 1);
    }
  }

  lemma {:induction false} ItemsInject(s: State, n: Ptr, items: seq<Item>, kids: seq<Shape>, v: M.Name, i: nat)
    returns (s': State, kids': seq<Shape>)
    requires KidsLegible(s, n, kids, i) && M.Passes(s.mem[n].kind) && Children(items) == Roots(kids)
    requires |s.parents| + MaxDepth(AbsAll(s.mem, kids)) <= MAX_PARENTS
    ensures VisitItems(YieldVisitor(v), n, items, kids, s) == Some((true, s'))
    ensures AllInjected(s, s', kids, kids', M.InjectKids(s.mem[n].kind, AbsAll(s.mem, kids), v, i))
    decreases kids, 0, |items|
  {
    if items == [] {
      assert |Roots(kids)| == |kids|;
      s', kids' := s, kids;
    } else if items[0].Gap? {
      s', kids' := ItemsInject(s, n, items[1..], kids, v, i);
    } else {
      FirstChild(items, kids);
      var s1, kid', t, ts := FirstInjects(s, n, kids, v, i);
      var rest': seq<Shape>;
      s', rest' := ItemsInject(s1, n, items[1..], kids[1..], v, i + 1);
      kids' := [kid'] + rest';
      Join(s, s1, s', kids, kid', rest', t, ts);
    }
  }

  /** The first child is visited; `t` is to become of it, and `ts` of the others. */
  lemma {:induction false} FirstInjects(s: State, n: Ptr, kids: seq<Shape>, v: M.Name, i: nat)
    returns (s1: State, kid': Shape, t: M.Tree, ts: seq<M.Tree>)
    requires KidsLegible(s, n, kids, i) && M.Passes(s.mem[n].kind) && kids != []
    requires |s.parents| + MaxDepth(AbsAll(s.mem, kids)) <= MAX_PARENTS
    ensures Visit(YieldVisitor(v), kids[0], s) == Some((true, s1)) && Injected(s, s1, kids[0], kid', t)
    ensures KidsLegible(s1, n, kids[1..], i + 1) && s1.mem[n] == s.mem[n]
    ensures |s1.parents| + MaxDepth(AbsAll(s1.mem, kids[1..])) <= MAX_PARENTS
    ensures ts == M.InjectKids(s1.mem[n].kind, AbsAll(s1.mem, kids[1..]), v, i + 1)
    ensures M.InjectKids(s.mem[n].kind, AbsAll(s.mem, kids), v, i) == [t] + ts
    decreases kids, 0, 0
  {
    FirstLegible(s, n, kids, i);
    t := M.InjectKids(s.mem[n].kind, AbsAll(s.mem, kids), v, i)[0];
    s1, kid' := KidInjects(s, kids[0], v, t);
    NextKids(s, s1, n, kids, kid', i, t);
    ts := M.InjectKids(s.mem[n].kind, AbsAll(s.mem, kids[1..]), v, i + 1);
  }

  lemma {:induction false} FirstLegible(s: State, n: Ptr, kids: seq<Shape>, i: nat)
    requires KidsLegible(s, n, kids, i) && kids != []
    ensures Legible(s, kids[0]) && n != kids[0].p
    ensures Followed(s, kids[0].p) <==> M.IsTail(s.mem[n].kind, i, i + |kids|)
    ensures AbsAll(s.mem, kids) == [Abs(s.mem, kids[0])] + AbsAll(s.mem, kids[1..])
  {
  }

  /** A rewritten child and its rewritten later siblings make a list of rewritten children. */
  lemma {:induction false} Join(s: State, s1: State, s': State, kids: seq<Shape>, kid': Shape, rest': seq<Shape>,
                                t: M.Tree, ts: seq<M.Tree>)
    requires kids != [] && AreTrees(kids) && Allocated(s) && AllShow(s.mem, kids)
    requires Injected(s, s1, kids[0], kid', t) && AllInjected(s1, s', kids[1..], rest', ts)
    ensures AllInjected(s, s', kids, [kid'] + rest', [t] + ts)
  {
    ApartFromRest(s, s1, kids, kid');
    TreeKept(s1.mem, s'.mem, kid', AllAddresses(kids[1..]));
    ConsKids(kid', rest');
    ConsShow(s'.mem, kid', rest');
    assert [kids[0]] + kids[1..] == kids;
    ConsKids(kids[0], kids[1..]);
    JoinReached(s, s1, s', kids, kid', rest');
  }

  lemma {:induction false} ApartFromRest(s: State, s1: State, kids: seq<Shape>, kid': Shape)
    requires kids != [] && AreTrees(kids) && Allocated(s) && AllShow(s.mem, kids)
    requires Reached(s, s1, Addresses(kids[0]), Addresses(kid'))
    ensures Addresses(kid') !! AllAddresses(kids[1..])
  {
    AllShownInside(s.mem, kids[1..]);
  }

  lemma {:induction false} JoinReached(s: State, s1: State, s': State, kids: seq<Shape>, kid': Shape, rest': seq<Shape>)
    requires kids != [] && Reached(s, s1, Addresses(kids[0]), Addresses(kid'))
    requires Reached(s1, s', AllAddresses(kids[1..]), AllAddresses(rest'))
    ensures Reached(s, s', AllAddresses(kids), AllAddresses([kid'] + rest'))
  {
    ConsKids(kid', rest');
  }

  lemma {:induction false} ConsKids(kid: Shape, rest: seq<Shape>)
    ensures Roots([kid] + rest) == [kid.p] + Roots(rest)
    ensures AllAddresses([kid] + rest) == Addresses(kid) + AllAddresses(rest)
  {
    assert ([kid] + rest)[1..] == rest;
  }

  lemma {:induction false} ConsShow(mem: Memory, kid: Shape, rest: seq<Shape>)
    requires Shows(mem, kid) && AllShow(mem, rest)
    ensures AllShow(mem, [kid] + rest) && AbsAll(mem, [kid] + rest) == [Abs(mem, kid)] + AbsAll(mem, rest)
  {
    var all := [kid] + rest;
    assert all[1..] == rest;
    forall j | 0 <= j < |all| ensures Shows(mem, all[j]) {
      if j > 0 { assert all[j] == rest[j - 1]; }
    }
  }

  /** Any child, on the tail or not. */
  lemma {:induction false} KidInjects(s: State, sh: Shape, v: M.Name, t: M.Tree) returns (s': State, sh': Shape)
    requires Legible(s, sh) && s.parents != [] && s.parents[|s.parents| - 1] != sh.p
    requires |s.parents| + TailDepth(Abs(s.mem, sh)) <= MAX_PARENTS
    requires t == if Followed(s, sh.p) then M.Inject(Abs(s.mem, sh), v) else Abs(s.mem, sh)
    ensures Visit(YieldVisitor(v), sh, s) == Some((true, s')) && Injected(s, s', sh, sh', t)
    decreases sh, 2
  {
    if Followed(s, sh.p) {
      s', sh' := VisitInjects(s, sh, v);
    } else {
      s', sh' := s, sh;
      LeftAlone(s, sh);
    }
  }

  /** After one child, the others are as they were. */
  lemma {:induction false} NextKids(s: State, s1: State, n: Ptr, kids: seq<Shape>, kid': Shape, i: nat, t: M.Tree)
    requires KidsLegible(s, n, kids, i) && kids != [] && Injected(s, s1, kids[0], kid', t)
    ensures KidsLegible(s1, n, kids[1..], i + 1) && s1.parents == s.parents
    ensures AbsAll(s1.mem, kids[1..]) == AbsAll(s.mem, kids[1..]) && s1.mem[n] == s.mem[n]
  {
    TreesKept(s.mem, s1.mem, kids[1..], Addresses(kids[0]));
    forall j | 0 <= j < |kids[1..]|
      ensures Followed(s1, kids[1..][j].p) <==> M.IsTail(s1.mem[n].kind, i + 1 + j, i + 1 + |kids[1..]|)
    {
      assert kids[1..][j] == kids[j + 1];
      assert Shows(s.mem, kids[j + 1]);
      FollowedKept(s, s1, n, kids[j + 1].p, Addresses(kids[0]));
    }
  }

  lemma {:induction false} FollowedKept(s: State, s1: State, n: Ptr, p: Ptr, ps: set<Ptr>)
    requires n in s.mem && n !in ps && p in s.mem && Keeps(s.mem, s1.mem, ps)
    requires s1.parents == s.parents && s.parents != [] && s.parents[|s.parents| - 1] == n
    ensures Followed(s1, p) <==> Followed(s, p)
  {
  }

  // ---------------------------------------------------------------- cell by cell

  /** Node `p` is the root of the tree, or reached from it through the last statements of blocks
      and the children behind the first of ifs, switches and cases. */
  ghost predicate TailAt(mem: Memory, sh: Shape, p: Ptr)
    decreases sh
  {
    p == sh.p
    || (sh.p in mem
        && match mem[sh.p].kind
           case BLOCK => sh.kids != [] && TailAt(mem, sh.kids[|sh.kids| - 1], p)
           case IF | SWITCH | CASE => exists i :: 1 <= i < |sh.kids| && TailAt(mem, sh.kids[i], p)
           case _ => false)
  }

  /** Statements with tails of their own, and those that yield nothing. */
  predicate StaysAsItIs(k: Kind) {
    match k
    case BLOCK | IF | SWITCH | CASE => true
    case BREAK | CONTINUE | RET | DEFER | VAR_DECL => true
    case _ => false
  }

  /** Node `p` has become the assignment of a copy of itself to a new identifier `v`. */
  ghost predicate AssignedAt(mem: Memory, out: Memory, v: M.Name, p: Ptr) {
    && p in mem && p in out && out[p].kind.BINOP? && out[p].tok.text == [61] && out[p].next == mem[p].next
    && |out[p].kids| == 2
    && var a, b := out[p].kids[0], out[p].kids[1];
    && a !in mem && b !in mem && a != b && a in out && b in out
    && out[a].kind.IDENTIF? && out[a].tok.text == v && out[b] == mem[p].(next := NULL)
  }

  ghost predicate CellAfter(mem: Memory, out: Memory, tail: bool, v: M.Name, p: Ptr) {
    && p in mem && p in out
    && if tail && !StaysAsItIs(mem[p].kind) then AssignedAt(mem, out, v, p) else out[p] == mem[p]
  }

  /** Node `p` stands in tail position below one of the children, the first being the `i`th. */
  ghost predicate KidsTail(mem: Memory, k: Kind, kids: seq<Shape>, i: nat, p: Ptr)
    decreases |kids|
  {
    && kids != []
    && ((M.IsTail(k, i, i + |kids|) && TailAt(mem, kids[0], p)) || KidsTail(mem, k, kids[1..], i + 1, p))
  }

  lemma {:induction false} KidsTailHas(mem: Memory, k: Kind, kids: seq<Shape>, i: nat, j: nat, p: Ptr)
    requires j < |kids| && M.IsTail(k, i + j, i + |kids|) && TailAt(mem, kids[j], p)
    ensures KidsTail(mem, k, kids, i, p)
    decreases |kids|
  {
    if j > 0 { KidsTailHas(mem, k, kids[1..], i + 1, j - 1, p); }
  }

  lemma {:induction false} KidsTailAt(mem: Memory, k: Kind, kids: seq<Shape>, i: nat, p: Ptr) returns (j: nat)
    requires KidsTail(mem, k, kids, i, p)
    ensures j < |kids| && M.IsTail(k, i + j, i + |kids|) && TailAt(mem, kids[j], p)
    decreases |kids|
  {
    j := 0;
    if !(M.IsTail(k, i, i + |kids|) && TailAt(mem, kids[0], p)) {
      var l := KidsTailAt(mem, k, kids[1..], i + 1, p);
      j := l + 1;
    }
  }

  lemma {:induction false} TailInside(mem: Memory, sh: Shape, p: Ptr)
    requires TailAt(mem, sh, p)
    ensures p in Addresses(sh)
    decreases sh
  {
    if p != sh.p {
      var i :| 0 <= i < |sh.kids| && TailAt(mem, sh.kids[i], p);
      TailInside(mem, sh.kids[i], p);
      KidInside(sh.kids, i, p);
    }
  }

  lemma {:induction false} TailSame(a: Memory, b: Memory, sh: Shape, p: Ptr)
    requires forall q :: q in Addresses(sh) ==> q in a && q in b && b[q] == a[q]
    ensures TailAt(b, sh, p) <==> TailAt(a, sh, p)
    decreases sh
  {
    forall i | 0 <= i < |sh.kids| ensures TailAt(b, sh.kids[i], p) <==> TailAt(a, sh.kids[i], p) {
      forall q | q in Addresses(sh.kids[i]) ensures q in AllAddresses(sh.kids) { KidInside(sh.kids, i, q); }
      TailSame(a, b, sh.kids[i], p);
    }
  }

  /** The tails of a node that passes the followed path on are its own place and those of its
      followed children. */
  lemma {:induction false} TailOfKids(mem: Memory, sh: Shape, p: Ptr)
    requires sh.p in mem && M.Passes(mem[sh.p].kind)
    ensures TailAt(mem, sh, p) <==> p == sh.p || KidsTail(mem, mem[sh.p].kind, sh.kids, 0, p)
  {
    var k, n := mem[sh.p].kind, |sh.kids|;
    if KidsTail(mem, k, sh.kids, 0, p) { var j := KidsTailAt(mem, k, sh.kids, 0, p); }
    if k.BLOCK? && n > 0 && TailAt(mem, sh.kids[n - 1], p) { KidsTailHas(mem, k, sh.kids, 0, n - 1, p); }
    if !k.BLOCK? {
      forall i | 1 <= i < n && TailAt(mem, sh.kids[i], p) ensures KidsTail(mem, k, sh.kids, 0, p) {
        KidsTailHas(mem, k, sh.kids, 0, i, p);
      }
    }
  }

  /** A visit overwrites exactly the tails that are no statements, and leaves every other cell of
      the memory as it was. */
  lemma {:induction false} VisitCells(s: State, sh: Shape, v: M.Name, s': State, p: Ptr)
    requires Legible(s, sh) && Followed(s, sh.p) && p in s.mem
    requires |s.parents| + TailDepth(Abs(s.mem, sh)) <= MAX_PARENTS
    requires Visit(YieldVisitor(v), sh, s) == Some((true, s'))
    ensures CellAfter(s.mem, s'.mem, TailAt(s.mem, sh, p), v, p)
    decreases sh, 1
  {
    var n := sh.p;
    if M.Passes(s.mem[n].kind) {
      PassCells(s, sh, v, s', p);
    } else {
      var s1 := s.(parents := s.parents + [n]);
      assert s1.parents[..|s.parents|] == s.parents;
      assert s'.mem == (if M.Excluded(s.mem[n].kind) then s.mem else Overwrite(s, n, v).mem);
    }
  }

  lemma {:induction false} PassCells(s: State, sh: Shape, v: M.Name, s': State, p: Ptr)
    requires Legible(s, sh) && Followed(s, sh.p) && p in s.mem && M.Passes(s.mem[sh.p].kind)
    requires |s.parents| + TailDepth(Abs(s.mem, sh)) <= MAX_PARENTS
    requires Visit(YieldVisitor(v), sh, s) == Some((true, s'))
    ensures CellAfter(s.mem, s'.mem, TailAt(s.mem, sh, p), v, p)
    decreases sh, 0
  {
    var s2 := PassRuns(s, sh, v);
    var s1 := s.(parents := s.parents + [sh.p]);
    ItemsCells(s1, sh.p, Items(s1.mem, sh.p).value, sh.kids, v, 0, s2, p);
    PassCell(s.mem, s2.mem, sh, v, p);
  }

  lemma {:induction false} PassCell(mem: Memory, out: Memory, sh: Shape, v: M.Name, p: Ptr)
    requires sh.p in mem && M.Passes(mem[sh.p].kind)
    requires CellAfter(mem, out, KidsTail(mem, mem[sh.p].kind, sh.kids, 0, p), v, p)
    ensures CellAfter(mem, out, TailAt(mem, sh, p), v, p)
  {
    TailOfKids(mem, sh, p);
  }

  lemma {:induction false} PassRuns(s: State, sh: Shape, v: M.Name) returns (s2: State)
    requires Legible(s, sh) && Followed(s, sh.p) && M.Passes(s.mem[sh.p].kind)
    requires |s.parents| + TailDepth(Abs(s.mem, sh)) <= MAX_PARENTS
    ensures var s1 := s.(parents := s.parents + [sh.p]);
            && s1.mem == s.mem && Children(Items(s.mem, sh.p).value) == Roots(sh.kids)
            && KidsLegible(s1, sh.p, sh.kids, 0) && |s1.parents| + MaxDepth(AbsAll(s.mem, sh.kids)) <= MAX_PARENTS
            && VisitItems(YieldVisitor(v), sh.p, Items(s.mem, sh.p).value, sh.kids, s1) == Some((true, s2))
    ensures Visit(YieldVisitor(v), sh, s) == Some((true, s2.(parents := s.parents)))
  {
    var s1 := s.(parents := s.parents + [sh.p]);
    TailsAreLast(s1, sh);
    var kids': seq<Shape>;
    s2, kids' := ItemsInject(s1, sh.p, Items(s.mem, sh.p).value, sh.kids, v, 0);
    PassVisits(s, s2, sh, v);
  }

  lemma {:induction false} ItemsCells(s: State, n: Ptr, items: seq<Item>, kids: seq<Shape>, v: M.Name, i: nat,
                                      s': State, p: Ptr)
    requires KidsLegible(s, n, kids, i) && M.Passes(s.mem[n].kind) && Children(items) == Roots(kids) && p in s.mem
    requires |s.parents| + MaxDepth(AbsAll(s.mem, kids)) <= MAX_PARENTS
    requires VisitItems(YieldVisitor(v), n, items, kids, s) == Some((true, s'))
    ensures CellAfter(s.mem, s'.mem, KidsTail(s.mem, s.mem[n].kind, kids, i, p), v, p)
    decreases kids, 1, |items|
  {
    assert |Roots(kids)| == |kids|;
    if items == [] {
    } else if items[0].Gap? {
      ItemsCells(s, n, items[1..], kids, v, i, s', p);
    } else {
      FirstChild(items, kids);
      var s1, kid', t, ts := FirstInjects(s, n, kids, v, i);
      FirstCell(s, n, kids, v, i, s1, p);
      ItemsCells(s1, n, items[1..], kids[1..], v, i + 1, s', p);
      var s2, rest' := ItemsInject(s1, n, items[1..], kids[1..], v, i + 1);
      CellsJoin(s, s1, s', n, kids, kid', rest', t, ts, v, i, p);
    }
  }

  /** What the visit of the first child does to a cell. */
  lemma {:induction false} FirstCell(s: State, n: Ptr, kids: seq<Shape>, v: M.Name, i: nat, s1: State, p: Ptr)
    requires KidsLegible(s, n, kids, i) && M.Passes(s.mem[n].kind) && kids != [] && p in s.mem
    requires |s.parents| + MaxDepth(AbsAll(s.mem, kids)) <= MAX_PARENTS
    requires Visit(YieldVisitor(v), kids[0], s) == Some((true, s1))
    ensures CellAfter(s.mem, s1.mem, M.IsTail(s.mem[n].kind, i, i + |kids|) && TailAt(s.mem, kids[0], p), v, p)
    decreases kids, 0, 0
  {
    FirstLegible(s, n, kids, i);
    if Followed(s, kids[0].p) { VisitCells(s, kids[0], v, s1, p); }
  }

  lemma {:induction false} CellsJoin(s: State, s1: State, s': State, n: Ptr, kids: seq<Shape>, kid': Shape,
                                     rest': seq<Shape>, t: M.Tree, ts: seq<M.Tree>, v: M.Name, i: nat, p: Ptr)
    requires KidsLegible(s, n, kids, i) && kids != [] && p in s.mem && s1.mem.Keys >= s.mem.Keys && n in s1.mem
    requires Injected(s, s1, kids[0], kid', t) && AllInjected(s1, s', kids[1..], rest', ts) && s1.mem[n] == s.mem[n]
    requires CellAfter(s.mem, s1.mem, M.IsTail(s.mem[n].kind, i, i + |kids|) && TailAt(s.mem, kids[0], p), v, p)
    requires CellAfter(s1.mem, s'.mem, KidsTail(s1.mem, s.mem[n].kind, kids[1..], i + 1, p), v, p)
    ensures CellAfter(s.mem, s'.mem, KidsTail(s.mem, s.mem[n].kind, kids, i, p), v, p)
  {
    AllShownInside(s.mem, kids[1..]);
    KidsTailSame(s.mem, s1.mem, s.mem[n].kind, kids[1..], i + 1, p);
    if TailAt(s.mem, kids[0], p) { TailInside(s.mem, kids[0], p); }
    if KidsTail(s.mem, s.mem[n].kind, kids[1..], i + 1, p) {
      KidsTailInside(s.mem, s.mem[n].kind, kids[1..], i + 1, p);
    }
  }

  lemma {:induction false} KidsTailInside(mem: Memory, k: Kind, kids: seq<Shape>, i: nat, p: Ptr)
    requires KidsTail(mem, k, kids, i, p)
    ensures p in AllAddresses(kids)
  {
    var j := KidsTailAt(mem, k, kids, i, p);
    TailInside(mem, kids[j], p);
    KidInside(kids, j, p);
  }

  lemma {:induction false} KidsTailSame(a: Memory, b: Memory, k: Kind, kids: seq<Shape>, i: nat, p: Ptr)
    requires forall q :: q in AllAddresses(kids) ==> q in a && q in b && b[q] == a[q]
    ensures KidsTail(b, k, kids, i, p) <==> KidsTail(a, k, kids, i, p)
    decreases |kids|
  {
    if kids != [] {
      TailSame(a, b, kids[0], p);
      KidsTailSame(a, b, k, kids[1..], i + 1, p);
    }
  }

  /** Running `t'` has the effects and the way of ending of running `t`, and leaves the value
      of `t` in variable `v`. */
  ghost predicate YieldsIn(v: M.Name, t: M.Tree, t': M.Tree) {
    forall P: M.Prims, s: M.State, s': M.State, fuel: nat
      {:trigger M.Exec(P, t, s, fuel), M.Exec(P, t', s', fuel)} ::
      M.Blind(P, v) && M.Same(v, s, s') ==> M.Yields(v, M.Exec(P, t, s, fuel), M.Exec(P, t', s', fuel))
  }

  lemma {:induction false} InjectYields(t: M.Tree, v: M.Name)
    requires M.Fresh(t, v) && M.TailOk(t)
    ensures YieldsIn(v, t, M.Inject(t, v))
  {
    forall P: M.Prims, s: M.State, s': M.State, fuel: nat | M.Blind(P, v) && M.Same(v, s, s')
      ensures M.Yields(v, M.Exec(P, t, s, fuel), M.Exec(P, M.Inject(t, v), s', fuel))
    {
      M.InjectKeepsMeaning(P, t, v, s, s', fuel);
    }
  }

  /** inject_yield_assignments: the node at `node` keeps its address and its place in its
      list, and the tree under it becomes the rewritten tree; every tail that is no statement has
      been overwritten with an assignment, and every other cell is as it was. */
  method InjectYieldAssignments(mem: Memory, node: Ptr, v: M.Name, next: Ptr, ghost sh: Shape)
    returns (out: Memory, next': Ptr, ghost sh': Shape)
    requires Allocated(State(mem, next, []))
    requires node != NULL ==>
               sh.p == node && Shows(mem, sh) && IsTree(sh) && Placed(mem, sh)
               && TailDepth(Abs(mem, sh)) <= MAX_PARENTS
    ensures node == NULL ==> out == mem && next' == next
    ensures node != NULL ==>
              && sh'.p == node && Shows(out, sh') && Abs(out, sh') == M.Inject(Abs(mem, sh), v)
              && Keeps(mem, out, Addresses(sh))
              && forall p :: p in mem ==> CellAfter(mem, out, TailAt(mem, sh, p), v, p)
    ensures node != NULL && M.Fresh(Abs(mem, sh), v) && M.TailOk(Abs(mem, sh)) ==>
              YieldsIn(v, Abs(mem, sh), Abs(out, sh'))
  {
    var s0 := State(mem, next, []);
    sh' := sh;
    if node == NULL { return mem, next, sh; }
    ghost var s1: State;
    s1, sh' := VisitInjects(s0, sh, v);
    var ok, s := Traverse(YieldVisitor(v), node, s0, sh);
    forall p | p in mem ensures CellAfter(mem, s.mem, TailAt(mem, sh, p), v, p) { VisitCells(s0, sh, v, s, p); }
    if M.Fresh(Abs(mem, sh), v) && M.TailOk(Abs(mem, sh)) { InjectYields(Abs(mem, sh), v); }
    return s.mem, s.next, sh';
  }
}
