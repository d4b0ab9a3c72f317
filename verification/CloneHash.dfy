/** The clone of a tree (clone_ast, src/ast.c) is a tree, structurally equal to its source, and so
    compute_node_hash (src/ast_serde.c) returns the same value on both. */
module CloneHash {
  import opened Ast
  import opened Visitor
  import opened NodeHash
  import opened Clone
  import opened StructEqual

  /** A source tree in `a` and its clone in the memory `b` that has grown from it. */
  datatype Cloned = Cloned(a: Memory, root: Ptr, b: Memory, newRoot: Ptr, depth: nat)

  ghost predicate IsClone(k: Cloned) {
    && Isomorphic(k.a, k.root, k.b, k.newRoot) && AllNew(k.a, k.b, k.newRoot)
    && k.a.Keys <= k.b.Keys && Finite(k.a, k.root, k.depth)
  }

  // ---------------------------------------------------------------- twins

  /** `q` is the copy of `p` at some path. */
  ghost predicate Twins(k: Cloned, p: Ptr, q: Ptr) {
    p != NULL && q != NULL && exists path :: Follow(k.a, k.root, path) == p && Follow(k.b, k.newRoot, path) == q
  }

  ghost predicate MaybeTwins(k: Cloned, p: Ptr, q: Ptr) {
    (p == NULL && q == NULL) || Twins(k, p, q)
  }

  lemma {:induction false} TwinCell(k: Cloned, p: Ptr, q: Ptr)
    requires IsClone(k) && Twins(k, p, q)
    ensures p in k.a && q in k.b && SameBut(k.a[p], k.b[q])
  {
    var path :| Follow(k.a, k.root, path) == p && Follow(k.b, k.newRoot, path) == q;
    assert Matching(k.a, Follow(k.a, k.root, path), k.b, Follow(k.b, k.newRoot, path));
  }

  lemma {:induction false} TwinLink(k: Cloned, p: Ptr, q: Ptr, slot: nat)
    requires IsClone(k) && Twins(k, p, q) && p in k.a && q in k.b && slot <= Arity(k.a[p].kind)
    ensures MaybeTwins(k, Link(k.a[p], slot), Link(k.b[q], slot))
  {
    TwinCell(k, p, q);
    var path :| Follow(k.a, k.root, path) == p && Follow(k.b, k.newRoot, path) == q;
    FollowExtends(k.a, k.root, path, slot);
    FollowExtends(k.b, k.newRoot, path, slot);
    var longer := path + [slot];
    assert Matching(k.a, Follow(k.a, k.root, longer), k.b, Follow(k.b, k.newRoot, longer));
  }

  /** The clone shares nothing, so a copy tells its source. */
  lemma {:induction false} TwinBack(k: Cloned, p: Ptr, p': Ptr, q: Ptr)
    requires IsClone(k) && Twins(k, p, q) && Twins(k, p', q)
    ensures p == p'
  {
    TwinCell(k, p, q);
    var path :| Follow(k.a, k.root, path) == p && Follow(k.b, k.newRoot, path) == q;
    var path' :| Follow(k.a, k.root, path') == p' && Follow(k.b, k.newRoot, path') == q;
    assert path == path';
  }

  // ---------------------------------------------------------------- no node is below itself

  lemma {:induction false} FiniteMore(mem: Memory, p: Ptr, d: nat)
    requires Finite(mem, p, d)
    ensures Finite(mem, p, d + 1)
    decreases d
  {
    if p != NULL {
      forall slot: nat | slot <= Arity(mem[p].kind) ensures Finite(mem, Link(mem[p], slot), d) {
        FiniteMore(mem, Link(mem[p], slot), d - 1);
      }
    }
  }

  lemma {:induction false} FiniteAt(mem: Memory, root: Ptr, path: seq<nat>, d: nat)
    requires Finite(mem, root, d)
    ensures Finite(mem, Follow(mem, root, path), d)
    decreases |path|
  {
    if path != [] {
      var at := Follow(mem, root, path[..|path| - 1]);
      FiniteAt(mem, root, path[..|path| - 1], d);
      if at != NULL && path[|path| - 1] <= Arity(mem[at].kind) {
        FiniteMore(mem, Link(mem[at], path[|path| - 1]), d - 1);
      }
    }
  }

  lemma {:induction false} TwinFinite(k: Cloned, p: Ptr, q: Ptr)
    requires IsClone(k) && Twins(k, p, q)
    ensures Finite(k.a, p, k.depth)
  {
    var path :| Follow(k.a, k.root, path) == p && Follow(k.b, k.newRoot, path) == q;
    FiniteAt(k.a, k.root, path, k.depth);
  }

  lemma {:induction false} ChainFinite(mem: Memory, head: Ptr, fuel: nat, d: nat, p: Ptr)
    requires Finite(mem, head, d) && Chain(mem, head, fuel).Some? && p in Chain(mem, head, fuel).value
    ensures Finite(mem, p, d)
    decreases fuel
  {
    if p != head {
      assert Link(mem[head], 0) == mem[head].next;
      FiniteMore(mem, mem[head].next, d - 1);
      ChainFinite(mem, mem[head].next, fuel - 1, d, p);
    }
  }

  /** The least depth bound of a node does not bound the node from its own children. */
  lemma {:induction false} NotBelowItself(mem: Memory, n: Ptr, d: nat, slot: nat)
    requires Finite(mem, n, d) && n != NULL && slot <= Arity(mem[n].kind)
    ensures Link(mem[n], slot) != n
    ensures ListAt(mem, Link(mem[n], slot)).Some? ==> n !in ListAt(mem, Link(mem[n], slot)).value
    decreases d
  {
    if Finite(mem, n, d - 1) {
      NotBelowItself(mem, n, d - 1, slot);
    } else {
      var head := Link(mem[n], slot);
      if ListAt(mem, head).Some? && n in ListAt(mem, head).value { ChainFinite(mem, head, |mem|, d - 1, n); }
    }
  }

  // ---------------------------------------------------------------- twin lists and items

  ghost predicate TwinLists(k: Cloned, ps: seq<Ptr>, qs: seq<Ptr>) {
    |ps| == |qs| && forall i :: 0 <= i < |ps| ==> Twins(k, ps[i], qs[i])
  }

  lemma {:induction false} TwinChain(k: Cloned, p: Ptr, q: Ptr, fuel: nat)
    requires IsClone(k) && MaybeTwins(k, p, q) && Chain(k.a, p, fuel).Some?
    ensures Chain(k.b, q, fuel).Some? && TwinLists(k, Chain(k.a, p, fuel).value, Chain(k.b, q, fuel).value)
    decreases fuel
  {
    if p != NULL {
      TwinCell(k, p, q);
      TwinLink(k, p, q, 0);
      TwinChain(k, k.a[p].next, k.b[q].next, fuel - 1);
    }
  }

  lemma {:induction false} ChainMore(mem: Memory, head: Ptr, fuel: nat, more: nat)
    requires Chain(mem, head, fuel).Some? && fuel <= more
    ensures Chain(mem, head, more) == Chain(mem, head, fuel)
    decreases fuel
  {
    if head != NULL { ChainMore(mem, mem[head].next, fuel - 1, more - 1); }
  }

  lemma {:induction false} TwinList(k: Cloned, p: Ptr, q: Ptr)
    requires IsClone(k) && MaybeTwins(k, p, q) && ListAt(k.a, p).Some?
    ensures ListAt(k.b, q).Some? && TwinLists(k, ListAt(k.a, p).value, ListAt(k.b, q).value)
  {
    TwinChain(k, p, q, |k.a|);
    assert |k.a| <= |k.b| by { SubsetSize(k.a.Keys, k.b.Keys); }
    ChainMore(k.b, q, |k.a|, |k.b|);
  }

  lemma {:induction false} SubsetSize<T>(xs: set<T>, ys: set<T>)
    requires xs <= ys
    ensures |xs| <= |ys|
  {
    assert ys == xs + (ys - xs);
  }

  ghost predicate TwinItem(k: Cloned, x: Item, y: Item) {
    if x.Gap? then y == x else y.Child? && Twins(k, x.p, y.p)
  }

  ghost predicate TwinItems(k: Cloned, xs: seq<Item>, ys: seq<Item>) {
    |xs| == |ys| && forall i :: 0 <= i < |xs| ==> TwinItem(k, xs[i], ys[i])
  }

  lemma {:induction false} TwinOne(k: Cloned, n: Ptr, n': Ptr, p: Ptr, q: Ptr)
    requires IsClone(k) && Twins(k, n, n') && MaybeTwins(k, p, q) && p != n
    ensures TwinItems(k, One(n, p), One(n', q))
  {
    if p != NULL {
      TwinCell(k, p, q);
      if q == n' { TwinBack(k, p, n, q); }
    }
  }

  lemma {:induction false} TwinMany(k: Cloned, n: Ptr, n': Ptr, ps: seq<Ptr>, qs: seq<Ptr>, step: nat)
    requires IsClone(k) && Twins(k, n, n') && TwinLists(k, ps, qs) && n !in ps
    ensures TwinItems(k, Many(n, ps, step), Many(n', qs, step))
    decreases |ps|
  {
    if ps != [] {
      TwinOne(k, n, n', ps[0], qs[0]);
      if |ps| > 1 { TwinMany(k, n, n', ps[1..], qs[1..], step + 1); }
    }
  }

  ghost predicate TwinField(k: Cloned, f: Field, g: Field) {
    match f
    case Single(p) => g.Single? && MaybeTwins(k, p, g.p)
    case Listed(p) => g.Listed? && MaybeTwins(k, p, g.head)
    case Mark(_) => g == f
  }

  ghost predicate TwinFields(k: Cloned, fs: seq<Field>, gs: seq<Field>) {
    |fs| == |gs| && forall i :: 0 <= i < |fs| ==> TwinField(k, fs[i], gs[i])
  }

  /** The fields visited are links that are cloned. */
  lemma {:induction false} FieldsAreTwins(k: Cloned, p: Ptr, q: Ptr)
    requires IsClone(k) && Twins(k, p, q) && p in k.a && q in k.b
    ensures TwinFields(k, Fields(k.a[p]), Fields(k.b[q]))
  {
    TwinCell(k, p, q);
    var c, d := k.a[p], k.b[q];
    forall i: nat | i < Arity(c.kind) ensures MaybeTwins(k, Kid(c, i), Kid(d, i)) {
      TwinLink(k, p, q, i + 1);
    }
    assert d.kind == c.kind && d.flags == c.flags;
    FieldsMatch(k, c, d);
  }

  lemma {:induction false} FieldsMatch(k: Cloned, c: Cell, d: Cell)
    requires d.kind == c.kind && d.flags == c.flags
    requires forall i: nat :: i < Arity(c.kind) ==> MaybeTwins(k, Kid(c, i), Kid(d, i))
    ensures TwinFields(k, Fields(c), Fields(d))
  {
    match c.kind
    case PROGRAM | BLOCK | ARRAY_LIT | STRUCT | UNION | ENUM | EXTERN => assert MaybeTwins(k, Kid(c, 0), Kid(d, 0));
    case VAR_DECL | UOP | ADDR_OF | DEREF | MEMBER | ENUM_MEMBER | DEFER | CAST | RET | SIZEOF =>
      assert MaybeTwins(k, Kid(c, 0), Kid(d, 0));
    case FUNC | BINOP | INDEX | WHILE | CASE | FUNC_CALL =>
      assert MaybeTwins(k, Kid(c, 0), Kid(d, 0)) && MaybeTwins(k, Kid(c, 1), Kid(d, 1));
    case IF | SWITCH =>
      assert MaybeTwins(k, Kid(c, 0), Kid(d, 0)) && MaybeTwins(k, Kid(c, 1), Kid(d, 1));
      assert MaybeTwins(k, Kid(c, 2), Kid(d, 2));
    case FOR =>
      assert MaybeTwins(k, Kid(c, 0), Kid(d, 0)) && MaybeTwins(k, Kid(c, 1), Kid(d, 1));
      assert MaybeTwins(k, Kid(c, 2), Kid(d, 2)) && MaybeTwins(k, Kid(c, 3), Kid(d, 3));
    case _ =>
  }

  lemma {:induction false} TwinAllItems(k: Cloned, n: Ptr, n': Ptr, fs: seq<Field>, gs: seq<Field>)
    requires IsClone(k) && Twins(k, n, n') && TwinFields(k, fs, gs) && AllItems(k.a, n, fs).Some?
    requires forall i :: 0 <= i < |fs| ==> !InField(k.a, fs[i], n)
    ensures AllItems(k.b, n', gs).Some? && TwinItems(k, AllItems(k.a, n, fs).value, AllItems(k.b, n', gs).value)
    decreases |fs|
  {
    if fs != [] {
      assert TwinField(k, fs[0], gs[0]) && !InField(k.a, fs[0], n);
      match fs[0]
      case Single(p) => TwinOne(k, n, n', p, gs[0].p);
      case Mark(_) =>
      case Listed(p) =>
        TwinList(k, p, gs[0].head);
        TwinMany(k, n, n', ListAt(k.a, p).value, ListAt(k.b, gs[0].head).value, 0);
    }
    if fs != [] {
      TwinAllItems(k, n, n', fs[1..], gs[1..]);
    }
  }

  lemma {:induction false} NoFieldIsSelf(k: Cloned, n: Ptr, n': Ptr)
    requires IsClone(k) && Twins(k, n, n') && n in k.a
    ensures forall f :: f in Fields(k.a[n]) ==> !InField(k.a, f, n)
  {
    TwinFinite(k, n, n');
    var c := k.a[n];
    forall f | f in Fields(c) ensures !InField(k.a, f, n) {
      if !f.Mark? {
        FieldIsKid(c, f);
        var i: nat :| i < Arity(c.kind) && (if f.Single? then f.p else f.head) == Kid(c, i);
        NotBelowItself(k.a, n, k.depth, i + 1);
        assert Link(c, i + 1) == Kid(c, i);
      }
    }
  }

  lemma {:induction false} FieldIsKid(c: Cell, f: Field)
    requires f in Fields(c) && !f.Mark?
    ensures exists i: nat :: i < Arity(c.kind) && (if f.Single? then f.p else f.head) == Kid(c, i)
  {
    var p := if f.Single? then f.p else f.head;
    assert p == Kid(c, 0) || p == Kid(c, 1) || p == Kid(c, 2) || p == Kid(c, 3);
  }

  /** Twins have twin items. */
  lemma {:induction false} ItemsAreTwins(k: Cloned, p: Ptr, q: Ptr)
    requires IsClone(k) && Twins(k, p, q) && Items(k.a, p).Some?
    ensures Items(k.b, q).Some? && TwinItems(k, Items(k.a, p).value, Items(k.b, q).value)
  {
    TwinCell(k, p, q);
    FieldsAreTwins(k, p, q);
    NoFieldIsSelf(k, p, q);
    TwinAllItems(k, p, q, Fields(k.a[p]), Fields(k.b[q]));
  }

  lemma {:induction false} TwinChildren(k: Cloned, xs: seq<Item>, ys: seq<Item>)
    requires TwinItems(k, xs, ys)
    ensures TwinLists(k, Children(xs), Children(ys))
    decreases |xs|
  {
    if xs != [] {
      assert TwinItem(k, xs[0], ys[0]);
      TwinChildren(k, xs[1..], ys[1..]);
    }
  }

  // ---------------------------------------------------------------- the clone is alike

  lemma {:induction false} EmptyList(mem: Memory)
    ensures ListAt(mem, NULL) == Some([])
  {
  }

  /** A linked copy is the copy of the child that is linked. */
  lemma {:induction false} CopyIsPaired(k: Cloned, sh: Shape, th: Shape, x: Ptr, y: Ptr)
    requires IsClone(k) && TwinLists(k, Roots(sh.kids), Roots(th.kids)) && Twins(k, x, y) && y in Roots(th.kids)
    ensures Paired(sh, th, x, y)
  {
    var j :| 0 <= j < |th.kids| && Roots(th.kids)[j] == y;
    assert |sh.kids| == |Roots(sh.kids)| == |Roots(th.kids)| == |th.kids|;
    assert Twins(k, Roots(sh.kids)[j], Roots(th.kids)[j]);
    TwinBack(k, x, sh.kids[j].p, y);
  }

  /** What is listed in a visited field is the node itself or one of the children. */
  lemma {:induction false} ShownField(mem: Memory, th: Shape, f: Field, y: Ptr)
    requires Shows(mem, th) && f in Fields(mem[th.p]) && InField(mem, f, y) && y != NULL
    ensures y == th.p || y in Roots(th.kids)
  {
    if y != th.p { FieldCovers(mem, th.p, Fields(mem[th.p]), f, y); }
  }

  /** One link of the clone, as an entry of the field `f` that is visited there. */
  lemma {:induction false} CopyIsAlike(k: Cloned, sh: Shape, th: Shape, x: Ptr, y: Ptr, f: Field)
    requires IsClone(k) && Twins(k, sh.p, th.p) && TwinLists(k, Roots(sh.kids), Roots(th.kids)) && Twins(k, x, y)
    requires Shows(k.b, th) && f in Fields(k.b[th.p]) && InField(k.b, f, y)
    ensures LinkAlike(sh, th, x, y)
  {
    ShownField(k.b, th, f, y);
    if y == th.p { TwinBack(k, x, sh.p, y); } else { CopyIsPaired(k, sh, th, x, y); }
  }

  lemma {:induction false} KidIsAlike(k: Cloned, sh: Shape, th: Shape, i: nat)
    requires IsClone(k) && Twins(k, sh.p, th.p) && TwinLists(k, Roots(sh.kids), Roots(th.kids))
    requires Shows(k.a, sh) && Shows(k.b, th) && k.a[sh.p].kind == k.b[th.p].kind && Belongs(k.a[sh.p], i)
    requires Belongs(k.b[th.p], i) && MaybeTwins(k, Kid(k.a[sh.p], i), Kid(k.b[th.p], i))
    ensures KidAlike(k.a, sh, k.b, th, IsListKid(k.a[sh.p].kind, i), Kid(k.a[sh.p], i), Kid(k.b[th.p], i))
  {
    var c, d := k.a[sh.p], k.b[th.p];
    var list, x, y := IsListKid(c.kind, i), Kid(c, i), Kid(d, i);
    if y == NULL {
      EmptyList(k.a);
      EmptyList(k.b);
    } else {
      LinkIsField(c, i);
      LinkIsField(d, i);
      if list {
        FieldLists(k.a, sh.p, Fields(c), Listed(x));
        TwinList(k, x, y);
        var xs, ys := ListAt(k.a, x).value, ListAt(k.b, y).value;
        forall j | 0 <= j < |xs| ensures LinkAlike(sh, th, xs[j], ys[j]) {
          CopyIsAlike(k, sh, th, xs[j], ys[j], Listed(y));
        }
      } else {
        CopyIsAlike(k, sh, th, x, y, Single(y));
      }
    }
  }

  lemma {:induction false} CopiedLabel(c: Cell, d: Cell)
    requires SameBut(c, d)
    ensures SameLabel(c, d) && c.hash == d.hash && forall i: nat :: Belongs(c, i) == Belongs(d, i)
  {
    assert d.kind == c.kind && d.tok == c.tok && d.alias == c.alias && d.flags == c.flags && d.dtype == c.dtype;
  }

  lemma {:induction false} NodeIsAlike(k: Cloned, sh: Shape, th: Shape)
    requires IsClone(k) && Twins(k, sh.p, th.p) && TwinLists(k, Roots(sh.kids), Roots(th.kids))
    requires Shows(k.a, sh) && Shows(k.b, th)
    ensures NodesAlike(k.a, sh, k.b, th)
  {
    TwinCell(k, sh.p, th.p);
    var c, d := k.a[sh.p], k.b[th.p];
    CopiedLabel(c, d);
    forall i: nat | Belongs(c, i) ensures KidAlike(k.a, sh, k.b, th, IsListKid(c.kind, i), Kid(c, i), Kid(d, i)) {
      TwinLink(k, sh.p, th.p, i + 1);
      KidIsAlike(k, sh, th, i);
    }
  }

  // ---------------------------------------------------------------- the clone is a tree

  /** Each of `qs` is the copy of one of `ps`. */
  ghost predicate CopiesOf(k: Cloned, ps: set<Ptr>, qs: set<Ptr>) {
    forall q :: q in qs ==> exists p :: p in ps && Twins(k, p, q)
  }

  lemma {:induction false} CopiesApart(k: Cloned, ps: set<Ptr>, qs: set<Ptr>, ps': set<Ptr>, qs': set<Ptr>)
    requires IsClone(k) && CopiesOf(k, ps, qs) && CopiesOf(k, ps', qs') && ps !! ps'
    ensures qs !! qs'
  {
    forall q | q in qs ensures q !in qs' {
      var p :| p in ps && Twins(k, p, q);
      forall p' | Twins(k, p', q) ensures p' == p { TwinBack(k, p, p', q); }
    }
  }

  lemma {:induction false} CopiesJoin(k: Cloned, ps: set<Ptr>, qs: set<Ptr>, ps': set<Ptr>, qs': set<Ptr>)
    requires CopiesOf(k, ps, qs) && CopiesOf(k, ps', qs')
    ensures CopiesOf(k, ps + ps', qs + qs')
  {
    forall q | q in qs + qs' ensures exists p :: p in ps + ps' && Twins(k, p, q) {
      if q in qs {
        var p :| p in ps && Twins(k, p, q);
        assert p in ps + ps';
      } else {
        var p :| p in ps' && Twins(k, p, q);
        assert p in ps + ps';
      }
    }
  }

  /** Below `q` lies the tree `th`, structurally equal to `sh`. */
  ghost predicate TreeAt(k: Cloned, sh: Shape, q: Ptr, th: Shape) {
    && th.p == q && Shows(k.b, th) && IsTree(th) && Alike(k.a, sh, k.b, th)
    && (StoredRight(k.a, sh) ==> StoredRight(k.b, th)) && CopiesOf(k, Addresses(sh), Addresses(th))
  }

  ghost predicate TreesAt(k: Cloned, shs: seq<Shape>, qs: seq<Ptr>, ths: seq<Shape>)
    decreases |shs|
  {
    && |shs| == |qs| == |ths|
    && (shs != [] ==> TreeAt(k, shs[0], qs[0], ths[0]) && TreesAt(k, shs[1..], qs[1..], ths[1..]))
  }

  /** The clone of a tree is a tree that is structurally equal. */
  lemma {:induction false} TreeIsCloned(k: Cloned, sh: Shape, q: Ptr) returns (th: Shape)
    requires IsClone(k) && Twins(k, sh.p, q) && Shows(k.a, sh) && IsTree(sh)
    ensures TreeAt(k, sh, q, th)
    decreases sh, 1
  {
    TwinCell(k, sh.p, q);
    ItemsAreTwins(k, sh.p, q);
    TwinChildren(k, Items(k.a, sh.p).value, Items(k.b, q).value);
    var qs := Children(Items(k.b, q).value);
    var ths := TreesAreCloned(k, sh.kids, qs);
    th := Shape(q, ths);
    TreesJoin(k, sh.kids, qs, ths);
    NodeIsAlike(k, sh, th);
    NodeJoin(k, sh, th);
  }

  lemma {:induction false} NodeJoin(k: Cloned, sh: Shape, th: Shape)
    requires IsClone(k) && Twins(k, sh.p, th.p) && Shows(k.a, sh) && IsTree(sh) && Shows(k.b, th)
    requires NodesAlike(k.a, sh, k.b, th) && AllTreesAt(k, sh.kids, th.kids) && AreTrees(th.kids)
    requires AllStoredRight(k.a, sh.kids) ==> AllStoredRight(k.b, th.kids)
    requires CopiesOf(k, AllAddresses(sh.kids), AllAddresses(th.kids))
    ensures TreeAt(k, sh, th.p, th)
  {
    TwinCell(k, sh.p, th.p);
    CopiedLabel(k.a[sh.p], k.b[th.p]);
    assert CopiesOf(k, {sh.p}, {th.p});
    CopiesApart(k, {sh.p}, {th.p}, AllAddresses(sh.kids), AllAddresses(th.kids));
    CopiesJoin(k, {sh.p}, {th.p}, AllAddresses(sh.kids), AllAddresses(th.kids));
    assert Alike(k.a, sh, k.b, th);
    AlikeHash(k.a, sh, k.b, th);
  }

  ghost predicate AllTreesAt(k: Cloned, shs: seq<Shape>, ths: seq<Shape>) {
    |shs| == |ths| && forall i :: 0 <= i < |shs| ==> Alike(k.a, shs[i], k.b, ths[i])
  }

  lemma {:induction false} TreesAreCloned(k: Cloned, shs: seq<Shape>, qs: seq<Ptr>) returns (ths: seq<Shape>)
    requires IsClone(k) && TwinLists(k, Roots(shs), qs) && AreTrees(shs) && AllShow(k.a, shs)
    ensures TreesAt(k, shs, qs, ths)
    decreases shs, 0
  {
    if shs == [] {
      ths := [];
    } else {
      TwinListsTail(k, shs, qs);
      var first := TreeIsCloned(k, shs[0], qs[0]);
      var rest := TreesAreCloned(k, shs[1..], qs[1..]);
      ths := [first] + rest;
      assert ths[1..] == rest;
    }
  }

  lemma {:induction false} TwinListsTail(k: Cloned, shs: seq<Shape>, qs: seq<Ptr>)
    requires shs != [] && TwinLists(k, Roots(shs), qs) && AllShow(k.a, shs)
    ensures |qs| == |shs|
    ensures Twins(k, shs[0].p, qs[0]) && TwinLists(k, Roots(shs[1..]), qs[1..])
    ensures Shows(k.a, shs[0]) && AllShow(k.a, shs[1..])
  {
    assert Roots(shs)[0] == shs[0].p;
    assert Roots(shs)[1..] == Roots(shs[1..]);
  }

  lemma {:induction false} TreesJoin(k: Cloned, shs: seq<Shape>, qs: seq<Ptr>, ths: seq<Shape>)
    requires IsClone(k) && AreTrees(shs) && TreesAt(k, shs, qs, ths)
    ensures Roots(ths) == qs && AllTreesAt(k, shs, ths) && AllShow(k.b, ths) && AreTrees(ths)
    ensures AllStoredRight(k.a, shs) ==> AllStoredRight(k.b, ths)
    ensures CopiesOf(k, AllAddresses(shs), AllAddresses(ths))
    decreases |shs|
  {
    if shs != [] {
      TreesJoin(k, shs[1..], qs[1..], ths[1..]);
      CopiesApart(k, Addresses(shs[0]), Addresses(ths[0]), AllAddresses(shs[1..]), AllAddresses(ths[1..]));
      CopiesJoin(k, Addresses(shs[0]), Addresses(ths[0]), AllAddresses(shs[1..]), AllAddresses(ths[1..]));
      TreesCons(k, shs, qs, ths);
    }
  }

  lemma {:induction false} TreesCons(k: Cloned, shs: seq<Shape>, qs: seq<Ptr>, ths: seq<Shape>)
    requires shs != [] && |shs| == |qs| == |ths|
    requires ths[0].p == qs[0] && Alike(k.a, shs[0], k.b, ths[0]) && Shows(k.b, ths[0])
    requires Roots(ths[1..]) == qs[1..] && AllTreesAt(k, shs[1..], ths[1..]) && AllShow(k.b, ths[1..])
    ensures Roots(ths) == qs && AllTreesAt(k, shs, ths) && AllShow(k.b, ths)
  {
    forall i | 0 <= i < |shs| ensures Alike(k.a, shs[i], k.b, ths[i]) && Shows(k.b, ths[i]) {
      if i > 0 { assert shs[i] == shs[1..][i - 1] && ths[i] == ths[1..][i - 1]; }
    }
    assert Roots(ths) == [ths[0].p] + Roots(ths[1..]);
    assert qs == [qs[0]] + qs[1..];
  }

  // ---------------------------------------------------------------- the hashes

  /** What clone_ast returns for a tree is a tree, structurally equal to it and of the same
      structural hash, and every hash copied into it is still right. */
  lemma {:induction false} CloneHashesEqually(k: Cloned, sh: Shape) returns (th: Shape)
    requires IsClone(k) && k.root != NULL && sh.p == k.root && Shows(k.a, sh) && IsTree(sh)
    ensures th.p == k.newRoot && k.newRoot != NULL && Shows(k.b, th) && IsTree(th)
    ensures Alike(k.a, sh, k.b, th) && StructHash(k.b, th) == StructHash(k.a, sh)
    ensures StoredRight(k.a, sh) ==> StoredRight(k.b, th)
  {
    assert Follow(k.a, k.root, []) == k.root && Follow(k.b, k.newRoot, []) == k.newRoot;
    assert Matching(k.a, Follow(k.a, k.root, []), k.b, Follow(k.b, k.newRoot, []));
    th := TreeIsCloned(k, sh, k.newRoot);
    AlikeHash(k.a, sh, k.b, th);
  }

  /** clone_ast and then compute_node_hash, on the tree and on its clone. */
  method HashClone(mem: Memory, top: Ptr, root: Ptr, ghost depth: nat, ghost sh: Shape)
    returns (newRoot: Ptr, hash: u32, newHash: u32)
    requires Below(mem, top) && Finite(mem, root, depth)
    requires root != NULL ==> sh.p == root && Shows(mem, sh) && IsTree(sh) && StoredRight(mem, sh)
    ensures root == NULL ==> newRoot == NULL && hash == newHash == 0
    ensures root != NULL ==> newRoot !in mem && hash == newHash == StructHash(mem, sh)
  {
    var mem', top' := mem, top;
    mem', top', newRoot := CloneAst(mem, top, root, depth);
    assert Follow(mem, root, []) == root && Follow(mem', newRoot, []) == newRoot;
    assert Matching(mem, Follow(mem, root, []), mem', Follow(mem', newRoot, []));
    ghost var th := sh;
    if root != NULL { th := CloneHashesEqually(Cloned(mem, root, mem', newRoot, depth), sh); }
    var out, out' := mem, mem';
    hash, out := ComputeNodeHash(mem, root, sh);
    newHash, out' := ComputeNodeHash(mem', newRoot, th);
  }
}
