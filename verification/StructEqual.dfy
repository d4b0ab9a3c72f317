/** Structural equality of two trees, in any two memories, and the promise of compute_node_hash
    (src/ast_serde.c) that it decides the hash: addresses play no part. */
module StructEqual {
  import opened Ast
  import opened Visitor
  import opened NodeHash
  import opened Clone

  /** The child pointers that head a sibling list. */
  predicate IsListKid(k: Kind, i: nat) {
    match k
    case PROGRAM | BLOCK | ARRAY_LIT | STRUCT | UNION | ENUM | EXTERN | FUNC => i == 0
    case FUNC_CALL | SWITCH => i == 1
    case FOR => i == 0 || i == 2
    case _ => false
  }

  /** The child pointers that belong to the tree: sizeof of a type has none. */
  predicate Belongs(c: Cell, i: nat) {
    i < Arity(c.kind) && !(c.kind.SIZEOF? && Flag(c, 0))
  }

  /** The child pointers that belong to the tree are the fields that are visited. */
  lemma {:induction false} LinkIsField(c: Cell, i: nat)
    requires Belongs(c, i) && Kid(c, i) != NULL
    ensures (if IsListKid(c.kind, i) then Listed(Kid(c, i)) else Single(Kid(c, i))) in Fields(c)
  {
    var f := if IsListKid(c.kind, i) then Listed(Kid(c, i)) else Single(Kid(c, i));
    match c.kind
    case FUNC | WHILE | CASE => assert Fields(c)[i] == f;
    case SWITCH | FOR => assert Fields(c)[i] == f;
    case BINOP | INDEX | FUNC_CALL => assert Fields(c)[2 * i] == f;
    case IF => assert Fields(c)[if i == 0 then 0 else if i == 1 then 2 else 4] == f;
    case PROGRAM | BLOCK | ARRAY_LIT | STRUCT | UNION | ENUM | EXTERN => assert Fields(c)[0] == f;
    case VAR_DECL | UOP | ADDR_OF | DEREF | MEMBER | ENUM_MEMBER | DEFER | CAST | RET | SIZEOF =>
      assert Fields(c)[0] == f;
    case _ =>
  }

  // ---------------------------------------------------------------- structural equality

  /** `x` and `y` are the same child of two nodes. */
  ghost predicate Paired(sh: Shape, th: Shape, x: Ptr, y: Ptr) {
    exists i :: 0 <= i < |sh.kids| && i < |th.kids| && sh.kids[i].p == x && th.kids[i].p == y
  }

  /** Two links that are both NULL, both lead back to their nodes, or lead to the same child. */
  ghost predicate LinkAlike(sh: Shape, th: Shape, x: Ptr, y: Ptr) {
    (x == NULL && y == NULL) || (x == sh.p && y == th.p) || Paired(sh, th, x, y)
  }

  ghost predicate ListsAlike(sh: Shape, th: Shape, xs: seq<Ptr>, ys: seq<Ptr>) {
    |xs| == |ys| && forall i :: 0 <= i < |xs| ==> LinkAlike(sh, th, xs[i], ys[i])
  }

  ghost predicate KidAlike(a: Memory, sh: Shape, b: Memory, th: Shape, list: bool, x: Ptr, y: Ptr) {
    if list then ListAt(a, x).Some? && ListAt(b, y).Some? && ListsAlike(sh, th, ListAt(a, x).value, ListAt(b, y).value)
    else LinkAlike(sh, th, x, y)
  }

  /** The same kind, tokens, flags and declared type. */
  predicate SameLabel(c: Cell, d: Cell) {
    c.kind == d.kind && c.tok == d.tok && c.alias == d.alias && c.flags == d.flags && c.dtype == d.dtype
  }

  ghost predicate NodesAlike(a: Memory, sh: Shape, b: Memory, th: Shape) {
    && sh.p in a && th.p in b && SameLabel(a[sh.p], b[th.p])
    && forall i: nat :: Belongs(a[sh.p], i) ==>
         KidAlike(a, sh, b, th, IsListKid(a[sh.p].kind, i), Kid(a[sh.p], i), Kid(b[th.p], i))
  }

  /** The two trees agree node by node. */
  ghost predicate Alike(a: Memory, sh: Shape, b: Memory, th: Shape)
    decreases sh
  {
    && NodesAlike(a, sh, b, th) && |sh.kids| == |th.kids|
    && forall i :: 0 <= i < |sh.kids| ==> Alike(a, sh.kids[i], b, th.kids[i])
  }

  // ---------------------------------------------------------------- alike recipes

  ghost predicate PartAlike(sh: Shape, th: Shape, x: Part, y: Part) {
    if x.Value? then y == x else y.HashOf? && LinkAlike(sh, th, x.p, y.p)
  }

  ghost predicate PartsAlike(sh: Shape, th: Shape, xs: seq<Part>, ys: seq<Part>) {
    |xs| == |ys| && forall i :: 0 <= i < |xs| ==> PartAlike(sh, th, xs[i], ys[i])
  }

  lemma {:induction false} HashedBelongs(c: Cell, h: Hashed)
    requires h in HashedKids(c)
    ensures Belongs(c, h.i) && (h.List? ==> IsListKid(c.kind, h.i))
  {
  }

  lemma {:induction false} SameOwnParts(c: Cell, d: Cell)
    requires SameLabel(c, d)
    ensures OwnWords(c) == OwnWords(d) && HashedKids(c) == HashedKids(d)
  {
  }

  /** What one entry of the recipe mixes in. */
  lemma {:induction false} HashedAlike(a: Memory, sh: Shape, b: Memory, th: Shape, h: Hashed)
    requires NodesAlike(a, sh, b, th) && h in HashedKids(a[sh.p])
    ensures ListsAlike(sh, th, HashedList(a, a[sh.p], h), HashedList(b, b[th.p], h))
    requires NULL !in Roots(sh.kids) && NULL !in Roots(th.kids) && sh.p != NULL && th.p != NULL
  {
    var c, d := a[sh.p], b[th.p];
    HashedBelongs(c, h);
    var x, y := Kid(c, h.i), Kid(d, h.i);
    assert KidAlike(a, sh, b, th, IsListKid(c.kind, h.i), x, y);
    if h.Node? {
      assert LinkAlike(sh, th, x, y) by {
        if IsListKid(c.kind, h.i) && x != NULL {
          assert LinkAlike(sh, th, ListAt(a, x).value[0], ListAt(b, y).value[0]);
        }
      }
      LinkNulls(sh, th, x, y);
    }
  }

  lemma {:induction false} LinkNulls(sh: Shape, th: Shape, x: Ptr, y: Ptr)
    requires LinkAlike(sh, th, x, y)
    requires NULL !in Roots(sh.kids) && NULL !in Roots(th.kids) && sh.p != NULL && th.p != NULL
    ensures x == NULL <==> y == NULL
  {
    if Paired(sh, th, x, y) {
      var i :| 0 <= i < |sh.kids| && i < |th.kids| && sh.kids[i].p == x && th.kids[i].p == y;
      assert Roots(sh.kids)[i] == x && Roots(th.kids)[i] == y;
    }
  }

  lemma {:induction false} KidPartsAlike(a: Memory, sh: Shape, b: Memory, th: Shape, hs: seq<Hashed>)
    requires sh.p in a && th.p in b
    requires forall h :: h in hs ==> ListsAlike(sh, th, HashedList(a, a[sh.p], h), HashedList(b, b[th.p], h))
    ensures PartsAlike(sh, th, KidParts(a, a[sh.p], hs), KidParts(b, b[th.p], hs))
    decreases |hs|
  {
    if hs != [] {
      assert hs[0] in hs;
      KidPartsAlike(a, sh, b, th, hs[1..]);
    }
  }

  lemma {:induction false} RecipesAlike(a: Memory, sh: Shape, b: Memory, th: Shape)
    requires NodesAlike(a, sh, b, th)
    requires NULL !in Roots(sh.kids) && NULL !in Roots(th.kids) && sh.p != NULL && th.p != NULL
    ensures PartsAlike(sh, th, Recipe(a, a[sh.p]), Recipe(b, b[th.p]))
  {
    var c, d := a[sh.p], b[th.p];
    SameOwnParts(c, d);
    forall h | h in HashedKids(c) ensures ListsAlike(sh, th, HashedList(a, c, h), HashedList(b, d, h)) {
      HashedAlike(a, sh, b, th, h);
    }
    KidPartsAlike(a, sh, b, th, HashedKids(c));
    assert forall i :: 0 <= i < |OwnParts(c)| ==> PartAlike(sh, th, OwnParts(c)[i], OwnParts(d)[i]);
  }

  // ---------------------------------------------------------------- equal hashes

  lemma {:induction false} NotInMany(n: Ptr, ps: seq<Ptr>, step: nat)
    ensures n !in Children(Many(n, ps, step)) && NULL !in Children(Many(n, ps, step))
    decreases |ps|
  {
    if |ps| > 1 {
      ChildrenConcat(One(n, ps[0]) + [Gap(step)], Many(n, ps[1..], step + 1));
      ChildrenConcat(One(n, ps[0]), [Gap(step)]);
      NotInMany(n, ps[1..], step + 1);
    }
  }

  /** Neither the node itself nor NULL is visited as a child. */
  lemma {:induction false} NotInAllItems(mem: Memory, n: Ptr, fs: seq<Field>)
    requires AllItems(mem, n, fs).Some?
    ensures n !in Children(AllItems(mem, n, fs).value) && NULL !in Children(AllItems(mem, n, fs).value)
  {
    if fs != [] {
      if fs[0].Listed? { NotInMany(n, ListAt(mem, fs[0].head).value, 0); }
      ChildrenConcat(FieldItems(mem, n, fs[0]).value, AllItems(mem, n, fs[1..]).value);
      NotInAllItems(mem, n, fs[1..]);
    }
  }

  /** The word mixed in for `p`. */
  function WordFor(hs: map<Ptr, u32>, p: Ptr): u32 {
    if p in hs then hs[p] else 0
  }

  lemma {:induction false} MixAlike(hash: u32, xs: seq<Part>, ys: seq<Part>, hs: map<Ptr, u32>, ks: map<Ptr, u32>)
    requires |xs| == |ys|
    requires forall i :: 0 <= i < |xs| ==>
               if xs[i].Value? then ys[i] == xs[i] else ys[i].HashOf? && WordFor(hs, xs[i].p) == WordFor(ks, ys[i].p)
    ensures Mix(hash, xs, hs) == Mix(hash, ys, ks)
    decreases |xs|
  {
    if xs != [] {
      var word := if xs[0].Value? then xs[0].word else WordFor(hs, xs[0].p);
      MixAlike(CombineHash(hash, word), xs[1..], ys[1..], hs, ks);
    }
  }

  /** The same child hashes alike on both sides. */
  lemma {:induction false} LinkWord(a: Memory, sh: Shape, b: Memory, th: Shape, x: Ptr, y: Ptr)
    requires LinkAlike(sh, th, x, y) && AreTrees(sh.kids) && AreTrees(th.kids) && |sh.kids| == |th.kids|
    requires NULL !in Roots(sh.kids) && NULL !in Roots(th.kids) && sh.p !in Roots(sh.kids) && th.p !in Roots(th.kids)
    requires forall i :: 0 <= i < |sh.kids| ==> StructHash(a, sh.kids[i]) == StructHash(b, th.kids[i])
    ensures WordFor(KidHashes(a, sh.kids), x) == WordFor(KidHashes(b, th.kids), y)
  {
    if Paired(sh, th, x, y) {
      var i :| 0 <= i < |sh.kids| && i < |th.kids| && sh.kids[i].p == x && th.kids[i].p == y;
      KidHashesAt(a, sh.kids, i);
      KidHashesAt(b, th.kids, i);
    }
  }

  /** Structurally equal trees hash equally, wherever their nodes lie. */
  lemma {:induction false} AlikeHash(a: Memory, sh: Shape, b: Memory, th: Shape)
    requires Shows(a, sh) && IsTree(sh) && Shows(b, th) && IsTree(th) && Alike(a, sh, b, th)
    requires sh.p != NULL && th.p != NULL
    ensures StructHash(a, sh) == StructHash(b, th)
    decreases sh
  {
    NotInAllItems(a, sh.p, Fields(a[sh.p]));
    NotInAllItems(b, th.p, Fields(b[th.p]));
    forall i | 0 <= i < |sh.kids| ensures StructHash(a, sh.kids[i]) == StructHash(b, th.kids[i]) {
      AllAreTrees(sh.kids, i);
      AllAreTrees(th.kids, i);
      assert Roots(sh.kids)[i] == sh.kids[i].p && Roots(th.kids)[i] == th.kids[i].p;
      AlikeHash(a, sh.kids[i], b, th.kids[i]);
    }
    var xs, ys := Recipe(a, a[sh.p]), Recipe(b, b[th.p]);
    RecipesAlike(a, sh, b, th);
    forall i | 0 <= i < |xs| && xs[i].HashOf?
      ensures WordFor(KidHashes(a, sh.kids), xs[i].p) == WordFor(KidHashes(b, th.kids), ys[i].p)
    {
      assert PartAlike(sh, th, xs[i], ys[i]);
      LinkWord(a, sh, b, th, xs[i].p, ys[i].p);
    }
    assert forall i :: 0 <= i < |xs| ==> PartAlike(sh, th, xs[i], ys[i]);
    MixAlike(Seed(a[sh.p].kind), xs, ys, KidHashes(a, sh.kids), KidHashes(b, th.kids));
  }

  /** Every child pointer that belongs to the tree is mixed in, in declaration order: a list as a
      whole, but only the first node of the two lists of a for loop. */
  lemma {:induction false} EveryChildIsMixed(c: Cell, i: nat)
    ensures i < |HashedKids(c)| <==> Belongs(c, i)
    ensures Belongs(c, i) ==>
              HashedKids(c)[i] == if IsListKid(c.kind, i) && !c.kind.FOR? then List(i) else Node(i)
  {
  }
}
