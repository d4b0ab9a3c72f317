/** The iterative deep copy of src/ast.c (clone_ast, clone_child). */
module Clone {
  import opened Ast

  // ---------------------------------------------------------------- links and paths

  /** The number of child pointers the switch of clone_ast follows. */
  function Arity(k: Kind): (r: nat)
    ensures r <= 4
  {
    match k
    case PROGRAM | BLOCK | VAR_DECL | UOP | ADDR_OF | DEREF | ARRAY_LIT | MEMBER | RET | DEFER | EXTERN | CAST
       | STRUCT | UNION | ENUM | ENUM_MEMBER | SIZEOF => 1
    case FUNC | BINOP | WHILE | FUNC_CALL | INDEX | CASE => 2
    case IF | SWITCH => 3
    case FOR => 4
    case _ => 0
  }

  /** Link 0 of a node is its sibling, link i + 1 its child i. */
  function Link(c: Cell, slot: nat): Ptr {
    if slot == 0 then c.next else Kid(c, slot - 1)
  }

  function SetLink(c: Cell, slot: nat, p: Ptr): Cell
    requires slot <= |c.kids|
  {
    if slot == 0 then c.(next := p) else c.(kids := c.kids[slot - 1 := p])
  }

  /** The node reached from `p` by following the links of `path` in order; NULL when there is
      none. */
  function Follow(mem: Memory, p: Ptr, path: seq<nat>): Ptr
    decreases |path|
  {
    if path == [] then p
    else
      var at, slot := Follow(mem, p, path[..|path| - 1]), path[|path| - 1];
      if at == NULL || at !in mem || slot > Arity(mem[at].kind) then NULL else Link(mem[at], slot)
  }

  /** No path from `p` is longer than `depth`, and none leaves the memory. */
  predicate Finite(mem: Memory, p: Ptr, depth: nat)
    decreases depth
  {
    p == NULL
    || (p in mem && depth > 0
        && forall slot: nat :: slot <= Arity(mem[p].kind) ==> Finite(mem, Link(mem[p], slot), depth - 1))
  }

  /** More than the nodes copied from a node of this depth, which has at most five links. */
  function Bound(depth: nat): (r: nat)
    ensures r > 0
  {
    if depth == 0 then 1 else 6 * Bound(depth - 1)
  }

  // ---------------------------------------------------------------- the copy in progress

  datatype Pair = Pair(src: Ptr, dst: Ptr)

  /** Link `slot` of the copy `q` is NULL like that of its source, or leads to the copy made
      for that path. */
  ghost predicate LinkCopied(path: map<Ptr, seq<nat>>, q: Ptr, s: Cell, c: Cell, slot: nat)
    requires q in path
  {
    if Link(s, slot) == NULL then Link(c, slot) == NULL
    else Link(c, slot) in path && path[Link(c, slot)] == path[q] + [slot]
  }

  /** Everything but the links is the same. */
  ghost predicate SameBut(s: Cell, c: Cell) {
    c.(next := s.next, kids := s.kids) == s && |c.kids| == |s.kids|
  }

  ghost predicate Copied(path: map<Ptr, seq<nat>>, q: Ptr, s: Cell, c: Cell)
    requires q in path
  {
    SameBut(s, c) && forall slot: nat :: slot <= Arity(s.kind) ==> LinkCopied(path, q, s, c, slot)
  }

  /** The source is untouched, and every new node is the copy, at one path, of the source
      node there; those in `pending` still lack their links. */
  ghost predicate Cloning(m: Memory, root: Ptr, mem: Memory, path: map<Ptr, seq<nat>>, pending: set<Ptr>) {
    && (forall p :: p in m ==> p in mem && mem[p] == m[p])
    && (forall q :: q in path <==> q in mem && q !in m)
    && (forall q :: q in path ==> q != NULL && Follow(m, root, path[q]) in m && Follow(m, root, path[q]) != NULL)
    && forall q :: q in path && q !in pending ==> Copied(path, q, m[Follow(m, root, path[q])], mem[q])
  }

  /** The pairs on the stack are shallow copies, without a sibling yet. */
  ghost predicate Stacked(m: Memory, root: Ptr, mem: Memory, path: map<Ptr, seq<nat>>, stack: seq<Pair>,
                          depths: seq<nat>) {
    && |depths| == |stack|
    && (forall i :: 0 <= i < |stack| ==>
         && stack[i].dst in path && stack[i].src in m && Follow(m, root, path[stack[i].dst]) == stack[i].src
         && stack[i].dst in mem && mem[stack[i].dst] == m[stack[i].src].(next := NULL)
         && Finite(m, stack[i].src, depths[i]))
    && forall i, j :: 0 <= i < j < |stack| ==> stack[i].dst != stack[j].dst
  }

  function Dsts(stack: seq<Pair>): set<Ptr> {
    set i | 0 <= i < |stack| :: stack[i].dst
  }

  /** A bound on the nodes still to be copied, with shared nodes counted once for each path. */
  function Load(depths: seq<nat>): nat {
    if depths == [] then 0 else Load(depths[..|depths| - 1]) + Bound(depths[|depths| - 1])
  }

  /** The load of the stack, less a bound `step` for each of the links below `slot`. */
  function Spare(depths: seq<nat>, slot: nat, step: nat): int {
    Load(depths) - Repeated(slot, step)
  }

  function Repeated(n: nat, x: nat): nat {
    if n == 0 then 0 else Repeated(n - 1, x) + x
  }

  lemma {:induction false} LoadMore(depths: seq<nat>, depth: nat)
    ensures Load(depths + [depth]) == Load(depths) + Bound(depth)
  {
    assert (depths + [depth])[..|depths|] == depths;
  }

  /** The links below `done` are copied, the others are still the source's. */
  ghost predicate Partly(path: map<Ptr, seq<nat>>, q: Ptr, s: Cell, c: Cell, done: nat)
    requires q in path
  {
    && SameBut(s, c)
    && (forall slot: nat :: slot < done ==> LinkCopied(path, q, s, c, slot))
    && (forall slot: nat :: slot >= done ==> Link(c, slot) == if slot == 0 then NULL else Link(s, slot))
  }

  ghost predicate Below(mem: Memory, top: Ptr) {
    top != NULL && forall p :: p in mem ==> p < top
  }

  /** The links of `pair` below `slot` are being copied. */
  ghost predicate Linking(m: Memory, root: Ptr, mem: Memory, top: Ptr, path: map<Ptr, seq<nat>>, stack: seq<Pair>,
                          depths: seq<nat>, pair: Pair, slot: nat) {
    && Below(mem, top) && pair.src in m && pair.dst in path && pair.dst in mem && pair.dst !in Dsts(stack)
    && Follow(m, root, path[pair.dst]) == pair.src
    && Cloning(m, root, mem, path, Dsts(stack) + {pair.dst}) && Stacked(m, root, mem, path, stack, depths)
    && Partly(path, pair.dst, m[pair.src], mem[pair.dst], slot)
  }

  // One child is copied: the memory, the paths and the stack grow by the same node.

  function Grown(mem: Memory, top: Ptr, child: Ptr, dst: Ptr, slot: nat): Memory
    requires child in mem && dst in mem && slot <= |mem[dst].kids|
  {
    mem[top := mem[child].(next := NULL)][dst := SetLink(mem[dst], slot, top)]
  }

  lemma {:induction false} FollowExtends(m: Memory, root: Ptr, path: seq<nat>, slot: nat)
    requires Follow(m, root, path) in m && Follow(m, root, path) != NULL
    requires slot <= Arity(m[Follow(m, root, path)].kind)
    ensures Follow(m, root, path + [slot]) == Link(m[Follow(m, root, path)], slot)
  {
    assert (path + [slot])[..|path|] == path;
  }

  lemma {:induction false} StillCopied(path: map<Ptr, seq<nat>>, path': map<Ptr, seq<nat>>, q: Ptr, s: Cell, c: Cell)
    requires q in path && Copied(path, q, s, c)
    requires forall p :: p in path ==> p in path' && path'[p] == path[p]
    ensures Copied(path', q, s, c)
  {
    forall k: nat | k <= Arity(s.kind) ensures LinkCopied(path', q, s, c, k) { assert LinkCopied(path, q, s, c, k); }
  }

  lemma {:induction false} GrowCloning(m: Memory, root: Ptr, mem: Memory, path: map<Ptr, seq<nat>>, pending: set<Ptr>,
                                       top: Ptr,
                    child: Ptr, dst: Ptr, slot: nat)
    requires Cloning(m, root, mem, path, pending) && Below(mem, top)
    requires dst in path && dst in pending && child in m && child != NULL
    requires var s := m[Follow(m, root, path[dst])]; slot <= Arity(s.kind) && Link(s, slot) == child
    requires slot <= |mem[dst].kids|
    ensures Cloning(m, root, Grown(mem, top, child, dst, slot), path[top := path[dst] + [slot]], pending + {top})
  {
    var mem', path' := Grown(mem, top, child, dst, slot), path[top := path[dst] + [slot]];
    FollowExtends(m, root, path[dst], slot);
    forall q | q in path' && q !in pending + {top}
      ensures Copied(path', q, m[Follow(m, root, path'[q])], mem'[q])
    {
      assert mem'[q] == mem[q] && path'[q] == path[q];
      StillCopied(path, path', q, m[Follow(m, root, path[q])], mem[q]);
    }
  }

  lemma {:induction false} GrowStacked(m: Memory, root: Ptr, mem: Memory, path: map<Ptr, seq<nat>>, stack: seq<Pair>,
                                       depths: seq<nat>,
                    top: Ptr, child: Ptr, dst: Ptr, slot: nat, depth: nat)
    requires Stacked(m, root, mem, path, stack, depths) && Below(mem, top) && Finite(m, child, depth)
    requires dst in path && dst in mem && dst !in Dsts(stack) && child in m && child in mem && mem[child] == m[child]
    requires Follow(m, root, path[dst] + [slot]) == child && slot <= |mem[dst].kids|
    ensures Stacked(m, root, Grown(mem, top, child, dst, slot), path[top := path[dst] + [slot]],
                    stack + [Pair(child, top)], depths + [depth])
    ensures Dsts(stack + [Pair(child, top)]) == Dsts(stack) + {top} && top !in Dsts(stack)
  {
    var stack' := stack + [Pair(child, top)];
    assert stack'[|stack|].dst == top;
    forall i | 0 <= i < |stack| ensures stack[i].dst in Dsts(stack) && stack'[i] == stack[i] {}
  }

  lemma {:induction false} GrowPartly(path: map<Ptr, seq<nat>>, top: Ptr, dst: Ptr, slot: nat, s: Cell, c: Cell)
    requires dst in path && top !in path && top != NULL && Link(s, slot) != NULL
    requires Partly(path, dst, s, c, slot)
    ensures slot <= |c.kids|
    ensures Partly(path[top := path[dst] + [slot]], dst, s, SetLink(c, slot, top), slot + 1)
  {
    var c', path' := SetLink(c, slot, top), path[top := path[dst] + [slot]];
    forall k: nat | k < slot + 1 ensures LinkCopied(path', dst, s, c', k) {
      if k < slot { assert LinkCopied(path, dst, s, c, k); }
    }
    forall k: nat | k > slot ensures Link(c', k) == Link(s, k) { assert Link(c, k) == Link(s, k); }
  }

  /** The paths found so far are kept. */
  ghost predicate Extends(path: map<Ptr, seq<nat>>, path': map<Ptr, seq<nat>>) {
    forall q :: q in path ==> q in path' && path'[q] == path[q]
  }

  /** clone_child: copies one child, links the copy from the parent's and pushes the pair. */
  method CloneChild(ghost m: Memory, ghost root: Ptr, mem: Memory, top: Ptr, srcChild: Ptr, pair: Pair, slot: nat,
                    stack: seq<Pair>, ghost path: map<Ptr, seq<nat>>, ghost depths: seq<nat>, ghost depth: nat)
    returns (mem': Memory, top': Ptr, stack': seq<Pair>, ghost path': map<Ptr, seq<nat>>, ghost depths': seq<nat>)
    requires Linking(m, root, mem, top, path, stack, depths, pair, slot) && Finite(m, srcChild, depth)
    requires slot <= Arity(m[pair.src].kind) && Link(m[pair.src], slot) == srcChild
    ensures Linking(m, root, mem', top', path', stack', depths', pair, slot + 1) && Extends(path, path')
    ensures Spare(depths', slot + 1, Bound(depth)) <= Spare(depths, slot, Bound(depth))
  {
    mem', top', stack', path', depths' := mem, top, stack, path, depths;
    ghost var dst, s := pair.dst, m[pair.src];
    if srcChild == NULL {
      assert Link(mem[dst], slot) == NULL;
    } else {
      FollowExtends(m, root, path[dst], slot);
      GrowPartly(path, top, dst, slot, s, mem[dst]);
      GrowStacked(m, root, mem, path, stack, depths, top, srcChild, dst, slot, depth);
      GrowCloning(m, root, mem, path, Dsts(stack) + {dst}, top, srcChild, dst, slot);
      mem' := mem[top := mem[srcChild].(next := NULL)];
      mem' := mem'[pair.dst := SetLink(mem[pair.dst], slot, top)];
      top' := top + 1;
      stack' := stack + [Pair(srcChild, top)];
      path' := path[top := path[dst] + [slot]];
      depths' := depths + [depth];
      LoadMore(depths, depth);
      assert Dsts(stack') + {dst} == Dsts(stack) + {dst} + {top};
    }
  }

  /** Between two turns of the loop. */
  ghost predicate Pending(m: Memory, root: Ptr, mem: Memory, top: Ptr, path: map<Ptr, seq<nat>>, stack: seq<Pair>,
                          depths: seq<nat>) {
    Below(mem, top) && Cloning(m, root, mem, path, Dsts(stack)) && Stacked(m, root, mem, path, stack, depths)
  }

  /** The calls of clone_child for one pair: for the sibling, then for each child. */
  method CloneSlots(ghost m: Memory, ghost root: Ptr, mem: Memory, top: Ptr, pair: Pair, stack: seq<Pair>, n: nat,
                    ghost path: map<Ptr, seq<nat>>, ghost depths: seq<nat>, ghost left: nat)
    returns (mem': Memory, top': Ptr, stack': seq<Pair>, ghost path': map<Ptr, seq<nat>>, ghost depths': seq<nat>)
    requires Linking(m, root, mem, top, path, stack, depths, pair, 0) && n == Arity(m[pair.src].kind) + 1
    requires forall slot: nat :: slot < n ==> Finite(m, Link(m[pair.src], slot), left)
    ensures Extends(path, path') && Linking(m, root, mem', top', path', stack', depths', pair, n)
    ensures Spare(depths', n, Bound(left)) <= Spare(depths, 0, Bound(left))
  {
    var c := mem[pair.src];
    mem', top', stack', path', depths' := mem, top, stack, path, depths;
    for slot := 0 to n
      invariant Linking(m, root, mem', top', path', stack', depths', pair, slot)
      invariant Extends(path, path')
      invariant Spare(depths', slot, Bound(left)) <= Spare(depths, 0, Bound(left))
    {
      mem', top', stack', path', depths' :=
        CloneChild(m, root, mem', top', Link(c, slot), pair, slot, stack', path', depths', left);
    }
  }

  /** The body of the loop: the sibling and the children of one pair are copied. */
  method CloneLinks(ghost m: Memory, ghost root: Ptr, mem: Memory, top: Ptr, pair: Pair, stack: seq<Pair>,
                    ghost path: map<Ptr, seq<nat>>, ghost depths: seq<nat>, ghost depth: nat)
    returns (mem': Memory, top': Ptr, stack': seq<Pair>, ghost path': map<Ptr, seq<nat>>, ghost depths': seq<nat>)
    requires Linking(m, root, mem, top, path, stack, depths, pair, 0)
    requires Finite(m, pair.src, depth) && pair.src != NULL
    ensures Extends(path, path') && Pending(m, root, mem', top', path', stack', depths')
    ensures Load(depths') < Load(depths) + Bound(depth)
  {
    var n := Arity(mem[pair.src].kind) + 1;
    mem', top', stack', path', depths' := CloneSlots(m, root, mem, top, pair, stack, n, path, depths, depth - 1);
    LinksDone(m, root, mem', top', path', stack', depths', pair, n);
    LinksBound(depths, depths', n, depth - 1);
  }

  /** The links followed weigh less than the node. */
  lemma {:induction false} LinksBound(depths: seq<nat>, depths': seq<nat>, n: nat, left: nat)
    requires n <= 5 && Spare(depths', n, Bound(left)) <= Spare(depths, 0, Bound(left))
    ensures Load(depths') < Load(depths) + Bound(left + 1)
  {
    var step := Bound(left);
    assert Repeated(1, step) == step && Repeated(2, step) == 2 * step && Repeated(3, step) == 3 * step;
    assert Repeated(4, step) == 4 * step && Repeated(5, step) == 5 * step;
  }

  lemma {:induction false} LinksDone(m: Memory, root: Ptr, mem: Memory, top: Ptr, path: map<Ptr, seq<nat>>,
                                     stack: seq<Pair>, depths: seq<nat>, pair: Pair, n: nat)
    requires pair.src in m && Linking(m, root, mem, top, path, stack, depths, pair, n)
    requires n == Arity(m[pair.src].kind) + 1
    ensures Pending(m, root, mem, top, path, stack, depths)
  {
    NodeDone(m, root, mem, path, Dsts(stack), pair.dst);
  }

  lemma {:induction false} NodeDone(m: Memory, root: Ptr, mem: Memory, path: map<Ptr, seq<nat>>, pending: set<Ptr>,
                                    q: Ptr)
    requires Cloning(m, root, mem, path, pending + {q}) && q in path
    requires var s := m[Follow(m, root, path[q])]; Partly(path, q, s, mem[q], Arity(s.kind) + 1)
    ensures Cloning(m, root, mem, path, pending)
  {
    assert Copied(path, q, m[Follow(m, root, path[q])], mem[q]);
  }

  // ---------------------------------------------------------------- the clone

  /** Both have the same paths, and the same node, links apart, at each. */
  ghost predicate Isomorphic(a: Memory, p: Ptr, b: Memory, q: Ptr) {
    forall path :: Matching(a, Follow(a, p, path), b, Follow(b, q, path))
  }

  ghost predicate Matching(a: Memory, p: Ptr, b: Memory, q: Ptr) {
    (p == NULL <==> q == NULL) && (p != NULL ==> p in a && q in b && SameBut(a[p], b[q]))
  }

  /** No node of the clone is in the old memory, and none is reached by two paths. */
  ghost predicate AllNew(m: Memory, mem: Memory, q: Ptr) {
    && (forall path :: Follow(mem, q, path) != NULL ==> Follow(mem, q, path) !in m)
    && forall path, path' ::
         Follow(mem, q, path) != NULL && Follow(mem, q, path) == Follow(mem, q, path') ==> path == path'
  }

  lemma {:induction false} ClonedPath(m: Memory, root: Ptr, mem: Memory, paths: map<Ptr, seq<nat>>, newRoot: Ptr,
                                      path: seq<nat>)
    requires Cloning(m, root, mem, paths, {}) && root != NULL && newRoot in paths && paths[newRoot] == []
    ensures Matching(m, Follow(m, root, path), mem, Follow(mem, newRoot, path))
    ensures Follow(mem, newRoot, path) != NULL ==>
              Follow(mem, newRoot, path) in paths && paths[Follow(mem, newRoot, path)] == path
    decreases |path|
  {
    if path == [] {
      assert Copied(paths, newRoot, m[root], mem[newRoot]);
    } else {
      var init, slot := path[..|path| - 1], path[|path| - 1];
      ClonedPath(m, root, mem, paths, newRoot, init);
      var p, q := Follow(m, root, init), Follow(mem, newRoot, init);
      if q != NULL {
        assert Copied(paths, q, m[p], mem[q]);
        if slot <= Arity(m[p].kind) {
          assert LinkCopied(paths, q, m[p], mem[q], slot);
          assert init + [slot] == path;
          var d := Link(mem[q], slot);
          if d != NULL { assert Copied(paths, d, m[Follow(m, root, paths[d])], mem[d]); }
        }
      }
    }
  }

  lemma {:induction false} AllCloned(m: Memory, root: Ptr, mem: Memory, paths: map<Ptr, seq<nat>>, newRoot: Ptr)
    requires Cloning(m, root, mem, paths, {}) && root != NULL && newRoot in paths && paths[newRoot] == []
    ensures Isomorphic(m, root, mem, newRoot) && AllNew(m, mem, newRoot)
  {
    forall path
      ensures Matching(m, Follow(m, root, path), mem, Follow(mem, newRoot, path))
      ensures Follow(mem, newRoot, path) != NULL ==>
                Follow(mem, newRoot, path) in paths && paths[Follow(mem, newRoot, path)] == path
    {
      ClonedPath(m, root, mem, paths, newRoot, path);
    }
  }

  /** clone_ast: the clone is isomorphic to the source over all child fields and the sibling
      chain, lies in new memory throughout, shares nothing, and the source is unchanged. */
  method CloneAst(mem: Memory, top: Ptr, root: Ptr, ghost depth: nat) returns (mem': Memory, top': Ptr, newRoot: Ptr)
    requires Below(mem, top) && Finite(mem, root, depth)
    ensures Below(mem', top') && forall p :: p in mem ==> p in mem' && mem'[p] == mem[p]
    ensures Isomorphic(mem, root, mem', newRoot) && AllNew(mem, mem', newRoot)
  {
    if root == NULL {
      NothingThere(mem);
      return mem, top, NULL;
    }
    newRoot := top;
    mem' := mem[newRoot := mem[root].(next := NULL)];
    top' := top + 1;
    var stack := [Pair(root, newRoot)];
    ghost var path: map<Ptr, seq<nat>> := map[newRoot := []];
    ghost var depths := [depth];
    assert stack[0].dst == newRoot;
    while stack != []
      invariant newRoot in path && path[newRoot] == [] && Pending(mem, root, mem', top', path, stack, depths)
      decreases Load(depths)
    {
      var pair, rest := stack[|stack| - 1], stack[..|stack| - 1];
      ghost var d := depths[|stack| - 1];
      PopStacked(mem, root, mem', path, stack, depths);
      mem', top', stack, path, depths := CloneLinks(mem, root, mem', top', pair, rest, path, depths[..|stack| - 1], d);
    }
    assert Dsts(stack) == {};
    AllCloned(mem, root, mem', path, newRoot);
  }

  lemma {:induction false} PopStacked(m: Memory, root: Ptr, mem: Memory, path: map<Ptr, seq<nat>>, stack: seq<Pair>,
                                      depths: seq<nat>)
    requires Cloning(m, root, mem, path, Dsts(stack)) && Stacked(m, root, mem, path, stack, depths) && stack != []
    ensures var n := |stack| - 1;
            && Stacked(m, root, mem, path, stack[..n], depths[..n])
            && stack[n].dst !in Dsts(stack[..n]) && Dsts(stack) == Dsts(stack[..n]) + {stack[n].dst}
            && stack[n].dst in path && stack[n].src in m
            && Partly(path, stack[n].dst, m[stack[n].src], mem[stack[n].dst], 0)
  {
    var n := |stack| - 1;
    forall q | q in Dsts(stack) ensures q in Dsts(stack[..n]) + {stack[n].dst} {
      var i :| 0 <= i < |stack| && stack[i].dst == q;
      if i < n { assert stack[..n][i].dst == q; }
    }
    forall q | q in Dsts(stack[..n]) ensures q in Dsts(stack) && q != stack[n].dst {
      var i :| 0 <= i < n && stack[..n][i].dst == q;
      assert stack[i].dst == q;
    }
    assert stack[n].dst in Dsts(stack);
  }

  lemma {:induction false} NothingThere(mem: Memory)
    ensures Isomorphic(mem, NULL, mem, NULL) && AllNew(mem, mem, NULL)
  {
    forall path ensures Follow(mem, NULL, path) == NULL { NoPath(mem, path); }
  }

  lemma {:induction false} NoPath(mem: Memory, path: seq<nat>)
    ensures Follow(mem, NULL, path) == NULL
    decreases |path|
  {
    if path != [] { NoPath(mem, path[..|path| - 1]); }
  }
}
