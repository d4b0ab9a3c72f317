/** The explicit-stack AST visitor (src/data_structures/ast_visitor/ast_visitor.c). */
module Visitor {
  import opened Ast

  datatype VisitResult = Continue | SkipChildren | Abort

  /** The callbacks; enter_node is always set by the passes modelled here, the other two are
      optional.  `mem` is where the pass state keeps the AST memory: callbacks may rewrite
      the nodes they visit. */
  datatype Visitor<!S> = Visitor(
    mem: S -> Memory,
    enter: (S, Ptr) -> (S, VisitResult),
    interleave: Option<(S, Ptr, nat) -> S>,
    exit: Option<(S, Ptr) -> S>)

  // ---------------------------------------------------------------- the recursive visitor

  /** What happens between entering and leaving a node, in order: a child is visited, or the
      interleave callback runs with a step number. */
  datatype Item = Child(p: Ptr) | Gap(step: nat)

  /** A child that is absent, or is the node itself, is not visited. */
  function One(n: Ptr, p: Ptr): seq<Item> {
    if p == NULL || p == n then [] else [Child(p)]
  }

  /** A list: its nodes in order, with gaps numbered from `step` between them. */
  function Many(n: Ptr, ps: seq<Ptr>, step: nat): seq<Item>
    decreases |ps|
  {
    if ps == [] then []
    else if |ps| == 1 then One(n, ps[0])
    else One(n, ps[0]) + [Gap(step)] + Many(n, ps[1..], step + 1)
  }

  /** A child field of a node: one node, or the head of a list. */
  datatype Field = Single(p: Ptr) | Listed(head: Ptr) | Mark(step: nat)

  /** The fields of a node in the order in which they are visited. */
  function Fields(c: Cell): seq<Field> {
    match c.kind
    case PROGRAM | BLOCK | ARRAY_LIT | STRUCT | UNION | ENUM | EXTERN => [Listed(Kid(c, 0))]
    case FUNC => [Listed(Kid(c, 0)), Single(Kid(c, 1))]
    case VAR_DECL | UOP | ADDR_OF | DEREF | MEMBER | ENUM_MEMBER | DEFER | CAST | RET => [Single(Kid(c, 0))]
    case BINOP | INDEX => [Single(Kid(c, 0)), Mark(0), Single(Kid(c, 1))]
    case IF =>
      [Single(Kid(c, 0)), Mark(0), Single(Kid(c, 1))]
      + if Kid(c, 2) != NULL then [Mark(1), Single(Kid(c, 2))] else []
    case WHILE | CASE => [Single(Kid(c, 0)), Single(Kid(c, 1))]
    case FOR => [Listed(Kid(c, 0)), Single(Kid(c, 1)), Listed(Kid(c, 2)), Single(Kid(c, 3))]
    case FUNC_CALL => [Single(Kid(c, 0)), Mark(0), Listed(Kid(c, 1))]
    case SWITCH => [Single(Kid(c, 0)), Listed(Kid(c, 1)), Single(Kid(c, 2))]
    case SIZEOF => if Flag(c, 0) then [] else [Single(Kid(c, 0))]
    case _ => []
  }

  function FieldItems(mem: Memory, n: Ptr, f: Field): Option<seq<Item>> {
    match f
    case Single(p) => Some(One(n, p))
    case Mark(step) => Some([Gap(step)])
    case Listed(head) =>
      match ListAt(mem, head)
      case None => None
      case Some(ps) => Some(Many(n, ps, 0))
  }

  function AllItems(mem: Memory, n: Ptr, fs: seq<Field>): Option<seq<Item>> {
    if fs == [] then Some([])
    else match (FieldItems(mem, n, fs[0]), AllItems(mem, n, fs[1..]))
      case (Some(a), Some(b)) => Some(a + b)
      case _ => None
  }

  /** Everything between entering and leaving node `n`; None when a list never ends. */
  function Items(mem: Memory, n: Ptr): Option<seq<Item>> {
    if n !in mem then None else AllItems(mem, n, Fields(mem[n]))
  }

  /** The nodes of a sibling list, with the gaps between them. */
  function ListItems(mem: Memory, n: Ptr, head: Ptr): seq<Item> {
    if ListAt(mem, head).Some? then Many(n, ListAt(mem, head).value, 0) else []
  }

  lemma {:induction false} ItemsFirst(mem: Memory, n: Ptr, f: Field, fs: seq<Field>)
    requires AllItems(mem, n, [f] + fs).Some?
    ensures FieldItems(mem, n, f).Some? && AllItems(mem, n, fs).Some?
    ensures AllItems(mem, n, [f] + fs).value == FieldItems(mem, n, f).value + AllItems(mem, n, fs).value
  {
    assert ([f] + fs)[1..] == fs;
  }

  lemma {:induction false} ItemsOne(mem: Memory, n: Ptr, f: Field)
    requires AllItems(mem, n, [f]).Some?
    ensures FieldItems(mem, n, f).Some? && AllItems(mem, n, [f]).value == FieldItems(mem, n, f).value
  {
    assert [f] + [] == [f];
    ItemsFirst(mem, n, f, []);
    var items := FieldItems(mem, n, f).value;
    assert items + [] == items;
  }

  lemma {:induction false} ItemsTwo(mem: Memory, n: Ptr, f: Field, g: Field)
    requires AllItems(mem, n, [f, g]).Some?
    ensures FieldItems(mem, n, f).Some? && FieldItems(mem, n, g).Some?
    ensures AllItems(mem, n, [f, g]).value == FieldItems(mem, n, f).value + FieldItems(mem, n, g).value
  {
    assert [f] + [g] == [f, g];
    ItemsFirst(mem, n, f, [g]);
    ItemsOne(mem, n, g);
  }

  lemma {:induction false} ItemsThree(mem: Memory, n: Ptr, f: Field, g: Field, h: Field)
    requires AllItems(mem, n, [f, g, h]).Some?
    ensures FieldItems(mem, n, f).Some? && FieldItems(mem, n, g).Some? && FieldItems(mem, n, h).Some?
    ensures AllItems(mem, n, [f, g, h]).value ==
              FieldItems(mem, n, f).value + (FieldItems(mem, n, g).value + FieldItems(mem, n, h).value)
  {
    assert [f] + [g, h] == [f, g, h];
    ItemsFirst(mem, n, f, [g, h]);
    ItemsTwo(mem, n, g, h);
  }

  /** The children of a node in the order in which they are visited, and the gaps between them. */
  ghost predicate InOrder(mem: Memory, n: Ptr, items: seq<Item>)
    requires n in mem
  {
    var k0, k1, k2, k3 := Kid(mem[n], 0), Kid(mem[n], 1), Kid(mem[n], 2), Kid(mem[n], 3);
    match mem[n].kind
    case PROGRAM | BLOCK | ARRAY_LIT | STRUCT | UNION | ENUM | EXTERN =>
      ListAt(mem, k0).Some? && items == ListItems(mem, n, k0)
    case VAR_DECL | UOP | ADDR_OF | DEREF | MEMBER | ENUM_MEMBER | DEFER | CAST | RET => items == One(n, k0)
    case SIZEOF => items == if Flag(mem[n], 0) then [] else One(n, k0)
    case FUNC => ListAt(mem, k0).Some? && items == ListItems(mem, n, k0) + One(n, k1)
    case BINOP | INDEX => items == One(n, k0) + ([Gap(0)] + One(n, k1))
    case FUNC_CALL => ListAt(mem, k1).Some? && items == One(n, k0) + ([Gap(0)] + ListItems(mem, n, k1))
    case WHILE | CASE => items == One(n, k0) + One(n, k1)
    case IF =>
      if k2 == NULL then items == One(n, k0) + ([Gap(0)] + One(n, k1))
      else items == One(n, k0) + ([Gap(0)] + (One(n, k1) + ([Gap(1)] + One(n, k2))))
    case SWITCH => ListAt(mem, k1).Some? && items == One(n, k0) + (ListItems(mem, n, k1) + One(n, k2))
    case FOR =>
      && ListAt(mem, k0).Some? && ListAt(mem, k2).Some?
      && items == ListItems(mem, n, k0) + (One(n, k1) + (ListItems(mem, n, k2) + One(n, k3)))
    case _ => items == []
  }

  lemma {:induction false} ItemsInOrder(mem: Memory, n: Ptr)
    requires Items(mem, n).Some?
    ensures InOrder(mem, n, Items(mem, n).value)
  {
    var c := mem[n];
    var k0, k1, k2, k3 := Single(Kid(c, 0)), Single(Kid(c, 1)), Single(Kid(c, 2)), Single(Kid(c, 3));
    match c.kind
    case PROGRAM | BLOCK | ARRAY_LIT | STRUCT | UNION | ENUM | EXTERN => ItemsOne(mem, n, Listed(Kid(c, 0)));
    case VAR_DECL | UOP | ADDR_OF | DEREF | MEMBER | ENUM_MEMBER | DEFER | CAST | RET => ItemsOne(mem, n, k0);
    case SIZEOF => if !Flag(c, 0) { ItemsOne(mem, n, k0); }
    case FUNC => ItemsTwo(mem, n, Listed(Kid(c, 0)), k1);
    case BINOP | INDEX => ItemsThree(mem, n, k0, Mark(0), k1);
    case FUNC_CALL => ItemsThree(mem, n, k0, Mark(0), Listed(Kid(c, 1)));
    case WHILE | CASE => ItemsTwo(mem, n, k0, k1);
    case IF =>
      if Kid(c, 2) == NULL {
        assert Fields(c) == [k0, Mark(0), k1];
        ItemsThree(mem, n, k0, Mark(0), k1);
      } else {
        assert Fields(c) == [k0] + ([Mark(0)] + [k1, Mark(1), k2]);
        ItemsFirst(mem, n, k0, [Mark(0)] + [k1, Mark(1), k2]);
        ItemsFirst(mem, n, Mark(0), [k1, Mark(1), k2]);
        ItemsThree(mem, n, k1, Mark(1), k2);
      }
    case SWITCH => ItemsThree(mem, n, k0, Listed(Kid(c, 1)), k2);
    case FOR =>
      assert Fields(c) == [Listed(Kid(c, 0))] + [k1, Listed(Kid(c, 2)), k3];
      ItemsFirst(mem, n, Listed(Kid(c, 0)), [k1, Listed(Kid(c, 2)), k3]);
      ItemsThree(mem, n, k1, Listed(Kid(c, 2)), k3);
    case _ =>
  }

  function Children(items: seq<Item>): seq<Ptr> {
    if items == [] then []
    else (if items[0].Child? then [items[0].p] else []) + Children(items[1..])
  }

  /** The tree of addresses under a node, children in visiting order. */
  datatype Shape = Shape(p: Ptr, kids: seq<Shape>)

  function Roots(shs: seq<Shape>): seq<Ptr> {
    seq(|shs|, i requires 0 <= i < |shs| => shs[i].p)
  }

  /** The memory shows the tree `sh`. */
  predicate Shows(mem: Memory, sh: Shape)
    decreases sh
  {
    && sh.p in mem && Items(mem, sh.p).Some? && Children(Items(mem, sh.p).value) == Roots(sh.kids)
    && forall i :: 0 <= i < |sh.kids| ==> Shows(mem, sh.kids[i])
  }

  ghost predicate AllShow(mem: Memory, shs: seq<Shape>) {
    forall i :: 0 <= i < |shs| ==> Shows(mem, shs[i])
  }

  function Addresses(sh: Shape): set<Ptr>
    decreases sh, 1
  {
    {sh.p} + AllAddresses(sh.kids)
  }

  function AllAddresses(shs: seq<Shape>): set<Ptr>
    decreases shs, 0
  {
    if shs == [] then {} else Addresses(shs[0]) + AllAddresses(shs[1..])
  }

  /** The nodes of a tree lie at different addresses. */
  predicate IsTree(sh: Shape)
    decreases sh, 1
  {
    sh.p !in AllAddresses(sh.kids) && AreTrees(sh.kids)
  }

  predicate AreTrees(shs: seq<Shape>)
    decreases shs, 0
  {
    shs == [] || (IsTree(shs[0]) && AreTrees(shs[1..]) && Addresses(shs[0]) !! AllAddresses(shs[1..]))
  }

  lemma {:induction false} FirstChild(items: seq<Item>, kids: seq<Shape>)
    requires items != [] && items[0].Child? && Children(items) == Roots(kids)
    ensures kids != [] && kids[0].p == items[0].p && Children(items[1..]) == Roots(kids[1..])
  {
    assert Children(items)[0] == items[0].p;
    assert Roots(kids)[1..] == Roots(kids[1..]);
  }

  // What is listed in a visited field is visited.

  lemma {:induction false} OneCovers(n: Ptr, ps: seq<Ptr>, step: nat, p: Ptr)
    requires p in ps && p != NULL && p != n
    ensures p in Children(Many(n, ps, step))
  {
    if |ps| > 1 {
      ChildrenConcat(One(n, ps[0]), [Gap(step)] + Many(n, ps[1..], step + 1));
      assert One(n, ps[0]) + [Gap(step)] + Many(n, ps[1..], step + 1) ==
             One(n, ps[0]) + ([Gap(step)] + Many(n, ps[1..], step + 1));
      assert ([Gap(step)] + Many(n, ps[1..], step + 1))[1..] == Many(n, ps[1..], step + 1);
      if p != ps[0] { OneCovers(n, ps[1..], step + 1, p); }
    }
  }

  lemma {:induction false} ChildrenConcat(a: seq<Item>, b: seq<Item>)
    ensures Children(a + b) == Children(a) + Children(b)
  {
    if a == [] {
      assert a + b == b;
    } else {
      ChildrenConcat(a[1..], b);
      ChildrenFirst(a + b, a[1..] + b);
      Assoc(if a[0].Child? then [a[0].p] else [], Children(a[1..]), Children(b));
    }
  }

  lemma {:induction false} ChildrenFirst(items: seq<Item>, rest: seq<Item>)
    requires items != [] && items[1..] == rest
    ensures Children(items) == (if items[0].Child? then [items[0].p] else []) + Children(rest)
  {
  }

  predicate InField(mem: Memory, f: Field, p: Ptr) {
    match f
    case Single(q) => p == q
    case Listed(head) => ListAt(mem, head).Some? && p in ListAt(mem, head).value
    case Mark(_) => false
  }

  lemma {:induction false} FieldCovers(mem: Memory, n: Ptr, fs: seq<Field>, f: Field, p: Ptr)
    requires AllItems(mem, n, fs).Some? && f in fs && InField(mem, f, p) && p != NULL && p != n
    ensures p in Children(AllItems(mem, n, fs).value)
  {
    ChildrenConcat(FieldItems(mem, n, fs[0]).value, AllItems(mem, n, fs[1..]).value);
    if f == fs[0] {
      if f.Listed? { OneCovers(n, ListAt(mem, f.head).value, 0, p); }
    } else {
      FieldCovers(mem, n, fs[1..], f, p);
    }
  }

  lemma {:induction false} FieldLists(mem: Memory, n: Ptr, fs: seq<Field>, f: Field)
    requires AllItems(mem, n, fs).Some? && f in fs
    ensures FieldItems(mem, n, f).Some?
  {
    if f != fs[0] { FieldLists(mem, n, fs[1..], f); }
  }

  lemma {:induction false} ManyChildren(n: Ptr, ps: seq<Ptr>, step: nat)
    requires n !in ps && NULL !in ps
    ensures Children(Many(n, ps, step)) == ps
    decreases |ps|
  {
    if |ps| == 1 {
      assert One(n, ps[0])[1..] == [];
      assert Children(One(n, ps[0])) == [ps[0]] + Children([]);
    } else if |ps| > 1 {
      ManyChildren(n, ps[1..], step + 1);
      ChildrenConcat(One(n, ps[0]) + [Gap(step)], Many(n, ps[1..], step + 1));
      ChildrenConcat(One(n, ps[0]), [Gap(step)]);
      assert One(n, ps[0])[1..] == [] && [Gap(step)][1..] == [];
      assert Children([Gap(step)]) == [] + Children([]);
      assert Children(One(n, ps[0])) == [ps[0]] + Children([]);
      assert [ps[0]] + ps[1..] == ps;
    }
  }

  lemma {:induction false} KidInside(shs: seq<Shape>, i: nat, p: Ptr)
    requires i < |shs| && p in Addresses(shs[i])
    ensures p in AllAddresses(shs)
    decreases |shs|
  {
    if i > 0 { KidInside(shs[1..], i - 1, p); }
  }

  lemma {:induction false} RootsInside(shs: seq<Shape>, i: nat)
    requires i < |shs|
    ensures shs[i].p in AllAddresses(shs) && Roots(shs)[i] == shs[i].p
  {
    if i > 0 { RootsInside(shs[1..], i - 1); }
  }

  lemma {:induction false} AllAreTrees(shs: seq<Shape>, i: nat)
    requires AreTrees(shs) && i < |shs|
    ensures IsTree(shs[i])
    decreases |shs|
  {
    if i > 0 { AllAreTrees(shs[1..], i - 1); }
  }

  lemma {:induction false} RootsDiffer(shs: seq<Shape>, i: nat, j: nat)
    requires AreTrees(shs) && i < j < |shs|
    ensures shs[i].p != shs[j].p
    decreases |shs|
  {
    if i == 0 {
      RootsInside(shs[1..], j - 1);
      assert shs[0].p in Addresses(shs[0]);
    } else {
      RootsDiffer(shs[1..], i - 1, j - 1);
    }
  }

  function Leave<S>(v: Visitor<S>, s: S, n: Ptr): S {
    if v.exit.Some? then v.exit.value(s, n) else s
  }

  function Between<S>(v: Visitor<S>, s: S, n: Ptr, step: nat): S {
    if v.interleave.Some? then v.interleave.value(s, n, step) else s
  }

  /** The recursive visitor: enter, the items in order, leave; false when a callback aborts.
      None when the memory, at the moment a node has been entered, does not show the
      children of the given tree. */
  function Visit<S>(v: Visitor<S>, sh: Shape, s: S): Option<(bool, S)>
    decreases sh, 1
  {
    var (s1, r) := v.enter(s, sh.p);
    match r
    case Abort => Some((false, s1))
    case SkipChildren => Some((true, Leave(v, s1, sh.p)))
    case Continue => Entered(v, sh, s1)
  }

  /** The rest of a visit once a node has been entered. */
  function Entered<S>(v: Visitor<S>, sh: Shape, s: S): Option<(bool, S)>
    decreases sh, 0
  {
    match Items(v.mem(s), sh.p)
    case None => None
    case Some(items) =>
      if Children(items) != Roots(sh.kids) then None
      else match VisitItems(v, sh.p, items, sh.kids, s)
        case None => None
        case Some((ok, s1)) => Some((ok, if ok then Leave(v, s1, sh.p) else s1))
  }

  function VisitItems<S>(v: Visitor<S>, n: Ptr, items: seq<Item>, kids: seq<Shape>, s: S): Option<(bool, S)>
    requires Children(items) == Roots(kids)
    decreases kids, |items|
  {
    if items == [] then Some((true, s))
    else match items[0]
      case Gap(step) => VisitItems(v, n, items[1..], kids, Between(v, s, n, step))
      case Child(p) =>
        FirstChild(items, kids);
        match Visit(v, kids[0], s)
        case None => None
        case Some((ok, s1)) => if !ok then Some((false, s1)) else VisitItems(v, n, items[1..], kids[1..], s1)
  }

  // ---------------------------------------------------------------- the frame stack

  const STATE_ENTER: nat := 0
  const STATE_EXIT: nat := 1
  const STATE_INTERLEAVE_BASE: nat := 2

  datatype Frame = Frame(node: Ptr, state: nat)

  function ItemFrames(n: Ptr, item: Item, gaps: bool): seq<Frame> {
    match item
    case Child(p) => [Frame(p, STATE_ENTER)]
    case Gap(step) => if gaps then [Frame(n, STATE_INTERLEAVE_BASE + step)] else []
  }

  /** The frames that stand for `items` of node `n`, the first item on top.  Interleave
      frames are pushed only when the callback is set. */
  function Frames(n: Ptr, items: seq<Item>, gaps: bool): seq<Frame> {
    if items == [] then []
    else Frames(n, items[1..], gaps) + ItemFrames(n, items[0], gaps)
  }

  lemma {:induction false} FramesConcat(n: Ptr, a: seq<Item>, b: seq<Item>, gaps: bool)
    ensures Frames(n, a + b, gaps) == Frames(n, b, gaps) + Frames(n, a, gaps)
  {
    if a == [] {
      assert a + b == b;
    } else {
      FramesConcat(n, a[1..], b, gaps);
      FramesFirst(n, a + b, a[1..] + b, gaps);
      Assoc(Frames(n, b, gaps), Frames(n, a[1..], gaps), ItemFrames(n, a[0], gaps));
    }
  }

  lemma {:induction false} FramesFirst(n: Ptr, items: seq<Item>, rest: seq<Item>, gaps: bool)
    requires items != [] && items[1..] == rest
    ensures Frames(n, items, gaps) == Frames(n, rest, gaps) + ItemFrames(n, items[0], gaps)
  {
  }

  method PushNode(stack: seq<Frame>, n: Ptr, child: Ptr) returns (r: seq<Frame>)
    ensures forall gaps :: r == stack + Frames(n, One(n, child), gaps)
  {
    r := stack;
    if child != NULL && child != n {
      r := r + [Frame(child, STATE_ENTER)];
    }
  }

  method PushInterleave(stack: seq<Frame>, n: Ptr, step: nat, gaps: bool) returns (r: seq<Frame>)
    ensures r == stack + Frames(n, [Gap(step)], gaps)
  {
    r := stack;
    if gaps {
      r := r + [Frame(n, STATE_INTERLEAVE_BASE + step)];
    }
  }

  /** The items of the nodes from `i` on, with the gap that precedes node `i`. */
  function ItemsFrom(n: Ptr, ps: seq<Ptr>, base: nat, i: nat): seq<Item>
    requires i <= |ps|
  {
    if i == 0 then Many(n, ps, base)
    else if i == |ps| then []
    else [Gap(base + i - 1)] + Many(n, ps[i..], base + i)
  }

  lemma {:induction false} ItemsFromStep(n: Ptr, ps: seq<Ptr>, base: nat, i: nat)
    requires i < |ps|
    ensures ItemsFrom(n, ps, base, i) ==
              (if i > 0 then [Gap(base + i - 1)] else []) + (One(n, ps[i]) + ItemsFrom(n, ps, base, i + 1))
  {
    assert ps[0..] == ps;
    assert ps[i..][1..] == ps[i + 1..];
    assert Many(n, ps[i..], base + i) == One(n, ps[i]) + ItemsFrom(n, ps, base, i + 1);
  }

  /** Copies the list into an array, then pushes its nodes from the last to the first. */
  method PushListInterleaved(stack: seq<Frame>, mem: Memory, n: Ptr, head: Ptr, base: nat, gaps: bool)
    returns (r: seq<Frame>)
    requires ListAt(mem, head).Some?
    ensures r == stack + Frames(n, Many(n, ListAt(mem, head).value, base), gaps)
  {
    var arr := Collect(mem, head);
    r := stack;
    var i := |arr|;
    while i > 0
      invariant 0 <= i <= |arr|
      invariant r == stack + Frames(n, ItemsFrom(n, arr, base, i), gaps)
    {
      i := i - 1;
      ListFrames(n, arr, base, i, gaps);
      Assoc(stack, Frames(n, ItemsFrom(n, arr, base, i + 1), gaps),
            Frames(n, One(n, arr[i]), gaps) + GapFrames(n, base, i, gaps));
      ghost var above := r;
      r := PushNode(r, n, arr[i]);
      if i > 0 {
        r := PushInterleave(r, n, base + i - 1, gaps);
      }
      assert r == above + (Frames(n, One(n, arr[i]), gaps) + GapFrames(n, base, i, gaps));
    }
  }

  function GapFrames(n: Ptr, base: nat, i: nat, gaps: bool): seq<Frame> {
    if i > 0 then Frames(n, [Gap(base + i - 1)], gaps) else []
  }

  lemma {:induction false} ListFrames(n: Ptr, ps: seq<Ptr>, base: nat, i: nat, gaps: bool)
    requires i < |ps|
    ensures Frames(n, ItemsFrom(n, ps, base, i), gaps) ==
              Frames(n, ItemsFrom(n, ps, base, i + 1), gaps)
                + (Frames(n, One(n, ps[i]), gaps) + GapFrames(n, base, i, gaps))
  {
    var rest, gap := ItemsFrom(n, ps, base, i + 1), if i > 0 then [Gap(base + i - 1)] else [];
    ItemsFromStep(n, ps, base, i);
    FramesConcat(n, One(n, ps[i]), rest, gaps);
    FramesConcat(n, gap, One(n, ps[i]) + rest, gaps);
    Assoc(Frames(n, rest, gaps), Frames(n, One(n, ps[i]), gaps), GapFrames(n, base, i, gaps));
  }

  /** Copying the list: follow `next` until it is NULL. */
  method Collect(mem: Memory, head: Ptr) returns (arr: seq<Ptr>)
    requires ListAt(mem, head).Some?
    ensures arr == ListAt(mem, head).value
  {
    arr := [];
    var curr := head;
    ghost var left: nat := |mem|;
    while curr != NULL
      invariant Chain(mem, curr, left).Some?
      invariant arr + Chain(mem, curr, left).value == ListAt(mem, head).value
      decreases left
    {
      assert left > 0 && curr in mem && Chain(mem, mem[curr].next, left - 1).Some?;
      arr := arr + [curr];
      curr := mem[curr].next;
      left := left - 1;
    }
  }

  /** What is pushed last is unwound first. */
  lemma {:induction false} PushedOver(stack: seq<Frame>, n: Ptr, a: seq<Item>, b: seq<Item>, gaps: bool)
    ensures (stack + Frames(n, b, gaps)) + Frames(n, a, gaps) == stack + Frames(n, a + b, gaps)
  {
    FramesConcat(n, a, b, gaps);
    Assoc(stack, Frames(n, b, gaps), Frames(n, a, gaps));
  }

  /** A node, or a gap, or a list in front of what has been pushed. */
  method PushBefore(stack: seq<Frame>, ghost below: seq<Frame>, n: Ptr, child: Ptr, ghost b: seq<Item>, gaps: bool)
    returns (r: seq<Frame>)
    requires stack == below + Frames(n, b, gaps)
    ensures r == below + Frames(n, One(n, child) + b, gaps)
  {
    r := PushNode(stack, n, child);
    PushedOver(below, n, One(n, child), b, gaps);
  }

  method PushGapBefore(stack: seq<Frame>, ghost below: seq<Frame>, n: Ptr, step: nat, ghost b: seq<Item>, gaps: bool)
    returns (r: seq<Frame>)
    requires stack == below + Frames(n, b, gaps)
    ensures r == below + Frames(n, [Gap(step)] + b, gaps)
  {
    r := PushInterleave(stack, n, step, gaps);
    PushedOver(below, n, [Gap(step)], b, gaps);
  }

  method PushListBefore(stack: seq<Frame>, ghost below: seq<Frame>, mem: Memory, n: Ptr, head: Ptr, ghost b: seq<Item>,
                        gaps: bool) returns (r: seq<Frame>)
    requires stack == below + Frames(n, b, gaps) && ListAt(mem, head).Some?
    ensures r == below + Frames(n, ListItems(mem, n, head) + b, gaps)
  {
    r := PushListInterleaved(stack, mem, n, head, 0, gaps);
    PushedOver(below, n, ListItems(mem, n, head), b, gaps);
  }

  /** The switch on the node's type: the children are pushed from the last to the first. */
  method PushChildren(stack: seq<Frame>, mem: Memory, n: Ptr, gaps: bool) returns (r: seq<Frame>)
    requires n in mem && Items(mem, n).Some?
    ensures r == stack + Frames(n, Items(mem, n).value, gaps)
  {
    var c := mem[n];
    ItemsInOrder(mem, n);
    ghost var k0, k1, k2, k3 := One(n, Kid(c, 0)), One(n, Kid(c, 1)), One(n, Kid(c, 2)), One(n, Kid(c, 3));
    ghost var list1, list2 := ListItems(mem, n, Kid(c, 1)), ListItems(mem, n, Kid(c, 2));
    r := stack;
    match c.kind {
      case PROGRAM | BLOCK | ARRAY_LIT | STRUCT | UNION | ENUM | EXTERN =>
        r := PushListInterleaved(r, mem, n, Kid(c, 0), 0, gaps);
      case FUNC =>
        r := PushNode(r, n, Kid(c, 1));
        r := PushListBefore(r, stack, mem, n, Kid(c, 0), k1, gaps);
      case VAR_DECL | UOP | ADDR_OF | DEREF | MEMBER | ENUM_MEMBER | DEFER | CAST | RET =>
        r := PushNode(r, n, Kid(c, 0));
      case BINOP | INDEX =>
        r := PushNode(r, n, Kid(c, 1));
        r := PushGapBefore(r, stack, n, 0, k1, gaps);
        r := PushBefore(r, stack, n, Kid(c, 0), [Gap(0)] + k1, gaps);
      case IF =>
        if Kid(c, 2) != NULL {
          r := PushNode(r, n, Kid(c, 2));
          r := PushGapBefore(r, stack, n, 1, k2, gaps);
          r := PushBefore(r, stack, n, Kid(c, 1), [Gap(1)] + k2, gaps);
          r := PushGapBefore(r, stack, n, 0, k1 + ([Gap(1)] + k2), gaps);
          r := PushBefore(r, stack, n, Kid(c, 0), [Gap(0)] + (k1 + ([Gap(1)] + k2)), gaps);
        } else {
          r := PushNode(r, n, Kid(c, 1));
          r := PushGapBefore(r, stack, n, 0, k1, gaps);
          r := PushBefore(r, stack, n, Kid(c, 0), [Gap(0)] + k1, gaps);
        }
      case WHILE | CASE =>
        r := PushNode(r, n, Kid(c, 1));
        r := PushBefore(r, stack, n, Kid(c, 0), k1, gaps);
      case FOR =>
        r := PushNode(r, n, Kid(c, 3));
        r := PushListBefore(r, stack, mem, n, Kid(c, 2), k3, gaps);
        r := PushBefore(r, stack, n, Kid(c, 1), list2 + k3, gaps);
        r := PushListBefore(r, stack, mem, n, Kid(c, 0), k1 + (list2 + k3), gaps);
      case FUNC_CALL =>
        r := PushListInterleaved(r, mem, n, Kid(c, 1), 0, gaps);
        r := PushGapBefore(r, stack, n, 0, list1, gaps);
        r := PushBefore(r, stack, n, Kid(c, 0), [Gap(0)] + list1, gaps);
      case SWITCH =>
        r := PushNode(r, n, Kid(c, 2));
        r := PushListBefore(r, stack, mem, n, Kid(c, 1), k2, gaps);
        r := PushBefore(r, stack, n, Kid(c, 0), list1 + k2, gaps);
      case SIZEOF =>
        if !Flag(c, 0) {
          r := PushNode(r, n, Kid(c, 0));
        }
      case _ =>
    }
  }

  // ---------------------------------------------------------------- the loop

  /** A frame together with the tree it is for. */
  datatype Plan = Entering(sh: Shape) | Leaving(p: Ptr) | InGap(p: Ptr, step: nat)

  function FrameOf(plan: Plan): Frame {
    match plan
    case Entering(sh) => Frame(sh.p, STATE_ENTER)
    case Leaving(p) => Frame(p, STATE_EXIT)
    case InGap(p, step) => Frame(p, STATE_INTERLEAVE_BASE + step)
  }

  function FramesOf(plans: seq<Plan>): (r: seq<Frame>)
    ensures |r| == |plans| && forall i :: 0 <= i < |r| ==> r[i] == FrameOf(plans[i])
  {
    seq(|plans|, i requires 0 <= i < |plans| => FrameOf(plans[i]))
  }

  /** The plans for the items of a node, the first item on top. */
  function Plans(n: Ptr, items: seq<Item>, kids: seq<Shape>, gaps: bool): (r: seq<Plan>)
    requires Children(items) == Roots(kids)
    ensures FramesOf(r) == Frames(n, items, gaps)
    decreases |items|
  {
    if items == [] then []
    else match items[0]
      case Gap(step) => Plans(n, items[1..], kids, gaps) + if gaps then [InGap(n, step)] else []
      case Child(p) =>
        FirstChild(items, kids);
        Plans(n, items[1..], kids[1..], gaps) + [Entering(kids[0])]
  }

  /** What the recursive visitor makes of a stack of plans, the last one first. */
  function Unwind<S>(v: Visitor<S>, plans: seq<Plan>, s: S): Option<(bool, S)>
    decreases |plans|, 0
  {
    if plans == [] then Some((true, s))
    else UnwindOver(v, plans[..|plans| - 1], plans[|plans| - 1], s)
  }

  function UnwindOver<S>(v: Visitor<S>, rest: seq<Plan>, top: Plan, s: S): Option<(bool, S)>
    decreases |rest|, 2
  {
    match top
    case Leaving(p) => Unwind(v, rest, Leave(v, s, p))
    case InGap(p, step) => Unwind(v, rest, Between(v, s, p, step))
    case Entering(sh) => Then(v, rest, Visit(v, sh, s))
  }

  function Then<S>(v: Visitor<S>, rest: seq<Plan>, done: Option<(bool, S)>): Option<(bool, S)>
    decreases |rest|, 1
  {
    match done
    case None => None
    case Some((ok, s)) => if ok then Unwind(v, rest, s) else Some((false, s))
  }

  lemma {:induction false} Stacked(rest: seq<Plan>, plans: seq<Plan>, top: Plan)
    ensures rest + (plans + [top]) == (rest + plans) + [top]
    ensures ((rest + plans) + [top])[..|rest + plans|] == rest + plans
  {
  }

  lemma {:induction false} UnwindPop<S>(v: Visitor<S>, plans: seq<Plan>, s: S)
    requires plans != []
    ensures var rest, top := plans[..|plans| - 1], plans[|plans| - 1];
            && (top.Leaving? ==> Unwind(v, plans, s) == Unwind(v, rest, Leave(v, s, top.p)))
            && (top.InGap? ==> Unwind(v, plans, s) == Unwind(v, rest, Between(v, s, top.p, top.step)))
            && (top.Entering? ==> Unwind(v, plans, s) == Then(v, rest, Visit(v, top.sh, s)))
  {
    assert Unwind(v, plans, s) == UnwindOver(v, plans[..|plans| - 1], plans[|plans| - 1], s);
  }

  lemma {:induction false} UnwindTop<S>(v: Visitor<S>, rest: seq<Plan>, plans: seq<Plan>, top: Plan, s: S)
    ensures Unwind(v, rest + (plans + [top]), s) == UnwindOver(v, rest + plans, top, s)
  {
    Stacked(rest, plans, top);
  }

  lemma {:induction false} UnwindItems<S>(v: Visitor<S>, rest: seq<Plan>, n: Ptr, items: seq<Item>, kids: seq<Shape>,
                                          s: S)
    requires Children(items) == Roots(kids)
    ensures Unwind(v, rest + Plans(n, items, kids, v.interleave.Some?), s) ==
            Then(v, rest, VisitItems(v, n, items, kids, s))
    decreases |items|
  {
    var gaps := v.interleave.Some?;
    if items == [] {
      assert rest + Plans(n, items, kids, gaps) == rest;
    } else if items[0].Gap? {
      var plans, step := Plans(n, items[1..], kids, gaps), items[0].step;
      UnwindItems(v, rest, n, items[1..], kids, Between(v, s, n, step));
      if gaps {
        UnwindTop(v, rest, plans, InGap(n, step), s);
      } else {
        assert Plans(n, items, kids, gaps) == plans;
      }
    } else {
      FirstChild(items, kids);
      UnwindTop(v, rest, Plans(n, items[1..], kids[1..], gaps), Entering(kids[0]), s);
      var done := Visit(v, kids[0], s);
      if done.Some? && done.value.0 {
        UnwindItems(v, rest, n, items[1..], kids[1..], done.value.1);
      }
    }
  }

  function Size(sh: Shape): nat
    decreases sh, 0
  {
    1 + Sizes(sh.kids)
  }

  function Sizes(shs: seq<Shape>): nat
    decreases shs
  {
    if shs == [] then 0 else Size(shs[0]) + Sizes(shs[1..])
  }

  /** Nodes still to be entered: the termination measure of the loop. */
  function Work(plans: seq<Plan>): nat {
    if plans == [] then 0
    else Work(plans[..|plans| - 1]) + if plans[|plans| - 1].Entering? then Size(plans[|plans| - 1].sh) else 0
  }

  lemma {:induction false} WorkItems(rest: seq<Plan>, n: Ptr, items: seq<Item>, kids: seq<Shape>, gaps: bool)
    requires Children(items) == Roots(kids)
    ensures Work(rest + Plans(n, items, kids, gaps)) == Work(rest) + Sizes(kids)
    decreases |items|
  {
    if items == [] {
      assert rest + Plans(n, items, kids, gaps) == rest;
    } else {
      match items[0]
      case Gap(step) =>
        var plans := Plans(n, items[1..], kids, gaps);
        WorkItems(rest, n, items[1..], kids, gaps);
        if gaps {
          Stacked(rest, plans, InGap(n, step));
        } else {
          assert Plans(n, items, kids, gaps) == plans;
        }
      case Child(p) =>
        FirstChild(items, kids);
        var plans := Plans(n, items[1..], kids[1..], gaps);
        WorkItems(rest, n, items[1..], kids[1..], gaps);
        Stacked(rest, plans, Entering(kids[0]));
    }
  }

  lemma {:induction false} UnwindOne<S>(v: Visitor<S>, sh: Shape, s: S)
    ensures Unwind(v, [Entering(sh)], s) == Visit(v, sh, s)
    ensures Work([Entering(sh)]) == Size(sh)
  {
    assert [Entering(sh)][..0] == [];
    UnwindPop(v, [Entering(sh)], s);
    var r := Visit(v, sh, s);
    assert r.Some? ==> r == Some((r.value.0, r.value.1));
  }

  /** The plans that replace a node once it has been entered. */
  function Opened<S>(v: Visitor<S>, sh: Shape, s: S): seq<Plan>
    requires Entered(v, sh, s).Some?
  {
    (if v.exit.Some? then [Leaving(sh.p)] else [])
    + Plans(sh.p, Items(v.mem(s), sh.p).value, sh.kids, v.interleave.Some?)
  }

  lemma {:induction false} ExitUnwinds<S>(v: Visitor<S>, plans: seq<Plan>, n: Ptr, s: S)
    ensures var own := if v.exit.Some? then [Leaving(n)] else [];
            Unwind(v, plans + own, s) == Unwind(v, plans, Leave(v, s, n)) && Work(plans + own) == Work(plans)
  {
    if v.exit.Some? {
      assert (plans + [Leaving(n)])[..|plans|] == plans;
      UnwindPop(v, plans + [Leaving(n)], s);
    } else {
      assert plans + [] == plans;
    }
  }

  lemma {:induction false} OpenedUnwinds<S>(v: Visitor<S>, plans: seq<Plan>, sh: Shape, s: S)
    requires Entered(v, sh, s).Some?
    ensures Unwind(v, plans + Opened(v, sh, s), s) == Then(v, plans, Entered(v, sh, s))
    ensures Work(plans + Opened(v, sh, s)) == Work(plans) + Sizes(sh.kids)
  {
    var items := Items(v.mem(s), sh.p).value;
    var own := if v.exit.Some? then [Leaving(sh.p)] else [];
    Assoc(plans, own, Plans(sh.p, items, sh.kids, v.interleave.Some?));
    UnwindItems(v, plans + own, sh.p, items, sh.kids, s);
    WorkItems(plans + own, sh.p, items, sh.kids, v.interleave.Some?);
    var done := VisitItems(v, sh.p, items, sh.kids, s);
    ExitUnwinds(v, plans, sh.p, done.value.1);
  }

  /** Going down into a node: the exit frame, then the children. */
  method Descend<S>(v: Visitor<S>, stack: seq<Frame>, n: Ptr, s: S, ghost plans: seq<Plan>, ghost sh: Shape)
    returns (stack': seq<Frame>)
    requires stack == FramesOf(plans) && sh.p == n && Entered(v, sh, s).Some?
    ensures stack' == FramesOf(plans + Opened(v, sh, s))
  {
    stack' := stack;
    if v.exit.Some? {
      stack' := stack' + [Frame(n, STATE_EXIT)];
    }
    ghost var own := if v.exit.Some? then [Leaving(n)] else [];
    assert stack' == stack + FramesOf(own);
    stack' := PushChildren(stack', v.mem(s), n, v.interleave.Some?);
  }

  /** ast_traverse: the loop over the frame stack ends, and does exactly what the recursive
      visitor does, for every pass and every decision of its callbacks. */
  method Traverse<S>(v: Visitor<S>, root: Ptr, s0: S, ghost sh: Shape) returns (ok: bool, s: S)
    requires root != NULL ==> sh.p == root && Visit(v, sh, s0).Some?
    ensures root == NULL ==> ok && s == s0
    ensures root != NULL ==> Visit(v, sh, s0) == Some((ok, s))
  {
    s := s0;
    if root == NULL { return true, s; }
    var stack := [Frame(root, STATE_ENTER)];
    ghost var plans := [Entering(sh)];
    UnwindOne(v, sh, s);
    while stack != []
      invariant stack == FramesOf(plans)
      invariant Unwind(v, plans, s) == Visit(v, sh, s0)
      decreases Work(plans), |plans|
    {
      UnwindPop(v, plans, s);
      var frame := stack[|stack| - 1];
      stack := stack[..|stack| - 1];
      ghost var top := plans[|plans| - 1];
      plans := plans[..|plans| - 1];
      if frame.state == STATE_EXIT {
        if v.exit.Some? { s := v.exit.value(s, frame.node); }
        continue;
      }
      if frame.state >= STATE_INTERLEAVE_BASE {
        if v.interleave.Some? { s := v.interleave.value(s, frame.node, frame.state - STATE_INTERLEAVE_BASE); }
        continue;
      }
      var (s1, r) := v.enter(s, frame.node);
      s := s1;
      if r.Abort? { return false, s; }
      if r.SkipChildren? {
        if v.exit.Some? { s := v.exit.value(s, frame.node); }
        continue;
      }
      OpenedUnwinds(v, plans, top.sh, s);
      stack := Descend(v, stack, frame.node, s, plans, top.sh);
      plans := plans + Opened(v, top.sh, s);
    }
    return true, s;
  }
}
