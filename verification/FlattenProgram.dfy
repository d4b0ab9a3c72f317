/** flatten_sues (src/cgen.c) over a whole program: nothing is lost, nested types come before what
    they were nested in, methods are named by their path of types, and every other part of a node
    stays as it was. */
module FlattenProgram {
  import opened Ast
  import opened Visitor
  import opened Flatten

  // ---------------------------------------------------------------- the program

  /** The declarations of the program after the pass: the hoisted types, then what was there
      with the methods behind their types. */
  function Program(mem: Memory, sh: Shape): seq<Decl> {
    Flat(mem, sh).hoisted + Splice(FlatAll(mem, sh.kids))
  }

  /** The program begins with the hoisted types. */
  function Hooked(s: State, root: Ptr): Memory
    requires root in s.mem && (s.head != NULL ==> s.tail in s.mem && s.mem[root].kids != [])
  {
    if s.head == NULL then s.mem
    else
      var mem := s.mem[s.tail := s.mem[s.tail].(next := Kid(s.mem[root], 0))];
      mem[root := mem[root].(kids := s.mem[root].kids[0 := s.head])]
  }

  /** flatten_sues: the program is again a tree of exactly the old nodes, in the new order, and no
      type in it holds a method or a type; nested types come first, methods are named by their
      path of types, and nothing else in a node changes but links and names of functions. */
  method FlattenSues(mem: Memory, root: Ptr, ghost sh: Shape) returns (out: Memory)
    requires root in mem && mem[root].kind.PROGRAM? ==>
               sh.p == root && Shows(mem, sh) && Well(mem, sh) && IsTree(sh) && NULL !in mem
    ensures root !in mem || !mem[root].kind.PROGRAM? ==> out == mem
    ensures root in mem && mem[root].kind.PROGRAM? ==>
              var program := Program(mem, sh);
              && Good(out, Shape(root, Shapes(program))) && Labelled(out, program)
              && (forall p :: Times(Shape(root, Shapes(program)), p) == Times(sh, p))
              && forall x, y :: Nested(mem, sh, x, y) ==> Precedes(program, x, y)
    ensures MemoryKept(mem, out)
    ensures root in mem && mem[root].kind.PROGRAM? ==>
              && (forall p :: p in mem && !MethodUnder(mem, sh, p) ==> out[p].tok == mem[p].tok)
              && forall y, path, p, own {:trigger Outermost(mem, sh, y), MethodAt(mem, y, path, p, own)} ::
                   Outermost(mem, sh, y) && MethodAt(mem, y, path, p, own) ==>
                     p in out && Spelled(out[p].tok.text, path, own)
  {
    out := mem;
    if root !in mem || !mem[root].kind.PROGRAM? { return; }
    var s0 := State(mem, [], NULL, NULL);
    ReadyAtStart(s0, sh);
    ghost var expected := VisitOther(s0, sh, []);
    var ok, s := Traverse(FlattenVisitor(), root, s0, sh);
    Finish(s0, s, sh);
    forall p ensures Times(Shape(root, Shapes(Program(mem, sh))), p) == Times(sh, p) { ProgramConserves(mem, sh, p); }
    forall x, y | Nested(mem, sh, x, y) ensures Precedes(Program(mem, sh), x, y) { TypesInOrder(mem, sh, x, y); }
    ProgramKept(s0, s, sh);
    ProgramNamed(s0, s, sh);
    if s.head != NULL {
      out := Hooked(s, root);
    } else {
      out := s.mem;
    }
  }

  lemma {:induction false} ReadyAtStart(s: State, sh: Shape)
    requires s.head == NULL && Shows(s.mem, sh) && Well(s.mem, sh) && IsTree(sh) && NULL !in s.mem
    ensures Ready(s, [sh], [])
  {
    assert Ptrs([]) == [];
    forall p ensures AllTimes([sh], p) <= 1 { TimesOne(sh, p); TreeIsOnce(sh, p); }
  }

  lemma {:induction false} ProgramConserves(mem: Memory, sh: Shape, p: Ptr)
    requires sh.p in mem && !IsSue(mem[sh.p].kind)
    ensures Times(Shape(sh.p, Shapes(Program(mem, sh))), p) == Times(sh, p)
  {
    FlatConserves(mem, sh, p);
    DeclTimesShapes(Splice(FlatAll(mem, sh.kids)), p);
    DeclTimesShapes(Program(mem, sh), p);
    DeclTimesConcat(Flat(mem, sh).hoisted, Splice(FlatAll(mem, sh.kids)), p);
  }

  /** No node is in both lists or twice in one, and `n` is in neither. */
  ghost predicate Separate(n: Ptr, hs: seq<Decl>, ds: seq<Decl>) {
    (forall p :: DeclTimes(hs, p) + DeclTimes(ds, p) <= 1) && DeclTimes(hs, n) == 0 && DeclTimes(ds, n) == 0
  }

  lemma {:induction false} SeparateParts(s: State, sh: Shape)
    requires Ready(s, [sh], [])
    ensures Separate(sh.p, Hoists(FlatAll(s.mem, sh.kids)), Splice(FlatAll(s.mem, sh.kids)))
  {
    forall p
      ensures DeclTimes(Hoists(FlatAll(s.mem, sh.kids)), p) + DeclTimes(Splice(FlatAll(s.mem, sh.kids)), p) <= 1
    {
      Counts(s, sh, [], p);
    }
    Counts(s, sh, [], sh.p);
  }

  /** After the visit of the program, hooking the hoisted types in front. */
  lemma {:induction false} Finish(s: State, s': State, sh: Shape)
    requires s.head == NULL && Ready(s, [sh], []) && sh.p in s.mem && s.mem[sh.p].kind.PROGRAM?
    requires AllVisited(s, s', sh.kids, FlatAll(s.mem, sh.kids), [])
    ensures sh.p in s'.mem && (s'.head != NULL ==> s'.tail in s'.mem && s'.mem[sh.p].kids != [])
    ensures var program := Program(s.mem, sh);
            Good(Hooked(s', sh.p), Shape(sh.p, Shapes(program))) && Labelled(Hooked(s', sh.p), program)
  {
    var n, hs, ds := sh.p, Hoists(FlatAll(s.mem, sh.kids)), Splice(FlatAll(s.mem, sh.kids));
    Empty(hs);
    ReadyInside(s, s, sh, []);
    NodeUntouched(s, s, s', sh, []);
    AllPlaced(s, s', sh.kids, FlatAll(s.mem, sh.kids));
    ContentsSpliced(s, s, s', sh, []);
    SeparateParts(s, sh);
    LastInside(s', hs);
    HookedGood(s', n, hs, ds);
  }

  lemma {:induction false} LastInside(s: State, hs: seq<Decl>)
    requires HoistedIs(s, hs)
    ensures s.head != NULL ==> s.tail in s.mem && hs != []
  {
    if hs != [] { assert hs[|hs| - 1].sh.p in s.mem; }
  }

  lemma {:induction false} HookedGood(s: State, n: Ptr, hs: seq<Decl>, ds: seq<Decl>)
    requires n in s.mem && s.mem[n].kind.PROGRAM? && HoistedIs(s, hs) && Placed(s.mem, hs) && Placed(s.mem, ds)
    requires Seg(s.mem, Kid(s.mem[n], 0), Ptrs(ds), NULL) && Separate(n, hs, ds)
    requires s.head != NULL ==> s.tail in s.mem && s.mem[n].kids != []
    ensures Good(Hooked(s, n), Shape(n, Shapes(hs + ds))) && Labelled(Hooked(s, n), hs + ds)
  {
    HookedApart(n, hs, ds);
    if hs == [] {
      Empty(ds);
    } else {
      HookedSegs(s, n, hs, ds);
      HookedPlaced(s, n, hs, ds);
    }
    ListPlaced(Hooked(s, n), n, hs + ds);
  }

  lemma {:induction false} HookedSegs(s: State, n: Ptr, hs: seq<Decl>, ds: seq<Decl>)
    requires n in s.mem && HoistedIs(s, hs) && hs != [] && Seg(s.mem, Kid(s.mem[n], 0), Ptrs(ds), NULL)
    requires s.tail in s.mem && s.mem[n].kids != [] && Separate(n, hs, ds)
    ensures Seg(Hooked(s, n), Kid(Hooked(s, n)[n], 0), Ptrs(hs + ds), NULL)
  {
    var m, first := Hooked(s, n), Kid(s.mem[n], 0);
    HookedKeeps(s, n, hs, ds);
    SegKept(s.mem, m, first, Ptrs(ds), NULL);
    assert Ptrs(hs)[|hs| - 1] == s.tail;
    SegTurned(s.mem, m, s.head, Ptrs(hs), NULL, first);
    SegJoin(m, s.head, Ptrs(hs), first, Ptrs(ds), NULL);
    PtrsConcat(hs, ds);
  }

  /** Only the last hoisted type gets another sibling. */
  lemma {:induction false} HookedKeeps(s: State, n: Ptr, hs: seq<Decl>, ds: seq<Decl>)
    requires n in s.mem && HoistedIs(s, hs) && hs != [] && s.tail in s.mem && s.mem[n].kids != [] && Separate(n, hs, ds)
    ensures NoDup(Ptrs(hs)) && s.tail == LastPtr(hs) && DeclTimes(hs, s.tail) > 0
    ensures var m := Hooked(s, n);
            && (forall x :: x in Ptrs(ds) && x in s.mem ==> x in m && m[x].next == s.mem[x].next)
            && (forall x :: x in Ptrs(hs) && x in s.mem && x != s.tail ==> x in m && m[x].next == s.mem[x].next)
            && m[s.tail].next == Kid(s.mem[n], 0) && Kid(m[n], 0) == s.head
  {
    RootsApart(n, hs, ds);
  }

  lemma {:induction false} RootsApart(n: Ptr, hs: seq<Decl>, ds: seq<Decl>)
    requires Separate(n, hs, ds) && hs != []
    ensures NoDup(Ptrs(hs)) && DeclTimes(hs, LastPtr(hs)) > 0 && LastPtr(hs) in Ptrs(hs)
    ensures n !in Ptrs(hs) && n !in Ptrs(ds) && LastPtr(hs) !in Ptrs(ds)
  {
    var t := LastPtr(hs);
    assert Ptrs(hs)[|hs| - 1] == t;
    BagTimes(hs, t);
    BagTimes(ds, t);
    BagTimes(hs, n);
    BagTimes(ds, n);
    assert DeclTimes(hs, t) + DeclTimes(ds, t) <= 1;
    forall p ensures multiset(Ptrs(hs))[p] <= 1 {
      BagTimes(hs, p);
      assert DeclTimes(hs, p) + DeclTimes(ds, p) <= 1;
    }
    BagNoDup(Ptrs(hs));
  }

  lemma {:induction false} HookedPlaced(s: State, n: Ptr, hs: seq<Decl>, ds: seq<Decl>)
    requires n in s.mem && HoistedIs(s, hs) && hs != [] && Placed(s.mem, hs) && Placed(s.mem, ds)
    requires s.tail in s.mem && s.mem[n].kids != [] && Separate(n, hs, ds)
    ensures Placed(Hooked(s, n), hs + ds) && n in Hooked(s, n) && Hooked(s, n)[n].kind == s.mem[n].kind
  {
    var m := Hooked(s, n);
    HookedKeeps(s, n, hs, ds);
    assert hs[|hs| - 1].sh.p == s.tail;
    assert m.Keys == s.mem.Keys;
    forall p | p in s.mem && p != n ensures SameBut(s.mem, m, s.tail, p) {}
    forall p ensures DeclTimes(hs, p) <= 1 && DeclTimes(ds, p) <= 1 && DeclTimes(hs, p) + DeclTimes(ds, p) <= 1 {}
    PlacedFramed(s.mem, m, hs, s.tail);
    PlacedFramed(s.mem, m, ds, s.tail);
    PlacedConcat(m, hs, ds);
  }

  lemma {:induction false} HookedApart(n: Ptr, hs: seq<Decl>, ds: seq<Decl>)
    requires Separate(n, hs, ds)
    ensures NoDup(Ptrs(hs + ds)) && n !in Ptrs(hs + ds)
  {
    forall p ensures multiset(Ptrs(hs + ds))[p] <= 1 && (p == n ==> p !in Ptrs(hs + ds)) {
      assert DeclTimes(hs, p) + DeclTimes(ds, p) <= 1;
      BagTimes(hs + ds, p);
      DeclTimesConcat(hs, ds, p);
    }
    BagNoDup(Ptrs(hs + ds));
  }

  // ---------------------------------------------------------------- order

  /** Type `x` is directly inside type `y`, somewhere in the tree `sh`. */
  ghost predicate Nested(mem: Memory, sh: Shape, x: Ptr, y: Ptr)
    decreases sh
  {
    NestedHere(mem, sh, x, y) || exists i :: 0 <= i < |sh.kids| && Nested(mem, sh.kids[i], x, y)
  }

  ghost predicate NestedHere(mem: Memory, sh: Shape, x: Ptr, y: Ptr) {
    && sh.p == y && y in mem && IsSue(mem[y].kind) && x in mem && IsSue(mem[x].kind)
    && exists i :: 0 <= i < |sh.kids| && sh.kids[i].p == x
  }

  /** `x` is one of the declarations, and `y` is neither in it nor in one before it. */
  ghost predicate Before(hs: seq<Decl>, x: Ptr, y: Ptr) {
    exists i :: 0 <= i < |hs| && hs[i].sh.p == x && DeclTimes(hs[..i + 1], y) == 0
  }

  lemma {:induction false} BeforeMore(hs: seq<Decl>, more: seq<Decl>, x: Ptr, y: Ptr)
    requires Before(hs, x, y)
    ensures Before(hs + more, x, y)
  {
    var i :| 0 <= i < |hs| && hs[i].sh.p == x && DeclTimes(hs[..i + 1], y) == 0;
    assert (hs + more)[..i + 1] == hs[..i + 1] && (hs + more)[i] == hs[i];
  }

  lemma {:induction false} BeforeLater(more: seq<Decl>, hs: seq<Decl>, x: Ptr, y: Ptr)
    requires Before(hs, x, y) && DeclTimes(more, y) == 0
    ensures Before(more + hs, x, y)
  {
    var i :| 0 <= i < |hs| && hs[i].sh.p == x && DeclTimes(hs[..i + 1], y) == 0;
    var k := |more| + i;
    assert (more + hs)[..k + 1] == more + hs[..i + 1] && (more + hs)[k] == hs[i];
    DeclTimesConcat(more, hs[..i + 1], y);
  }

  lemma {:induction false} DeclTimesPrefix(ds: seq<Decl>, n: nat, p: Ptr)
    requires n <= |ds|
    ensures DeclTimes(ds[..n], p) <= DeclTimes(ds, p)
  {
    assert ds == ds[..n] + ds[n..];
    DeclTimesConcat(ds[..n], ds[n..], p);
  }

  lemma {:induction false} KidsBefore(mem: Memory, shs: seq<Shape>, k: nat, x: Ptr, y: Ptr)
    requires k < |shs| && Before(Flat(mem, shs[k]).hoisted, x, y) && Times(shs[k], y) > 0 && AllTimes(shs, y) <= 1
    ensures Before(Hoists(FlatAll(mem, shs)), x, y)
    decreases |shs|
  {
    var r, rest := Flat(mem, shs[0]), FlatAll(mem, shs[1..]);
    HoistsCons(r, rest);
    if k == 0 {
      BeforeMore(r.hoisted, Hoists(rest), x, y);
    } else {
      KidTimes(shs[1..], k - 1, y);
      FlatConserves(mem, shs[0], y);
      KidsBefore(mem, shs[1..], k - 1, x, y);
      BeforeLater(r.hoisted, Hoists(rest), x, y);
    }
  }

  lemma {:induction false} SuesHas(rs: seq<Result>, i: nat)
    requires i < |rs| && IsSue(rs[i].self.kind)
    ensures rs[i].self in Sues(Splice(rs))
  {
    SuesConcat([rs[0].self] + rs[0].after, Splice(rs[1..]));
    if i > 0 {
      SuesHas(rs[1..], i - 1);
    } else {
      SuesConcat([rs[0].self], rs[0].after);
      assert [rs[0].self][1..] == [];
    }
  }

  lemma {:induction false} SuesConcat(a: seq<Decl>, b: seq<Decl>)
    ensures Sues(a + b) == Sues(a) + Sues(b)
  {
    if a == [] {
      assert a + b == b;
    } else {
      SuesConcat(a[1..], b);
      SuesCons(a + b, a[1..] + b);
      Assoc(if IsSue(a[0].kind) then [a[0]] else [], Sues(a[1..]), Sues(b));
    }
  }

  lemma {:induction false} SuesCons(ds: seq<Decl>, rest: seq<Decl>)
    requires ds != [] && ds[1..] == rest
    ensures Sues(ds) == (if IsSue(ds[0].kind) then [ds[0]] else []) + Sues(rest)
  {
  }

  lemma {:induction false} BeforeNothing(hs: seq<Decl>, ds: seq<Decl>, d: Decl, y: Ptr)
    requires d in ds && DeclTimes(hs + ds, y) == 0
    ensures Before(hs + ds, d.sh.p, y)
  {
    var j :| 0 <= j < |ds| && ds[j] == d;
    var i := |hs| + j;
    assert (hs + ds)[i] == d;
    DeclTimesPrefix(hs + ds, i + 1, y);
  }

  lemma {:induction false} HereBefore(mem: Memory, sh: Shape, x: Ptr, y: Ptr)
    requires NestedHere(mem, sh, x, y) && Times(sh, y) <= 1
    ensures Before(Flat(mem, sh).hoisted, x, y)
  {
    var rs := FlatAll(mem, sh.kids);
    var k :| 0 <= k < |sh.kids| && sh.kids[k].p == x;
    FlatAllAt(mem, sh.kids, k);
    SuesHas(rs, k);
    FlatConserves(mem, sh, y);
    BeforeNothing(Hoists(rs), Sues(Splice(rs)), rs[k].self, y);
  }

  /** Where a type is hoisted, the type that it was in has not come yet. */
  lemma {:induction false} NestedBefore(mem: Memory, sh: Shape, x: Ptr, y: Ptr)
    requires Nested(mem, sh, x, y) && forall p :: Times(sh, p) <= 1
    ensures Before(Flat(mem, sh).hoisted, x, y) && Times(sh, y) > 0
    decreases sh
  {
    if NestedHere(mem, sh, x, y) {
      HereBefore(mem, sh, x, y);
    } else {
      var k :| 0 <= k < |sh.kids| && Nested(mem, sh.kids[k], x, y);
      forall p ensures Times(sh.kids[k], p) <= 1 {
        assert Times(sh, p) <= 1;
        KidTimes(sh.kids, k, p);
      }
      NestedBefore(mem, sh.kids[k], x, y);
      KidTimes(sh.kids, k, y);
      assert Times(sh, y) <= 1;
      KidsBefore(mem, sh.kids, k, x, y);
      BeforeHoisted(mem, sh, x, y);
    }
  }

  lemma {:induction false} BeforeHoisted(mem: Memory, sh: Shape, x: Ptr, y: Ptr)
    requires Before(Hoists(FlatAll(mem, sh.kids)), x, y)
    ensures Before(Flat(mem, sh).hoisted, x, y)
  {
    BeforeMore(Hoists(FlatAll(mem, sh.kids)), Sues(Splice(FlatAll(mem, sh.kids))), x, y);
  }

  /** Declaration `x` stands before the declaration that holds `y`. */
  ghost predicate Precedes(ds: seq<Decl>, x: Ptr, y: Ptr) {
    exists i, j :: 0 <= i < j < |ds| && ds[i].sh.p == x && Times(ds[j].sh, y) > 0
  }

  lemma {:induction false} DeclHas(ds: seq<Decl>, p: Ptr) returns (j: nat)
    requires DeclTimes(ds, p) > 0
    ensures j < |ds| && Times(ds[j].sh, p) > 0
  {
    if Times(ds[0].sh, p) > 0 {
      j := 0;
    } else {
      var k := DeclHas(ds[1..], p);
      j := k + 1;
    }
  }

  lemma {:induction false} BeforePrecedes(ds: seq<Decl>, x: Ptr, y: Ptr)
    requires Before(ds, x, y) && DeclTimes(ds, y) > 0
    ensures Precedes(ds, x, y)
  {
    var i :| 0 <= i < |ds| && ds[i].sh.p == x && DeclTimes(ds[..i + 1], y) == 0;
    var j := DeclHas(ds, y);
    if j <= i { DeclTimesAt(ds[..i + 1], j, y); }
  }

  /** In the program every type comes before the type that it was directly inside. */
  lemma {:induction false} TypesInOrder(mem: Memory, sh: Shape, x: Ptr, y: Ptr)
    requires sh.p in mem && mem[sh.p].kind.PROGRAM? && IsTree(sh) && Nested(mem, sh, x, y)
    ensures Precedes(Program(mem, sh), x, y)
  {
    forall p ensures Times(sh, p) <= 1 { TreeIsOnce(sh, p); }
    NestedBefore(mem, sh, x, y);
    BeforeMore(Flat(mem, sh).hoisted, Splice(FlatAll(mem, sh.kids)), x, y);
    ProgramConserves(mem, sh, y);
    DeclTimesShapes(Program(mem, sh), y);
    NestedIsType(mem, sh, x, y);
    BeforePrecedes(Program(mem, sh), x, y);
  }

  lemma {:induction false} NestedIsType(mem: Memory, sh: Shape, x: Ptr, y: Ptr)
    requires Nested(mem, sh, x, y)
    ensures y in mem && IsSue(mem[y].kind)
    decreases sh
  {
    if !NestedHere(mem, sh, x, y) {
      var k :| 0 <= k < |sh.kids| && Nested(mem, sh.kids[k], x, y);
      NestedIsType(mem, sh.kids[k], x, y);
    }
  }

  // ---------------------------------------------------------------- what stays in a node

  /** The same node, but for its sibling, the first link of a type or of the program, and the text
      of the name of a function. */
  predicate HoldsDecls(k: Kind) {
    k.STRUCT? || k.UNION? || k.ENUM? || k.PROGRAM?
  }

  ghost predicate CellKept(c: Cell, d: Cell) {
    && d.(next := c.next, kids := c.kids, tok := d.tok.(text := c.tok.text)) == c
    && (c.kind.FUNC? || d.tok == c.tok) && |d.kids| == |c.kids|
    && forall i :: 0 <= i < |c.kids| && !(i == 0 && HoldsDecls(c.kind)) ==> d.kids[i] == c.kids[i]
  }

  ghost predicate MemoryKept(a: Memory, b: Memory) {
    b.Keys == a.Keys && forall p :: p in a ==> CellKept(a[p], b[p])
  }

  lemma {:induction false} CellKeptTwice(c: Cell, d: Cell, e: Cell)
    requires CellKept(c, d) && CellKept(d, e)
    ensures CellKept(c, e)
  {
  }

  lemma {:induction false} MemoryKeptTwice(a: Memory, b: Memory, c: Memory)
    requires MemoryKept(a, b) && MemoryKept(b, c)
    ensures MemoryKept(a, c)
  {
    forall p | p in a ensures CellKept(a[p], c[p]) { CellKeptTwice(a[p], b[p], c[p]); }
  }

  lemma {:induction false} LinkKept(mem: Memory, n: Ptr, prev: Ptr, p: Ptr)
    requires n in mem && mem[n].kids != [] && (prev == NULL || prev in mem)
    requires (IsSue(mem[n].kind) || mem[n].kind.PROGRAM?)
    ensures MemoryKept(mem, SetLink(mem, n, prev, p))
  {
  }

  lemma {:induction false} BehindKept(mem: Memory, n: Ptr, child: Ptr, sue: Text)
    requires n in mem && child in mem && mem[child].kind.FUNC?
    ensures MemoryKept(mem, Behind(mem, n, child, sue))
  {
  }

  lemma {:induction false} HoistKept(s: State, child: Ptr)
    requires child in s.mem && (s.head != NULL ==> s.tail in s.mem)
    ensures MemoryKept(s.mem, Hoist(s, child).mem)
  {
  }

  /** One turn of the loop of flatten_exit. */
  lemma {:induction false} TurnKept(s: State, n: Ptr, prev: Ptr, child: Ptr, sue: Text, s1: State, prev1: Ptr,
                                    next: Ptr)
    requires TurnTo(s, n, prev, child, sue, s1, prev1, next) && IsSue(s.mem[n].kind)
    ensures MemoryKept(s.mem, s1.mem) && n in s1.mem && IsSue(s1.mem[n].kind)
  {
    LinkKept(s.mem, n, prev, next);
    var m := SetLink(s.mem, n, prev, next);
    assert CellKept(s.mem[child], m[child]) && CellKept(s.mem[n], m[n]);
    if s.mem[child].kind.FUNC? {
      BehindKept(m, n, child, sue);
      MemoryKeptTwice(s.mem, m, s1.mem);
    } else if IsSue(s.mem[child].kind) {
      HoistKept(s.(mem := m), child);
      MemoryKeptTwice(s.mem, m, s1.mem);
    }
  }

  /** The loop of flatten_exit goes on. */
  predicate GoesOn(s: State, n: Ptr, prev: Ptr, child: Ptr) {
    && child != NULL && child in s.mem && n in s.mem && s.mem[n].kids != []
    && (prev == NULL || prev in s.mem) && (s.head == NULL || s.tail in s.mem)
  }

  lemma {:induction false} SweepStep(s: State, n: Ptr, prev: Ptr, child: Ptr, sue: Text, fuel: nat)
    returns (s1: State, prev1: Ptr, next: Ptr)
    requires GoesOn(s, n, prev, child)
    ensures TurnTo(s, n, prev, child, sue, s1, prev1, next)
    ensures Sweep(s, n, prev, child, sue, fuel + 1) == Sweep(s1, n, prev1, next, sue, fuel)
  {
    next := s.mem[child].next;
    s1, prev1 := s, prev;
    if s.mem[child].kind.FUNC? {
      s1 := s.(mem := Behind(SetLink(s.mem, n, prev, next), n, child, sue));
    } else if IsSue(s.mem[child].kind) {
      s1 := Hoist(s.(mem := SetLink(s.mem, n, prev, next)), child);
    } else {
      prev1 := child;
    }
  }

  lemma {:induction false} SweepKept(s: State, n: Ptr, prev: Ptr, child: Ptr, sue: Text, fuel: nat)
    requires n in s.mem && IsSue(s.mem[n].kind)
    ensures MemoryKept(s.mem, Sweep(s, n, prev, child, sue, fuel).mem)
    decreases fuel
  {
    if fuel > 0 && GoesOn(s, n, prev, child) {
      var s1, prev1, next := SweepStep(s, n, prev, child, sue, fuel - 1);
      TurnKept(s, n, prev, child, sue, s1, prev1, next);
      SweepKept(s1, n, prev1, next, sue, fuel - 1);
      MemoryKeptTwice(s.mem, s1.mem, Sweep(s1, n, prev1, next, sue, fuel - 1).mem);
    }
  }

  lemma {:induction false} VisitKept(sh: Shape, s: State)
    requires Visit(FlattenVisitor(), sh, s).Some?
    ensures MemoryKept(s.mem, Visit(FlattenVisitor(), sh, s).value.1.mem)
    decreases sh, 0
  {
    var s1 := FlattenEnter(s, sh.p).0;
    var items := Items(s1.mem, sh.p).value;
    ItemsKept(sh.p, items, sh.kids, s1);
    var s2 := VisitItems(FlattenVisitor(), sh.p, items, sh.kids, s1).value.1;
    ExitKept(s2, sh.p);
    MemoryKeptTwice(s.mem, s2.mem, FlattenExit(s2, sh.p).mem);
  }

  lemma {:induction false} ExitKept(s: State, n: Ptr)
    ensures MemoryKept(s.mem, FlattenExit(s, n).mem)
  {
    if n in s.mem && IsSue(s.mem[n].kind) && s.sues != [] {
      SweepKept(s.(sues := s.sues[..|s.sues| - 1]), n, NULL, Kid(s.mem[n], 0), s.sues[|s.sues| - 1], |s.mem|);
    }
  }

  lemma {:induction false} ItemsKept(n: Ptr, items: seq<Item>, kids: seq<Shape>, s: State)
    requires Children(items) == Roots(kids) && VisitItems(FlattenVisitor(), n, items, kids, s).Some?
    ensures MemoryKept(s.mem, VisitItems(FlattenVisitor(), n, items, kids, s).value.1.mem)
    decreases kids, 1, |items|
  {
    if items != [] {
      if items[0].Gap? {
        ItemsKept(n, items[1..], kids, s);
      } else {
        FirstChild(items, kids);
        VisitKept(kids[0], s);
        var (ok, s1) := Visit(FlattenVisitor(), kids[0], s).value;
        if ok {
          ItemsKept(n, items[1..], kids[1..], s1);
          MemoryKeptTwice(s.mem, s1.mem, VisitItems(FlattenVisitor(), n, items[1..], kids[1..], s1).value.1.mem);
        }
      }
    }
  }

  lemma {:induction false} ProgramKept(s: State, s': State, sh: Shape)
    requires Visit(FlattenVisitor(), sh, s) == Some((true, s')) && sh.p in s.mem && s.mem[sh.p].kind.PROGRAM?
    requires sh.p in s'.mem && (s'.head != NULL ==> s'.tail in s'.mem && s'.mem[sh.p].kids != [])
    ensures MemoryKept(s.mem, Hooked(s', sh.p))
    ensures forall p :: p in s'.mem ==> p in Hooked(s', sh.p) && Hooked(s', sh.p)[p].tok == s'.mem[p].tok
  {
    VisitKept(sh, s);
    assert CellKept(s.mem[sh.p], s'.mem[sh.p]);
    if s'.head != NULL {
      var m := s'.mem[s'.tail := s'.mem[s'.tail].(next := Kid(s'.mem[sh.p], 0))];
      assert MemoryKept(s'.mem, m);
      LinkKept(m, sh.p, NULL, s'.head);
      MemoryKeptTwice(s'.mem, m, Hooked(s', sh.p));
      MemoryKeptTwice(s.mem, s'.mem, Hooked(s', sh.p));
    }
  }

  // ---------------------------------------------------------------- names

  /** The method at `p`, of name `own`, is under the types of these names, outermost first,
      the first of them at the root of `sh`. */
  ghost predicate MethodAt(mem: Memory, sh: Shape, path: seq<Text>, p: Ptr, own: Text)
    decreases sh, 0
  {
    && sh.p in mem && IsSue(mem[sh.p].kind) && path != [] && path[0] == mem[sh.p].tok.text
    && exists i :: 0 <= i < |sh.kids| && MethodIn(mem, sh.kids[i], path[1..], p, own)
  }

  ghost predicate MethodIn(mem: Memory, sh: Shape, path: seq<Text>, p: Ptr, own: Text)
    decreases sh, 1
  {
    if path == [] then sh.p == p && p in mem && mem[p].kind.FUNC? && mem[p].tok.text == own
    else MethodAt(mem, sh, path, p, own)
  }

  /** `t` is the names of the types, outermost first, and the method's own name, with an
      underscore, which is character 95, after each type.  Types without a name add nothing, and a
      method without a name stays without one. */
  ghost predicate Spelled(t: Text, path: seq<Text>, own: Text)
    decreases |path|
  {
    if path == [] then t == own
    else if path[0] == [] || own == [] then Spelled(t, path[1..], own)
    else
      var n := |path[0]|;
      n < |t| && t[..n] == path[0] && t[n] == 95 && Spelled(t[n + 1..], path[1..], own)
  }

  /** The length of all names together. */
  function Lengths(path: seq<Text>): nat {
    if path == [] then 0 else |path[0]| + Lengths(path[1..])
  }

  /** So a name begins with the outermost type, ends with the method's own, and is as long as all
      of them with their underscores. */
  lemma {:induction false} SpelledShape(t: Text, path: seq<Text>, own: Text)
    requires Spelled(t, path, own) && own != [] && path != [] && forall i :: 0 <= i < |path| ==> path[i] != []
    ensures |t| == Lengths(path) + |path| + |own| && path[0] + [95] <= t
    ensures t[|t| - |own| - 1..] == [95] + own
    decreases |path|
  {
    var n := |path[0]|;
    var rest := t[n + 1..];
    assert t[..n + 1] == path[0] + [95];
    if |path| == 1 {
      assert path[1..] == [] && Lengths(path[1..]) == 0;
      assert t[n..] == [95] + own;
    } else {
      SpelledShape(rest, path[1..], own);
      assert t[|t| - |own| - 1..] == rest[|rest| - |own| - 1..];
    }
  }

  lemma {:induction false} PrefixIsSpelled(t: Text, sue: Text, path: seq<Text>, own: Text)
    requires Spelled(t, path, own)
    ensures Spelled(Prefixed(sue, t), [sue] + path, own)
  {
    assert ([sue] + path)[1..] == path;
    SpelledIsEmpty(t, path, own);
    if sue != [] && t != [] {
      var u := Prefixed(sue, t);
      assert u[..|sue|] == sue && u[|sue|] == 95 && u[|sue| + 1..] == t;
    }
  }

  lemma {:induction false} SpelledIsEmpty(t: Text, path: seq<Text>, own: Text)
    requires Spelled(t, path, own)
    ensures t == [] <==> own == []
    decreases |path|
  {
    if path != [] {
      if path[0] == [] || own == [] {
        SpelledIsEmpty(t, path[1..], own);
      } else {
        SpelledIsEmpty(t[|path[0]| + 1..], path[1..], own);
      }
    }
  }

  lemma {:induction false} InSplice(rs: seq<Result>, d: Decl)
    requires d in Splice(rs)
    ensures exists i :: 0 <= i < |rs| && (d == rs[i].self || d in rs[i].after)
  {
    if d != rs[0].self && d !in rs[0].after {
      InSplice(rs[1..], d);
      var i :| 0 <= i < |rs[1..]| && (d == rs[1..][i].self || d in rs[1..][i].after);
      assert rs[1..][i] == rs[i + 1];
    }
  }

  /** Every method put behind a type is named by the path of types to it. */
  lemma {:induction false} MethodNames(mem: Memory, sh: Shape, d: Decl) returns (path: seq<Text>, own: Text)
    requires d in Flat(mem, sh).after
    ensures MethodAt(mem, sh, path, d.sh.p, own) && Spelled(d.name, path, own)
    decreases sh
  {
    var sue := mem[sh.p].tok.text;
    var i, e := MethodSource(mem, sh, d);
    var rest: seq<Text>;
    if e == Flat(mem, sh.kids[i]).self {
      rest, own := [], e.name;
    } else {
      rest, own := MethodNames(mem, sh.kids[i], e);
    }
    path := [sue] + rest;
    PrefixIsSpelled(e.name, sue, rest, own);
    assert path[1..] == rest && MethodIn(mem, sh.kids[i], rest, d.sh.p, own);
  }

  /** Where a method behind a type was before: a child of the type, or behind one. */
  lemma {:induction false} MethodSource(mem: Memory, sh: Shape, d: Decl) returns (i: nat, e: Decl)
    requires d in Flat(mem, sh).after
    ensures sh.p in mem && IsSue(mem[sh.p].kind) && i < |sh.kids|
    ensures e == Flat(mem, sh.kids[i]).self || e in Flat(mem, sh.kids[i]).after
    ensures e.sh == d.sh && e.kind.FUNC? && d.name == Prefixed(mem[sh.p].tok.text, e.name)
  {
    var rs, sue := FlatAll(mem, sh.kids), mem[sh.p].tok.text;
    MethodsInside(sue, Splice(rs), d);
    e :| e in Splice(rs) && e.sh == d.sh && e.kind.FUNC? && d.name == Prefixed(sue, e.name);
    InSplice(rs, e);
    i :| 0 <= i < |rs| && (e == rs[i].self || e in rs[i].after);
    FlatAllSize(mem, sh.kids);
    FlatAllAt(mem, sh.kids, i);
  }

  lemma {:induction false} FlatAllSize(mem: Memory, shs: seq<Shape>)
    ensures |FlatAll(mem, shs)| == |shs|
  {
    if shs != [] { FlatAllSize(mem, shs[1..]); }
  }

  lemma {:induction false} MethodsHas(sue: Text, ds: seq<Decl>, d: Decl)
    requires d in ds && d.kind.FUNC?
    ensures d.(name := Prefixed(sue, d.name)) in Methods(sue, ds)
  {
    if d != ds[0] { MethodsHas(sue, ds[1..], d); }
  }

  lemma {:induction false} SpliceHas(rs: seq<Result>, i: nat, d: Decl)
    requires i < |rs| && (d == rs[i].self || d in rs[i].after)
    ensures d in Splice(rs)
  {
    if i > 0 { SpliceHas(rs[1..], i - 1, d); }
  }

  /** And every method under types is put behind the outermost of them. */
  lemma {:induction false} MethodFound(mem: Memory, sh: Shape, path: seq<Text>, p: Ptr, own: Text) returns (d: Decl)
    requires MethodAt(mem, sh, path, p, own)
    ensures d in Flat(mem, sh).after && d.sh.p == p && d.kind.FUNC? && Spelled(d.name, path, own)
    decreases sh
  {
    var i :| 0 <= i < |sh.kids| && MethodIn(mem, sh.kids[i], path[1..], p, own);
    var rs, sue := FlatAll(mem, sh.kids), mem[sh.p].tok.text;
    FlatAllAt(mem, sh.kids, i);
    var e: Decl;
    if path[1..] == [] { e := rs[i].self; } else { e := MethodFound(mem, sh.kids[i], path[1..], p, own); }
    SpliceHas(rs, i, e);
    MethodsHas(sue, Splice(rs), e);
    d := e.(name := Prefixed(sue, e.name));
    PrefixIsSpelled(e.name, sue, path[1..], own);
    assert [sue] + path[1..] == path;
  }

  /** Type `y` is a node of the tree `sh`, and what it is directly inside is no type. */
  ghost predicate Outermost(mem: Memory, sh: Shape, y: Shape)
    decreases sh
  {
    exists i :: 0 <= i < |sh.kids| && (OutermostKid(mem, sh, sh.kids[i], y) || Outermost(mem, sh.kids[i], y))
  }

  ghost predicate OutermostKid(mem: Memory, sh: Shape, kid: Shape, y: Shape) {
    kid == y && !(sh.p in mem && IsSue(mem[sh.p].kind))
  }

  /** Method `d` has been put behind an outermost type of the tree `sh`. */
  ghost predicate Settled(mem: Memory, sh: Shape, d: Decl)
    decreases sh
  {
    exists i :: 0 <= i < |sh.kids| && (SettledKid(mem, sh, sh.kids[i], d) || Settled(mem, sh.kids[i], d))
  }

  ghost predicate SettledKid(mem: Memory, sh: Shape, kid: Shape, d: Decl) {
    d in Flat(mem, kid).after && !(sh.p in mem && IsSue(mem[sh.p].kind))
  }

  lemma {:induction false} OutermostSettles(mem: Memory, sh: Shape, y: Shape, d: Decl)
    requires Outermost(mem, sh, y) && d in Flat(mem, y).after
    ensures Settled(mem, sh, d)
    decreases sh
  {
    var i :| 0 <= i < |sh.kids| && (OutermostKid(mem, sh, sh.kids[i], y) || Outermost(mem, sh.kids[i], y));
    if OutermostKid(mem, sh, sh.kids[i], y) {
      assert SettledKid(mem, sh, sh.kids[i], d);
    } else {
      OutermostSettles(mem, sh.kids[i], y, d);
    }
  }

  // ---------------------------------------------------------------- settled methods are left alone

  /** How often `p` occurs in the declarations below their roots. */
  function Inner(ds: seq<Decl>, p: Ptr): nat {
    if ds == [] then 0 else AllTimes(ds[0].sh.kids, p) + Inner(ds[1..], p)
  }

  lemma {:induction false} InnerAndRoots(ds: seq<Decl>, p: Ptr)
    ensures DeclTimes(ds, p) == Inner(ds, p) + Bag(ds)[p]
  {
    if ds != [] {
      InnerAndRoots(ds[1..], p);
      assert ds == [ds[0]] + ds[1..];
      PtrsConcat([ds[0]], ds[1..]);
      assert Ptrs([ds[0]]) == [ds[0].sh.p];
    }
  }

  lemma {:induction false} InnerConcat(a: seq<Decl>, b: seq<Decl>, p: Ptr)
    ensures Inner(a + b, p) == Inner(a, p) + Inner(b, p)
  {
    DeclTimesConcat(a, b, p);
    PtrsConcat(a, b);
    InnerAndRoots(a, p);
    InnerAndRoots(b, p);
    InnerAndRoots(a + b, p);
  }

  lemma {:induction false} InnerOne(d: Decl, p: Ptr)
    ensures Inner([d], p) == AllTimes(d.sh.kids, p)
  {
    assert [d][1..] == [];
  }

  lemma {:induction false} InnerPut(d: Decl, put: bool, ds: seq<Decl>, p: Ptr)
    ensures Inner((if put then [d] else []) + ds, p) == (if put then AllTimes(d.sh.kids, p) else 0) + Inner(ds, p)
  {
    InnerConcat(if put then [d] else [], ds, p);
    InnerOne(d, p);
  }

  lemma {:induction false} InnerPutLast(d: Decl, put: bool, ds: seq<Decl>, p: Ptr)
    ensures Inner(ds + if put then [d] else [], p) == Inner(ds, p) + if put then AllTimes(d.sh.kids, p) else 0
  {
    InnerConcat(ds, if put then [d] else [], p);
    InnerOne(d, p);
  }

  lemma {:induction false} InnerParts(sue: Text, ds: seq<Decl>, p: Ptr)
    ensures Inner(Keep(ds), p) + Inner(Methods(sue, ds), p) + Inner(Sues(ds), p) == Inner(ds, p)
  {
    if ds != [] {
      var d, rest := ds[0], ds[1..];
      InnerParts(sue, rest, p);
      InnerPut(d, !d.kind.FUNC? && !IsSue(d.kind), Keep(rest), p);
      InnerPut(d, IsSue(d.kind), Sues(rest), p);
      InnerPutLast(d.(name := Prefixed(sue, d.name)), d.kind.FUNC?, Methods(sue, rest), p);
    }
  }

  function ResultInner(r: Result, p: Ptr): nat {
    AllTimes(r.self.sh.kids, p) + Inner(r.after, p) + Inner(r.hoisted, p)
  }

  lemma {:induction false} InnerAt(rs: seq<Result>, i: nat, p: Ptr)
    requires i < |rs|
    ensures ResultInner(rs[i], p) <= Inner(Splice(rs), p) + Inner(Hoists(rs), p)
  {
    InnerOne(rs[0].self, p);
    InnerConcat([rs[0].self], rs[0].after, p);
    InnerConcat([rs[0].self] + rs[0].after, Splice(rs[1..]), p);
    InnerConcat(rs[0].hoisted, Hoists(rs[1..]), p);
    if i > 0 { InnerAt(rs[1..], i - 1, p); }
  }

  /** What lies below a root among the parts of the children does so among the parts of the node. */
  lemma {:induction false} InnerStays(mem: Memory, sh: Shape, p: Ptr)
    ensures var rs := FlatAll(mem, sh.kids);
            Inner(Splice(rs), p) + Inner(Hoists(rs), p) <= ResultInner(Flat(mem, sh), p)
  {
    var rs, r := FlatAll(mem, sh.kids), Flat(mem, sh);
    InnerParts(r.self.name, Splice(rs), p);
    InnerConcat(Hoists(rs), Sues(Splice(rs)), p);
    DeclTimesShapes(Keep(Splice(rs)), p);
    DeclTimesShapes(Splice(rs), p);
    InnerAndRoots(Keep(Splice(rs)), p);
    InnerAndRoots(Splice(rs), p);
  }

  /** A settled method is below the root of a declaration. */
  lemma {:induction false} SettledInner(mem: Memory, sh: Shape, d: Decl)
    requires Settled(mem, sh, d)
    ensures ResultInner(Flat(mem, sh), d.sh.p) > 0
    decreases sh
  {
    var rs, p := FlatAll(mem, sh.kids), d.sh.p;
    var i :| 0 <= i < |sh.kids| && (SettledKid(mem, sh, sh.kids[i], d) || Settled(mem, sh.kids[i], d));
    FlatAllAt(mem, sh.kids, i);
    if SettledKid(mem, sh, sh.kids[i], d) {
      SpliceHas(rs, i, d);
      var j :| 0 <= j < |Splice(rs)| && Splice(rs)[j] == d;
      DeclTimesAt(Splice(rs), j, p);
      DeclTimesShapes(Splice(rs), p);
    } else {
      SettledInner(mem, sh.kids[i], d);
      InnerAt(rs, i, p);
      InnerStays(mem, sh, p);
    }
  }

  lemma {:induction false} SettledApart(mem: Memory, sh: Shape, i: nat, d: Decl)
    requires i < |sh.kids| && Settled(mem, sh.kids[i], d) && Times(sh, d.sh.p) <= 1
    ensures d.sh.p !in Bag(Splice(FlatAll(mem, sh.kids)))
  {
    var rs, p := FlatAll(mem, sh.kids), d.sh.p;
    FlatAllAt(mem, sh.kids, i);
    SettledInner(mem, sh.kids[i], d);
    InnerAt(rs, i, p);
    SpliceOnce(mem, sh, p);
    InnerAndRoots(Splice(rs), p);
    InnerAndRoots(Hoists(rs), p);
  }

  lemma {:induction false} SettledInside(mem: Memory, sh: Shape, d: Decl)
    requires Settled(mem, sh, d)
    ensures Times(sh, d.sh.p) > 0
  {
    SettledInner(mem, sh, d);
    FlatConserves(mem, sh, d.sh.p);
    InnerAndRoots(Flat(mem, sh).after, d.sh.p);
    InnerAndRoots(Flat(mem, sh).hoisted, d.sh.p);
  }

  lemma {:induction false} SettledSame(a: Memory, b: Memory, sh: Shape, d: Decl)
    requires SameNodes(a, b, sh) && Settled(a, sh, d)
    ensures Settled(b, sh, d)
    decreases sh
  {
    var i :| 0 <= i < |sh.kids| && (SettledKid(a, sh, sh.kids[i], d) || Settled(a, sh.kids[i], d));
    forall p ensures Times(sh.kids[i], p) <= Times(sh, p) { KidTimes(sh.kids, i, p); }
    if SettledKid(a, sh, sh.kids[i], d) {
      FlatSame(a, b, sh.kids[i]);
      assert Times(sh, sh.p) > 0;
      assert SettledKid(b, sh, sh.kids[i], d);
    } else {
      SettledSame(a, b, sh.kids[i], d);
    }
  }

  // ---------------------------------------------------------------- the names after a visit

  /** The declaration carries its name. */
  ghost predicate Named(mem: Memory, d: Decl) {
    d.sh.p in mem && mem[d.sh.p].tok.text == d.name
  }

  /** What a visit of the children says of each of them. */
  lemma {:induction false} AfterNamed(s: State, s': State, kids: seq<Shape>, H: seq<Decl>, i: nat, d: Decl)
    requires AllVisited(s, s', kids, FlatAll(s.mem, kids), H) && i < |kids| && d in Flat(s.mem, kids[i]).after
    ensures Named(s'.mem, d)
  {
    FlatAllAt(s.mem, kids, i);
    var r := Flat(s.mem, kids[i]);
    assert KidVisited(s, s', kids[i], r);
    var j :| 0 <= j < |r.after| && r.after[j] == d;
    assert ([r.self] + r.after)[j + 1] == d;
  }

  /** Visiting the other children leaves what is settled alone. */
  lemma {:induction false} SettledKept(s: State, s': State, shs: seq<Shape>, d: Decl)
    requires Framed(s, s', shs) && AllTimes(shs, d.sh.p) == 0 && Named(s.mem, d)
    ensures Named(s'.mem, d)
  {
    assert SameBut(s.mem, s'.mem, if s.head != NULL then s.tail else NULL, d.sh.p);
  }

  /** What is left of a visit of children once the first has been visited. */
  lemma {:induction false} OthersVisited(s: State, s1: State, n: Ptr, items: seq<Item>, kids: seq<Shape>, s': State)
    requires items != [] && items[0].Child? && Children(items) == Roots(kids)
    requires VisitItems(FlattenVisitor(), n, items, kids, s) == Some((true, s'))
    requires kids != [] && Visit(FlattenVisitor(), kids[0], s) == Some((true, s1))
    ensures Children(items[1..]) == Roots(kids[1..])
    ensures VisitItems(FlattenVisitor(), n, items[1..], kids[1..], s1) == Some((true, s'))
  {
    FirstChild(items, kids);
  }

  /** The first child and the others. */
  lemma {:induction false} FirstVisited(s: State, kids: seq<Shape>, H: seq<Decl>) returns (s1: State, H1: seq<Decl>)
    requires Ready(s, kids, H) && kids != []
    ensures Visit(FlattenVisitor(), kids[0], s) == Some((true, s1)) && Ready(s, [kids[0]], H)
    ensures Ready(s1, kids[1..], H1)
    ensures forall i :: 0 <= i < |kids[1..]| ==> SameNodes(s.mem, s1.mem, kids[1..][i]) && Shows(s.mem, kids[1..][i])
    ensures forall p :: AllTimes(kids, p) <= 1
  {
    var r := Flat(s.mem, kids[0]);
    forall p ensures ResultTimes(r, p) == Times(kids[0], p) { FlatConserves(s.mem, kids[0], p); }
    ReadyFirst(s, kids, H);
    s1 := VisitFlattens(s, kids[0], H);
    StillReady(s, s1, kids, r, H);
    H1 := H + r.hoisted;
    forall i | 0 <= i < |kids[1..]| ensures Shows(s.mem, kids[1..][i]) { assert kids[1..][i] == kids[i + 1]; }
  }

  lemma {:induction false} OthersKeep(s: State, n: Ptr, items: seq<Item>, kids: seq<Shape>, H: seq<Decl>, s': State,
                                      d: Decl)
    requires kids != [] && Ready(s, kids[1..], H) && Children(items) == Roots(kids[1..])
    requires VisitItems(FlattenVisitor(), n, items, kids[1..], s) == Some((true, s'))
    requires Times(kids[0], d.sh.p) > 0 && AllTimes(kids, d.sh.p) <= 1 && Named(s.mem, d)
    ensures Named(s'.mem, d)
  {
    var s2 := ItemsFlatten(s, n, items, kids[1..], H);
    SettledKept(s, s', kids[1..], d);
  }

  lemma {:induction false} ItemsSettle(s: State, n: Ptr, items: seq<Item>, kids: seq<Shape>, H: seq<Decl>, s': State,
                                       i: nat, d: Decl)
    requires Ready(s, kids, H) && Children(items) == Roots(kids)
    requires VisitItems(FlattenVisitor(), n, items, kids, s) == Some((true, s'))
    requires i < |kids| && Settled(s.mem, kids[i], d)
    ensures Named(s'.mem, d)
    decreases kids, 0, |items|
  {
    assert |Roots(kids)| == |kids|;
    if items == [] {
    } else if items[0].Gap? {
      ItemsSettle(s, n, items[1..], kids, H, s', i, d);
    } else {
      var s1, H1 := FirstVisited(s, kids, H);
      OthersVisited(s, s1, n, items, kids, s');
      if i == 0 {
        FirstSettles(s, s1, n, items[1..], kids, H, H1, s', d);
      } else {
        LaterSettles(s, s1, n, items[1..], kids, H1, s', i, d);
      }
    }
  }

  lemma {:induction false} FirstSettles(s: State, s1: State, n: Ptr, items: seq<Item>, kids: seq<Shape>, H: seq<Decl>,
                                        H1: seq<Decl>, s': State, d: Decl)
    requires kids != [] && Ready(s, [kids[0]], H) && Visit(FlattenVisitor(), kids[0], s) == Some((true, s1))
    requires Ready(s1, kids[1..], H1) && Children(items) == Roots(kids[1..]) && AllTimes(kids, d.sh.p) <= 1
    requires VisitItems(FlattenVisitor(), n, items, kids[1..], s1) == Some((true, s'))
    requires Settled(s.mem, kids[0], d)
    ensures Named(s'.mem, d)
    decreases kids, 0, |items|
  {
    VisitSettles(s, kids[0], H, s1, d);
    SettledInside(s.mem, kids[0], d);
    OthersKeep(s1, n, items, kids, H1, s', d);
  }

  lemma {:induction false} LaterSettles(s: State, s1: State, n: Ptr, items: seq<Item>, kids: seq<Shape>, H: seq<Decl>,
                                        s': State, i: nat, d: Decl)
    requires kids != [] && Ready(s1, kids[1..], H) && Children(items) == Roots(kids[1..])
    requires VisitItems(FlattenVisitor(), n, items, kids[1..], s1) == Some((true, s'))
    requires forall j :: 0 <= j < |kids[1..]| ==> SameNodes(s.mem, s1.mem, kids[1..][j])
    requires 0 < i < |kids| && Settled(s.mem, kids[i], d)
    ensures Named(s'.mem, d)
    decreases kids, 0, |items|
  {
    assert kids[1..][i - 1] == kids[i];
    SettledSame(s.mem, s1.mem, kids[1..][i - 1], d);
    ItemsSettle(s1, n, items, kids[1..], H, s', i - 1, d);
  }

  /** A visit gives the settled methods their names. */
  lemma {:induction false} VisitSettles(s: State, sh: Shape, H: seq<Decl>, s': State, d: Decl)
    requires Ready(s, [sh], H) && Visit(FlattenVisitor(), sh, s) == Some((true, s')) && Settled(s.mem, sh, d)
    ensures Named(s'.mem, d)
    decreases sh, 1
  {
    var n, s1 := sh.p, FlattenEnter(s, sh.p).0;
    ReadyInside(s, s1, sh, H);
    var items := Items(s1.mem, n).value;
    var s2 := ItemsFlatten(s1, n, items, sh.kids, H);
    var i :| 0 <= i < |sh.kids| && (SettledKid(s.mem, sh, sh.kids[i], d) || Settled(s.mem, sh.kids[i], d));
    if SettledKid(s.mem, sh, sh.kids[i], d) {
      AfterNamed(s1, s2, sh.kids, H, i, d);
    } else {
      ItemsSettle(s1, n, items, sh.kids, H, s2, i, d);
    }
    if IsSue(s.mem[n].kind) {
      SettledLeft(s, s1, s2, sh, H, i, d);
    } else {
      LeaveOther(s, s2, sh, H);
    }
  }

  lemma {:induction false} SettledLeft(s: State, s1: State, s2: State, sh: Shape, H: seq<Decl>, i: nat, d: Decl)
    requires Ready(s, [sh], H) && sh.p in s.mem && IsSue(s.mem[sh.p].kind) && s1 == FlattenEnter(s, sh.p).0
    requires AllVisited(s1, s2, sh.kids, FlatAll(s.mem, sh.kids), H) && Named(s2.mem, d)
    requires i < |sh.kids| && Settled(s.mem, sh.kids[i], d)
    ensures Named(FlattenExit(s2, sh.p).mem, d)
  {
    ReadyInside(s, s1, sh, H);
    SettledApart(s.mem, sh, i, d);
    var s' := LeaveType(s, s1, s2, sh, H);
  }

  // ---------------------------------------------------------------- all other names

  /** Function `p` is directly inside a type, somewhere in the tree `sh`. */
  ghost predicate MethodUnder(mem: Memory, sh: Shape, p: Ptr)
    decreases sh
  {
    MethodHere(mem, sh, p) || exists i :: 0 <= i < |sh.kids| && MethodUnder(mem, sh.kids[i], p)
  }

  ghost predicate MethodHere(mem: Memory, sh: Shape, p: Ptr) {
    && sh.p in mem && IsSue(mem[sh.p].kind) && p in mem && mem[p].kind.FUNC?
    && exists i :: 0 <= i < |sh.kids| && sh.kids[i].p == p
  }

  lemma {:induction false} MethodsAreUnder(mem: Memory, sh: Shape, path: seq<Text>, p: Ptr, own: Text)
    requires MethodAt(mem, sh, path, p, own)
    ensures MethodUnder(mem, sh, p)
    decreases sh
  {
    var i :| 0 <= i < |sh.kids| && MethodIn(mem, sh.kids[i], path[1..], p, own);
    if path[1..] == [] {
      assert MethodHere(mem, sh, p);
    } else {
      MethodsAreUnder(mem, sh.kids[i], path[1..], p, own);
    }
  }

  /** A function among the spliced contents of a type is a method. */
  lemma {:induction false} SplicedMethods(mem: Memory, sh: Shape, d: Decl)
    requires sh.p in mem && IsSue(mem[sh.p].kind) && d in Splice(FlatAll(mem, sh.kids)) && d.kind.FUNC? && d.sh.p in mem
    ensures MethodUnder(mem, sh, d.sh.p)
  {
    var rs := FlatAll(mem, sh.kids);
    InSplice(rs, d);
    var i :| 0 <= i < |rs| && (d == rs[i].self || d in rs[i].after);
    FlatAllSize(mem, sh.kids);
    FlatAllAt(mem, sh.kids, i);
    if d == rs[i].self {
      assert MethodHere(mem, sh, d.sh.p);
    } else {
      var path, own := MethodNames(mem, sh.kids[i], d);
      MethodsAreUnder(mem, sh.kids[i], path, d.sh.p, own);
    }
  }

  lemma {:induction false} UnderSame(a: Memory, b: Memory, sh: Shape, p: Ptr)
    requires SameNodes(a, b, sh) && MethodUnder(b, sh, p) && Shows(a, sh)
    ensures MethodUnder(a, sh, p)
    decreases sh
  {
    assert Times(sh, sh.p) > 0;
    if MethodHere(b, sh, p) {
      var i :| 0 <= i < |sh.kids| && sh.kids[i].p == p;
      assert Times(sh.kids[i], p) > 0;
      KidTimes(sh.kids, i, p);
      assert MethodHere(a, sh, p);
    } else {
      var i :| 0 <= i < |sh.kids| && MethodUnder(b, sh.kids[i], p);
      forall q ensures Times(sh.kids[i], q) <= Times(sh, q) { KidTimes(sh.kids, i, q); }
      UnderSame(a, b, sh.kids[i], p);
    }
  }

  ghost predicate SameTok(a: Memory, b: Memory, p: Ptr) {
    p in a && p in b && b[p].tok == a[p].tok
  }

  lemma {:induction false} ItemsToks(s: State, n: Ptr, items: seq<Item>, kids: seq<Shape>, H: seq<Decl>, s': State,
                                     p: Ptr)
    requires Ready(s, kids, H) && Children(items) == Roots(kids) && p in s.mem
    requires VisitItems(FlattenVisitor(), n, items, kids, s) == Some((true, s'))
    requires forall i :: 0 <= i < |kids| ==> !MethodUnder(s.mem, kids[i], p)
    ensures SameTok(s.mem, s'.mem, p)
    decreases kids, 0, |items|
  {
    if items == [] {
    } else if items[0].Gap? {
      ItemsToks(s, n, items[1..], kids, H, s', p);
    } else {
      FirstChild(items, kids);
      var s1, H1 := FirstVisited(s, kids, H);
      VisitToks(s, kids[0], H, s1, p);
      forall i | 0 <= i < |kids[1..]| ensures !MethodUnder(s1.mem, kids[1..][i], p) {
        assert kids[1..][i] == kids[i + 1];
        if MethodUnder(s1.mem, kids[1..][i], p) { UnderSame(s.mem, s1.mem, kids[1..][i], p); }
      }
      ItemsToks(s1, n, items[1..], kids[1..], H1, s', p);
    }
  }

  /** A visit changes no token but that of a method. */
  lemma {:induction false} VisitToks(s: State, sh: Shape, H: seq<Decl>, s': State, p: Ptr)
    requires Ready(s, [sh], H) && Visit(FlattenVisitor(), sh, s) == Some((true, s')) && p in s.mem
    requires !MethodUnder(s.mem, sh, p)
    ensures SameTok(s.mem, s'.mem, p)
    decreases sh, 1
  {
    var n, s1 := sh.p, FlattenEnter(s, sh.p).0;
    ReadyInside(s, s1, sh, H);
    var items := Items(s1.mem, n).value;
    var s2 := ItemsFlatten(s1, n, items, sh.kids, H);
    ItemsToks(s1, n, items, sh.kids, H, s2, p);
    if IsSue(s.mem[n].kind) {
      ToksLeft(s, s1, s2, sh, H, p);
    } else {
      LeaveOther(s, s2, sh, H);
    }
  }

  lemma {:induction false} ToksLeft(s: State, s1: State, s2: State, sh: Shape, H: seq<Decl>, p: Ptr)
    requires Ready(s, [sh], H) && sh.p in s.mem && IsSue(s.mem[sh.p].kind) && s1 == FlattenEnter(s, sh.p).0
    requires AllVisited(s1, s2, sh.kids, FlatAll(s.mem, sh.kids), H)
    requires p in s.mem && SameTok(s.mem, s2.mem, p) && !MethodUnder(s.mem, sh, p)
    ensures SameTok(s2.mem, FlattenExit(s2, sh.p).mem, p)
  {
    var R := Splice(FlatAll(s.mem, sh.kids));
    var s' := LeaveType(s, s1, s2, sh, H);
    ExitKept(s2, sh.p);
    assert CellKept(s2.mem[p], s'.mem[p]);
    if p in Bag(R) {
      var i :| 0 <= i < |R| && Ptrs(R)[i] == p;
      AllPlaced(s1, s2, sh.kids, FlatAll(s.mem, sh.kids));
      assert R[i].sh.p == p && s2.mem[p].kind == R[i].kind;
      if R[i].kind.FUNC? { SplicedMethods(s.mem, sh, R[i]); }
    }
  }

  lemma {:induction false} ProgramNamed(s: State, s': State, sh: Shape)
    requires Ready(s, [sh], []) && Visit(FlattenVisitor(), sh, s) == Some((true, s'))
    ensures forall p :: p in s.mem && !MethodUnder(s.mem, sh, p) ==> SameTok(s.mem, s'.mem, p)
    ensures forall y, path, p, own {:trigger Outermost(s.mem, sh, y), MethodAt(s.mem, y, path, p, own)} ::
              Outermost(s.mem, sh, y) && MethodAt(s.mem, y, path, p, own) ==>
                p in s'.mem && Spelled(s'.mem[p].tok.text, path, own)
  {
    forall p | p in s.mem && !MethodUnder(s.mem, sh, p)
      ensures SameTok(s.mem, s'.mem, p) { VisitToks(s, sh, [], s', p); }
    forall y, path, p, own | Outermost(s.mem, sh, y) && MethodAt(s.mem, y, path, p, own)
      ensures p in s'.mem && Spelled(s'.mem[p].tok.text, path, own)
    {
      var d := MethodFound(s.mem, y, path, p, own);
      OutermostSettles(s.mem, sh, y, d);
      VisitSettles(s, sh, [], s', d);
    }
  }
}
