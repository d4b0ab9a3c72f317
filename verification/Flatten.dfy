/** flatten_sues (src/cgen.c): the methods of structs, unions and enums move behind their type,
    and nested types to the front of the program, by splicing sibling lists in place. */
module Flatten {
  import opened Ast
  import opened Visitor

  type Text = seq<byte>

  predicate IsSue(k: Kind) {
    k.STRUCT? || k.UNION? || k.ENUM?
  }

  // ---------------------------------------------------------------- the pass

  /** The pass state: the memory, sue_stack, and the list of hoisted types. */
  datatype State = State(mem: Memory, sues: seq<Text>, head: Ptr, tail: Ptr)

  function FlattenEnter(s: State, n: Ptr): (State, VisitResult) {
    (if n in s.mem && IsSue(s.mem[n].kind) then s.(sues := s.sues + [s.mem[n].tok.text]) else s, Continue)
  }

  const UNDERSCORE: byte := 95

  function Prefixed(sue: Text, name: Text): Text {
    if sue == [] || name == [] then name else sue + [UNDERSCORE] + name
  }

  /** `*prev_ptr = p`: the contents field of type `n`, or the sibling link of node `prev`. */
  function SetLink(mem: Memory, n: Ptr, prev: Ptr, p: Ptr): Memory
    requires n in mem && mem[n].kids != [] && (prev == NULL || prev in mem)
  {
    if prev == NULL then mem[n := mem[n].(kids := mem[n].kids[0 := p])] else mem[prev := mem[prev].(next := p)]
  }

  /** Renames method `child` and puts it right behind type `n`. */
  function Behind(mem: Memory, n: Ptr, child: Ptr, sue: Text): Memory
    requires n in mem && child in mem
  {
    var c := mem[child];
    mem[child := c.(tok := c.tok.(text := Prefixed(sue, c.tok.text)), next := mem[n].next)][n := mem[n].(next := child)]
  }

  /** Appends nested type `child` to the list of hoisted types. */
  function Hoist(s: State, child: Ptr): State
    requires child in s.mem && (s.head != NULL ==> s.tail in s.mem)
  {
    var mem := s.mem[child := s.mem[child].(next := NULL)];
    if s.head == NULL then s.(mem := mem, head := child, tail := child)
    else s.(mem := mem[s.tail := mem[s.tail].(next := child)], tail := child)
  }

  /** The loop of flatten_exit over the contents of type `n`; `prev` is the last child kept,
      NULL for none. */
  function Sweep(s: State, n: Ptr, prev: Ptr, child: Ptr, sue: Text, fuel: nat): State
    decreases fuel
  {
    if child == NULL || fuel == 0 || child !in s.mem || n !in s.mem || s.mem[n].kids == [] then s
    else if (prev != NULL && prev !in s.mem) || (s.head != NULL && s.tail !in s.mem) then s
    else
      var next := s.mem[child].next;
      if s.mem[child].kind.FUNC? then
        Sweep(s.(mem := Behind(SetLink(s.mem, n, prev, next), n, child, sue)), n, prev, next, sue, fuel - 1)
      else if IsSue(s.mem[child].kind) then
        Sweep(Hoist(s.(mem := SetLink(s.mem, n, prev, next)), child), n, prev, next, sue, fuel - 1)
      else Sweep(s, n, child, next, sue, fuel - 1)
  }

  function FlattenExit(s: State, n: Ptr): State {
    if n in s.mem && IsSue(s.mem[n].kind) && s.sues != [] then
      Sweep(s.(sues := s.sues[..|s.sues| - 1]), n, NULL, Kid(s.mem[n], 0), s.sues[|s.sues| - 1], |s.mem|)
    else s
  }

  function FlattenVisitor(): Visitor<State> {
    Visitor((s: State) => s.mem, (s: State, n: Ptr) => FlattenEnter(s, n), None,
            Some((s: State, n: Ptr) => FlattenExit(s, n)))
  }

  // ---------------------------------------------------------------- where everything goes

  /** A declaration in its new place: the tree under it, its kind and its name. */
  datatype Decl = Decl(sh: Shape, kind: Kind, name: Text)

  /** A node after the pass, the methods put behind it and the types hoisted from under it. */
  datatype Result = Result(self: Decl, after: seq<Decl>, hoisted: seq<Decl>)

  function Keep(ds: seq<Decl>): seq<Decl> {
    if ds == [] then []
    else (if !ds[0].kind.FUNC? && !IsSue(ds[0].kind) then [ds[0]] else []) + Keep(ds[1..])
  }

  function Sues(ds: seq<Decl>): seq<Decl> {
    if ds == [] then [] else (if IsSue(ds[0].kind) then [ds[0]] else []) + Sues(ds[1..])
  }

  /** The methods, the last one first, each with the name of the type in front of its own. */
  function Methods(sue: Text, ds: seq<Decl>): seq<Decl> {
    if ds == [] then []
    else Methods(sue, ds[1..]) + if ds[0].kind.FUNC? then [ds[0].(name := Prefixed(sue, ds[0].name))] else []
  }

  function Splice(rs: seq<Result>): seq<Decl> {
    if rs == [] then [] else [rs[0].self] + rs[0].after + Splice(rs[1..])
  }

  function Hoists(rs: seq<Result>): seq<Decl> {
    if rs == [] then [] else rs[0].hoisted + Hoists(rs[1..])
  }

  function Shapes(ds: seq<Decl>): (r: seq<Shape>)
    ensures |r| == |ds| && forall i :: 0 <= i < |ds| ==> r[i] == ds[i].sh
  {
    seq(|ds|, i requires 0 <= i < |ds| => ds[i].sh)
  }

  function Ptrs(ds: seq<Decl>): (r: seq<Ptr>)
    ensures |r| == |ds| && forall i :: 0 <= i < |ds| ==> r[i] == ds[i].sh.p
  {
    seq(|ds|, i requires 0 <= i < |ds| => ds[i].sh.p)
  }

  function Flat(mem: Memory, sh: Shape): Result
    decreases sh, 1
  {
    var rs := FlatAll(mem, sh.kids);
    var kind, name := if sh.p in mem then mem[sh.p].kind else ERROR, if sh.p in mem then mem[sh.p].tok.text else [];
    if IsSue(kind) then
      Result(Decl(Shape(sh.p, Shapes(Keep(Splice(rs)))), kind, name), Methods(name, Splice(rs)),
             Hoists(rs) + Sues(Splice(rs)))
    else Result(Decl(Shape(sh.p, Shapes(Splice(rs))), kind, name), [], Hoists(rs))
  }

  function FlatAll(mem: Memory, shs: seq<Shape>): seq<Result>
    decreases shs, 0
  {
    if shs == [] then [] else [Flat(mem, shs[0])] + FlatAll(mem, shs[1..])
  }

  // ---------------------------------------------------------------- segments of sibling lists

  /** Following siblings from `p` gives `ps` and then `end`. */
  predicate Seg(mem: Memory, p: Ptr, ps: seq<Ptr>, end: Ptr)
    decreases |ps|
  {
    if ps == [] then p == end
    else p == ps[0] && p != NULL && p in mem && Seg(mem, mem[p].next, ps[1..], end)
  }

  lemma {:induction false} SegKept(a: Memory, b: Memory, p: Ptr, ps: seq<Ptr>, end: Ptr)
    requires Seg(a, p, ps, end) && forall x :: x in ps && x in a ==> x in b && b[x].next == a[x].next
    ensures Seg(b, p, ps, end)
    decreases |ps|
  {
    if ps != [] {
      assert ps[0] in ps && forall x :: x in ps[1..] ==> x in ps;
      SegKept(a, b, a[p].next, ps[1..], end);
    }
  }

  lemma {:induction false} SegJoin(mem: Memory, p: Ptr, ps: seq<Ptr>, q: Ptr, qs: seq<Ptr>, end: Ptr)
    requires Seg(mem, p, ps, q) && Seg(mem, q, qs, end)
    ensures Seg(mem, p, ps + qs, end)
    decreases |ps|
  {
    if ps == [] {
      assert ps + qs == qs;
    } else {
      SegJoin(mem, mem[p].next, ps[1..], q, qs, end);
      assert (ps + qs)[1..] == ps[1..] + qs;
    }
  }

  /** The last node of a segment is linked elsewhere. */
  lemma {:induction false} SegTurned(a: Memory, b: Memory, p: Ptr, ps: seq<Ptr>, end: Ptr, end': Ptr)
    requires Seg(a, p, ps, end) && ps != [] && NoDup(ps)
    requires forall x :: x in ps && x in a ==> x in b
    requires forall x :: x in ps && x in a && x != ps[|ps| - 1] ==> b[x].next == a[x].next
    requires ps[|ps| - 1] in b && b[ps[|ps| - 1]].next == end'
    ensures Seg(b, p, ps, end')
    decreases |ps|
  {
    assert ps[0] in ps && forall x :: x in ps[1..] ==> x in ps;
    if |ps| > 1 {
      assert ps[1..][|ps| - 2] == ps[|ps| - 1];
      SegTurned(a, b, a[p].next, ps[1..], end, end');
    } else {
      assert Seg(b, end', [], end');
    }
  }

  predicate NoDup(ps: seq<Ptr>) {
    forall i, j :: 0 <= i < j < |ps| ==> ps[i] != ps[j]
  }

  // ---------------------------------------------------------------- the loop of flatten_exit

  function LastPtr(ds: seq<Decl>): Ptr {
    if ds == [] then NULL else ds[|ds| - 1].sh.p
  }

  /** The list of hoisted types is `H`. */
  ghost predicate HoistedIs(s: State, H: seq<Decl>) {
    HoistChain(s, H) && Labelled(s.mem, H)
  }

  ghost predicate HoistChain(s: State, H: seq<Decl>) {
    Seg(s.mem, s.head, Ptrs(H), NULL) && (H == [] <==> s.head == NULL) && (H != [] ==> s.tail == LastPtr(H))
  }

  ghost predicate Labelled(mem: Memory, ds: seq<Decl>) {
    forall i :: 0 <= i < |ds| ==>
      ds[i].sh.p in mem && mem[ds[i].sh.p].kind == ds[i].kind && mem[ds[i].sh.p].tok.text == ds[i].name
  }

  function Bag(ds: seq<Decl>): multiset<Ptr> {
    multiset(Ptrs(ds))
  }

  /** The four lists of the loop hold each node of `all` once. */
  ghost predicate Once(n: Ptr, all: multiset<Ptr>) {
    (forall p :: all[p] <= 1) && n !in all && NULL !in all
  }

  /** In the contents of type `n` the children `K` have been kept and `R` remain, the methods
      `A` are behind it, and `H` is hoisted. */
  ghost predicate Sweeping(s: State, n: Ptr, K: seq<Decl>, child: Ptr, R: seq<Decl>, A: seq<Decl>, end: Ptr,
                           H: seq<Decl>) {
    && n in s.mem && n != NULL && (s.mem[n].kids == [] ==> K == [] && R == [])
    && Seg(s.mem, Kid(s.mem[n], 0), Ptrs(K), child) && Seg(s.mem, child, Ptrs(R), NULL)
    && Seg(s.mem, s.mem[n].next, Ptrs(A), end) && HoistedIs(s, H)
    && Labelled(s.mem, K) && Labelled(s.mem, R) && Labelled(s.mem, A)
    && Once(n, Bag(K) + Bag(R) + Bag(A) + Bag(H))
  }

  lemma {:induction false} PtrsConcat(a: seq<Decl>, b: seq<Decl>)
    ensures Ptrs(a + b) == Ptrs(a) + Ptrs(b) && Bag(a + b) == Bag(a) + Bag(b)
  {
    assert Ptrs(a + b) == Ptrs(a) + Ptrs(b);
  }

  /** The first remaining child leaves the contents. */
  function Rest(ds: seq<Decl>): seq<Decl>
    requires ds != []
  {
    ds[1..]
  }

  lemma {:induction false} Head(s: State, n: Ptr, K: seq<Decl>, child: Ptr, R: seq<Decl>, A: seq<Decl>, end: Ptr,
                                H: seq<Decl>)
    requires Sweeping(s, n, K, child, R, A, end, H) && R != []
    ensures child == R[0].sh.p && child in s.mem && child != NULL && child != n && s.mem[n].kids != []
    ensures s.mem[child].kind == R[0].kind && s.mem[child].tok.text == R[0].name
    ensures Seg(s.mem, s.mem[child].next, Ptrs(Rest(R)), NULL) && Bag(R) == multiset{child} + Bag(Rest(R))
    ensures forall x :: x in Ptrs(K) || x in Ptrs(Rest(R)) || x in Ptrs(A) || x in Ptrs(H) ==> x != child && x != n
  {
    assert Ptrs(R)[1..] == Ptrs(Rest(R));
    assert R == [R[0]] + Rest(R);
    PtrsConcat([R[0]], Rest(R));
    assert Ptrs([R[0]]) == [child];
    var all := Bag(K) + Bag(R) + Bag(A) + Bag(H);
    assert all[child] == Bag(K)[child] + 1 + Bag(Rest(R))[child] + Bag(A)[child] + Bag(H)[child];
  }

  lemma {:induction false} BagsApart(K: seq<Decl>, R: seq<Decl>, A: seq<Decl>, H: seq<Decl>, n: Ptr, x: Ptr)
    requires Once(n, Bag(K) + Bag(R) + Bag(A) + Bag(H)) && x in Ptrs(K)
    ensures x !in Ptrs(R) && x !in Ptrs(A) && x !in Ptrs(H) && x != n && x != NULL
  {
    var all := Bag(K) + Bag(R) + Bag(A) + Bag(H);
    assert all[x] == Bag(K)[x] + Bag(R)[x] + Bag(A)[x] + Bag(H)[x];
  }

  lemma {:induction false} BagNoDup(ps: seq<Ptr>)
    requires forall p :: multiset(ps)[p] <= 1
    ensures NoDup(ps)
  {
    forall i, j | 0 <= i < j < |ps| ensures ps[i] != ps[j] {
      assert ps == ps[..j] + ps[j..];
      assert ps[i] == ps[..j][i] && ps[j] == ps[j..][0];
      assert multiset(ps)[ps[j]] == multiset(ps[..j])[ps[j]] + multiset(ps[j..])[ps[j]];
    }
  }

  /** Cells that differ at most in their sibling and in the text of their token. */
  ghost predicate Touched(c: Cell, d: Cell) {
    d.(next := c.next, tok := d.tok.(text := c.tok.text)) == c
  }

  /** Like `a`, but for siblings and names of the nodes in `ps`, and the sibling and contents
      of `n`. */
  ghost predicate OnlyTouched(a: Memory, b: Memory, n: Ptr, ps: multiset<Ptr>) {
    && b.Keys == a.Keys
    && (forall p :: p in a && p !in ps && p != n ==> b[p] == a[p])
    && (forall p :: p in a && p in ps ==> Touched(a[p], b[p]))
    && (n in a ==> |b[n].kids| == |a[n].kids|
                   && b[n].(next := a[n].next, kids := a[n].kids) == a[n]
                   && (a[n].kids != [] ==> b[n].kids[1..] == a[n].kids[1..]))
  }

  /** Outside `ps` tokens are the same. */
  ghost predicate ToksKept(a: Memory, b: Memory, ps: multiset<Ptr>) {
    forall p :: p in a && p in b && p !in ps ==> b[p].tok == a[p].tok
  }

  /** Of the hoisted types only the last can be touched. */
  function LastBag(H: seq<Decl>): multiset<Ptr> {
    if H == [] then multiset{} else multiset{LastPtr(H)}
  }

  lemma {:induction false} OnlyTouchedTwice(a: Memory, b: Memory, c: Memory, n: Ptr, ps: multiset<Ptr>)
    requires OnlyTouched(a, b, n, ps) && OnlyTouched(b, c, n, ps) && n !in ps
    ensures OnlyTouched(a, c, n, ps)
  {
  }

  lemma {:induction false} StepKeep(s: State, n: Ptr, K: seq<Decl>, child: Ptr, R: seq<Decl>, A: seq<Decl>, end: Ptr,
                                    H: seq<Decl>)
    requires Sweeping(s, n, K, child, R, A, end, H) && R != []
    ensures child in s.mem && Sweeping(s, n, K + [R[0]], s.mem[child].next, Rest(R), A, end, H)
    ensures LastPtr(K + [R[0]]) == child
    ensures Bag(K + [R[0]]) + Bag(Rest(R)) + Bag(A) + Bag(H) == Bag(K) + Bag(R) + Bag(A) + Bag(H)
  {
    Head(s, n, K, child, R, A, end, H);
    PtrsConcat(K, [R[0]]);
    assert Ptrs([R[0]]) == [child];
    assert Seg(s.mem, child, [child], s.mem[child].next) by { assert [child][1..] == []; }
    SegJoin(s.mem, Kid(s.mem[n], 0), Ptrs(K), child, [child], s.mem[child].next);
    LabelledParts(s.mem, K, R);
    assert Bag(K + [R[0]]) + Bag(Rest(R)) + Bag(A) + Bag(H) == Bag(K) + Bag(R) + Bag(A) + Bag(H);
  }

  lemma {:induction false} LabelledParts(mem: Memory, K: seq<Decl>, R: seq<Decl>)
    requires Labelled(mem, K) && Labelled(mem, R) && R != []
    ensures Labelled(mem, K + [R[0]]) && Labelled(mem, Rest(R))
  {
    forall i | 0 <= i < |K| + 1
      ensures var d := (K + [R[0]])[i]; d.sh.p in mem && mem[d.sh.p].kind == d.kind && mem[d.sh.p].tok.text == d.name
    {
      if i < |K| { assert (K + [R[0]])[i] == K[i]; } else { assert (K + [R[0]])[i] == R[0]; }
    }
  }

  /** Nodes keep their labels when only siblings and contents change. */
  lemma {:induction false} LabelledKept(a: Memory, b: Memory, ds: seq<Decl>)
    requires Labelled(a, ds)
    requires forall i :: 0 <= i < |ds| && ds[i].sh.p in a ==>
               ds[i].sh.p in b && b[ds[i].sh.p].kind == a[ds[i].sh.p].kind && b[ds[i].sh.p].tok == a[ds[i].sh.p].tok
    ensures Labelled(b, ds)
  {
  }

  /** A method goes behind its type. */
  lemma {:induction false} StepMethod(s: State, n: Ptr, K: seq<Decl>, child: Ptr, R: seq<Decl>, A: seq<Decl>,
                                      end: Ptr, H: seq<Decl>, sue: Text)
    requires Sweeping(s, n, K, child, R, A, end, H) && R != []
    ensures child in s.mem && s.mem[n].kids != [] && (LastPtr(K) == NULL || LastPtr(K) in s.mem)
    ensures var m := Behind(SetLink(s.mem, n, LastPtr(K), s.mem[child].next), n, child, sue);
            var A' := [R[0].(name := Prefixed(sue, R[0].name))] + A;
            && Sweeping(s.(mem := m), n, K, s.mem[child].next, Rest(R), A', end, H)
            && OnlyTouched(s.mem, m, n, Bag(K) + Bag(R)) && ToksKept(s.mem, m, Bag(R))
            && Bag(K) + Bag(Rest(R)) + Bag(A') + Bag(H) == Bag(K) + Bag(R) + Bag(A) + Bag(H)
  {
    Unlinked(s, n, K, child, R, A, end, H);
    Head(s, n, K, child, R, A, end, H);
    var m1, d := SetLink(s.mem, n, LastPtr(K), s.mem[child].next), R[0].(name := Prefixed(sue, R[0].name));
    MethodBags(K, R, A, H, d);
    ChildParted(s, m1, n, K, child, R, A, end, H);
    BehindLinks(s.mem, m1, n, LastPtr(K), child, SegsOf(s, K, child, R, A, end, H), sue);
    BehindLabels(s, m1, n, K, child, R, A, end, H, sue);
    MethodTouches(s, m1, n, K, child, R, A, end, H, sue);
  }

  lemma {:induction false} MethodBags(K: seq<Decl>, R: seq<Decl>, A: seq<Decl>, H: seq<Decl>, d: Decl)
    requires R != [] && d.sh == R[0].sh
    ensures Ptrs([d] + A) == [d.sh.p] + Ptrs(A)
    ensures Bag(K) + Bag(Rest(R)) + Bag([d] + A) + Bag(H) == Bag(K) + Bag(R) + Bag(A) + Bag(H)
  {
    FirstBag(R);
    assert Ptrs([d]) == [d.sh.p];
    PtrsConcat([d], A);
  }

  lemma {:induction false} FirstBag(R: seq<Decl>)
    requires R != []
    ensures Bag(R) == multiset{R[0].sh.p} + Bag(Rest(R))
  {
    assert R == [R[0]] + Rest(R);
    PtrsConcat([R[0]], Rest(R));
    assert Ptrs([R[0]]) == [R[0].sh.p];
  }

  lemma {:induction false} MethodTouches(s: State, m1: Memory, n: Ptr, K: seq<Decl>, child: Ptr, R: seq<Decl>,
                                         A: seq<Decl>,
                                         end: Ptr, H: seq<Decl>, sue: Text)
    requires Sweeping(s, n, K, child, R, A, end, H) && R != [] && child in s.mem
    requires OnlyTouched(s.mem, m1, n, Bag(K)) && forall p :: p in m1 ==> m1[p].tok == s.mem[p].tok
    ensures OnlyTouched(s.mem, Behind(m1, n, child, sue), n, Bag(K) + Bag(R))
    ensures ToksKept(s.mem, Behind(m1, n, child, sue), Bag(R))
  {
    Head(s, n, K, child, R, A, end, H);
    assert n !in Bag(K) + Bag(R) by { assert n !in Bag(K) + Bag(R) + Bag(A) + Bag(H); }
    assert child in Bag(R) && child !in Ptrs(K);
    BehindTouches(s.mem, m1, n, Bag(K), child, sue);
    OnlyTouchedMore(s.mem, Behind(m1, n, child, sue), n, Bag(K) + multiset{child}, Bag(K) + Bag(R));
  }

  lemma {:induction false} BehindTouches(m: Memory, m1: Memory, n: Ptr, ps: multiset<Ptr>, child: Ptr, sue: Text)
    requires OnlyTouched(m, m1, n, ps) && n in m && child in m && child != n && n !in ps && child !in ps
    requires forall p :: p in m1 ==> m1[p].tok == m[p].tok
    ensures OnlyTouched(m, Behind(m1, n, child, sue), n, ps + multiset{child})
    ensures ToksKept(m, Behind(m1, n, child, sue), multiset{child})
  {
  }

  lemma {:induction false} BehindLabels(s: State, m1: Memory, n: Ptr, K: seq<Decl>, child: Ptr, R: seq<Decl>,
                                        A: seq<Decl>, end: Ptr,
                     H: seq<Decl>, sue: Text)
    requires Sweeping(s, n, K, child, R, A, end, H) && R != [] && child in s.mem
    requires n in m1 && child in m1 && OnlyTouched(s.mem, m1, n, Bag(K))
    requires forall p :: p in m1 ==> m1[p].tok == s.mem[p].tok
    ensures var m := Behind(m1, n, child, sue);
            Labelled(m, K) && Labelled(m, Rest(R)) && Labelled(m, [R[0].(name := Prefixed(sue, R[0].name))] + A)
            && Labelled(m, H)
  {
    var m, d := Behind(m1, n, child, sue), R[0].(name := Prefixed(sue, R[0].name));
    Head(s, n, K, child, R, A, end, H);
    LabelledParts(s.mem, K, R);
    forall p | p in s.mem && p != child ensures p in m && m[p].kind == s.mem[p].kind && m[p].tok == s.mem[p].tok {
      if p in Bag(K) { assert Touched(s.mem[p], m1[p]); }
    }
    forall i | 0 <= i < |K| ensures K[i].sh.p != child { assert Ptrs(K)[i] in Ptrs(K); }
    forall i | 0 <= i < |Rest(R)| ensures Rest(R)[i].sh.p != child { assert Ptrs(Rest(R))[i] in Ptrs(Rest(R)); }
    forall i | 0 <= i < |A| ensures A[i].sh.p != child { assert Ptrs(A)[i] in Ptrs(A); }
    forall i | 0 <= i < |H| ensures H[i].sh.p != child { assert Ptrs(H)[i] in Ptrs(H); }
    LabelledKept(s.mem, m, H);
    LabelledKept(s.mem, m, K);
    LabelledKept(s.mem, m, Rest(R));
    LabelledKept(s.mem, m, A);
    assert child !in Ptrs(K);
    LabelledCons(m, d, A);
  }

  lemma {:induction false} LabelledCons(mem: Memory, d: Decl, ds: seq<Decl>)
    requires Labelled(mem, ds) && d.sh.p in mem && mem[d.sh.p].kind == d.kind && mem[d.sh.p].tok.text == d.name
    ensures Labelled(mem, [d] + ds)
  {
    forall i | 0 <= i < |ds| + 1
      ensures var e := ([d] + ds)[i]; e.sh.p in mem && mem[e.sh.p].kind == e.kind && mem[e.sh.p].tok.text == e.name
    {
      if i > 0 { assert ([d] + ds)[i] == ds[i - 1]; }
    }
  }

  /** Neither the type nor the last child kept is in the other lists. */
  lemma {:induction false} OthersApart(n: Ptr, K: seq<Decl>, R: seq<Decl>, A: seq<Decl>, H: seq<Decl>)
    requires Once(n, Bag(K) + Bag(R) + Bag(A) + Bag(H)) && R != []
    ensures forall x :: x in Ptrs(Rest(R)) || x in Ptrs(A) || x in Ptrs(H) ==> x != n && x != LastPtr(K)
  {
    var t, all := LastPtr(K), Bag(K) + Bag(R) + Bag(A) + Bag(H);
    FirstBag(R);
    if K != [] { assert Ptrs(K)[|K| - 1] == t; }
    forall x | x in Ptrs(Rest(R)) || x in Ptrs(A) || x in Ptrs(H) ensures x != n && x != t {
      assert all[x] == Bag(K)[x] + (multiset{R[0].sh.p}[x] + Bag(Rest(R))[x]) + Bag(A)[x] + Bag(H)[x];
    }
  }

  /** None of these nodes is touched when `child` leaves the list after `prev`. */
  predicate Clear(ps: seq<Ptr>, n: Ptr, prev: Ptr, child: Ptr) {
    forall x :: x in ps ==> x != n && x != prev && x != child
  }

  /** The lists of the loop as addresses: kept, remaining, behind the type, hoisted. */
  datatype Segs = Segs(ks: seq<Ptr>, next: Ptr, rs: seq<Ptr>, ms: seq<Ptr>, end: Ptr, head: Ptr, hs: seq<Ptr>)

  /** The first remaining child has been unlinked. */
  ghost predicate Parted(mem: Memory, m1: Memory, n: Ptr, prev: Ptr, child: Ptr, g: Segs) {
    && n in mem && child in mem && n != child && mem[n].kids != [] && (prev == NULL || prev in mem) && n != prev
    && m1 == SetLink(mem, n, prev, g.next) && Seg(m1, Kid(m1[n], 0), g.ks, g.next) && Clear(g.ks, n, NULL, child)
    && Seg(mem, g.next, g.rs, NULL) && Seg(mem, mem[n].next, g.ms, g.end) && Seg(mem, g.head, g.hs, NULL)
    && Clear(g.rs, n, prev, child) && Clear(g.ms, n, prev, child) && Clear(g.hs, n, prev, child)
  }

  lemma {:induction false} BehindLinks(mem: Memory, m1: Memory, n: Ptr, prev: Ptr, child: Ptr, g: Segs, sue: Text)
    requires Parted(mem, m1, n, prev, child, g) && n != NULL && child != NULL
    ensures var m := Behind(m1, n, child, sue);
            && Seg(m, Kid(m[n], 0), g.ks, g.next) && Seg(m, g.next, g.rs, NULL)
            && Seg(m, m[n].next, [child] + g.ms, g.end) && Seg(m, g.head, g.hs, NULL)
  {
    var m := Behind(m1, n, child, sue);
    SegKept(m1, m, Kid(m1[n], 0), g.ks, g.next);
    SegKept(mem, m, g.next, g.rs, NULL);
    SegKept(mem, m, mem[n].next, g.ms, g.end);
    SegKept(mem, m, g.head, g.hs, NULL);
    assert ([child] + g.ms)[1..] == g.ms;
  }

  ghost function SegsOf(s: State, K: seq<Decl>, child: Ptr, R: seq<Decl>, A: seq<Decl>, end: Ptr, H: seq<Decl>): Segs
    requires child in s.mem && R != []
  {
    Segs(Ptrs(K), s.mem[child].next, Ptrs(Rest(R)), Ptrs(A), end, s.head, Ptrs(H))
  }

  lemma {:induction false} ChildParted(s: State, m1: Memory, n: Ptr, K: seq<Decl>, child: Ptr, R: seq<Decl>,
                                       A: seq<Decl>, end: Ptr, H: seq<Decl>)
    requires Sweeping(s, n, K, child, R, A, end, H) && R != [] && child in s.mem && s.mem[n].kids != []
    requires LastPtr(K) == NULL || LastPtr(K) in s.mem
    requires m1 == SetLink(s.mem, n, LastPtr(K), s.mem[child].next)
    requires Seg(m1, Kid(m1[n], 0), Ptrs(K), s.mem[child].next)
    ensures Parted(s.mem, m1, n, LastPtr(K), child, SegsOf(s, K, child, R, A, end, H))
  {
    Head(s, n, K, child, R, A, end, H);
    OthersApart(n, K, R, A, H);
    forall x | x in Ptrs(K) ensures x != NULL && x != n { BagsApart(K, R, A, H, n, x); }
    if K != [] { assert Ptrs(K)[|K| - 1] == LastPtr(K); }
  }

  /** Unlinking the first remaining child from the contents. */
  lemma {:induction false} Unlinked(s: State, n: Ptr, K: seq<Decl>, child: Ptr, R: seq<Decl>, A: seq<Decl>, end: Ptr,
                                    H: seq<Decl>)
    requires Sweeping(s, n, K, child, R, A, end, H) && R != []
    ensures child in s.mem && s.mem[n].kids != [] && (LastPtr(K) == NULL || LastPtr(K) in s.mem)
    ensures var m := SetLink(s.mem, n, LastPtr(K), s.mem[child].next);
            Redirected(s.mem, m, n, Ptrs(K), s.mem[child].next)
  {
    Head(s, n, K, child, R, A, end, H);
    if K == [] {
      assert Ptrs(K) == [] && LastPtr(K) == NULL;
      LinkEmptied(s.mem, n, s.mem[child].next);
    } else {
      LastKept(s, n, K, child, R, A, end, H);
      LinkTurned(s.mem, n, Ptrs(K), LastPtr(K), child, s.mem[child].next);
    }
  }

  /** The contents `ps` now end in `p`. */
  ghost predicate Redirected(mem: Memory, m: Memory, n: Ptr, ps: seq<Ptr>, p: Ptr) {
    && n in mem && n in m && OnlyTouched(mem, m, n, multiset(ps)) && m[n].next == mem[n].next
    && Seg(m, Kid(m[n], 0), ps, p) && forall q :: q in m ==> q in mem && m[q].tok == mem[q].tok
  }

  lemma {:induction false} LinkEmptied(mem: Memory, n: Ptr, p: Ptr)
    requires n in mem && mem[n].kids != []
    ensures Redirected(mem, SetLink(mem, n, NULL, p), n, [], p)
  {
  }

  lemma {:induction false} LinkTurned(mem: Memory, n: Ptr, ps: seq<Ptr>, prev: Ptr, end: Ptr, p: Ptr)
    requires n in mem && mem[n].kids != [] && ps != [] && n !in ps && NULL !in ps && prev == ps[|ps| - 1] && prev in mem
    requires Seg(mem, Kid(mem[n], 0), ps, end) && NoDup(ps)
    ensures Redirected(mem, SetLink(mem, n, prev, p), n, ps, p)
  {
    SegTurned(mem, SetLink(mem, n, prev, p), Kid(mem[n], 0), ps, end, p);
  }

  lemma {:induction false} LastKept(s: State, n: Ptr, K: seq<Decl>, child: Ptr, R: seq<Decl>, A: seq<Decl>, end: Ptr,
                                    H: seq<Decl>)
    requires Sweeping(s, n, K, child, R, A, end, H) && K != []
    ensures LastPtr(K) in Bag(K) && LastPtr(K) == Ptrs(K)[|K| - 1] && LastPtr(K) != n && LastPtr(K) != NULL
    ensures LastPtr(K) in s.mem && NoDup(Ptrs(K)) && n !in Ptrs(K) && NULL !in Ptrs(K)
  {
    assert Ptrs(K)[|K| - 1] == LastPtr(K);
    BagsApart(K, R, A, H, n, LastPtr(K));
    assert K[|K| - 1].sh.p in s.mem;
    assert Bag(K) + Bag(R) + Bag(A) + Bag(H) == Bag(K) + (Bag(R) + Bag(A) + Bag(H));
    KeptOnce(n, K, Bag(R) + Bag(A) + Bag(H));
  }

  lemma {:induction false} KeptOnce(n: Ptr, K: seq<Decl>, rest: multiset<Ptr>)
    requires Once(n, Bag(K) + rest)
    ensures NoDup(Ptrs(K)) && n !in Ptrs(K) && NULL !in Ptrs(K)
  {
    forall p ensures multiset(Ptrs(K))[p] <= 1 { assert (Bag(K) + rest)[p] >= Bag(K)[p]; }
    BagNoDup(Ptrs(K));
    assert n !in Bag(K) + rest && NULL !in Bag(K) + rest;
  }

  lemma {:induction false} InRest(R: seq<Decl>, x: Ptr)
    requires R != [] && x in Ptrs(Rest(R))
    ensures x in Ptrs(R)
  {
    var i :| 0 <= i < |Rest(R)| && Ptrs(Rest(R))[i] == x;
    assert Ptrs(R)[i + 1] == x;
  }

  lemma {:induction false} HoistBags(K: seq<Decl>, R: seq<Decl>, A: seq<Decl>, H: seq<Decl>)
    requires R != []
    ensures Bag(K) + Bag(Rest(R)) + Bag(A) + Bag(H + [R[0]]) == Bag(K) + Bag(R) + Bag(A) + Bag(H)
  {
    FirstBag(R);
    PtrsConcat(H, [R[0]]);
    assert Ptrs([R[0]]) == [R[0].sh.p];
  }

  /** A nested type goes to the end of the hoisted list. */
  lemma {:induction false} StepHoist(s: State, n: Ptr, K: seq<Decl>, child: Ptr, R: seq<Decl>, A: seq<Decl>, end: Ptr,
                                     H: seq<Decl>)
    requires Sweeping(s, n, K, child, R, A, end, H) && R != []
    ensures child in s.mem && s.mem[n].kids != [] && (LastPtr(K) == NULL || LastPtr(K) in s.mem)
    ensures s.head != NULL ==> s.tail in s.mem
    ensures var s' := Hoist(s.(mem := SetLink(s.mem, n, LastPtr(K), s.mem[child].next)), child);
            && Sweeping(s', n, K, s.mem[child].next, Rest(R), A, end, H + [R[0]])
            && OnlyTouched(s.mem, s'.mem, n, Bag(K) + Bag(R) + LastBag(H)) && ToksKept(s.mem, s'.mem, Bag(R))
            && Bag(K) + Bag(Rest(R)) + Bag(A) + Bag(H + [R[0]]) == Bag(K) + Bag(R) + Bag(A) + Bag(H)
  {
    Unlinked(s, n, K, child, R, A, end, H);
    Head(s, n, K, child, R, A, end, H);
    TailInside(s, n, K, R, A, H);
    var m1 := SetLink(s.mem, n, LastPtr(K), s.mem[child].next);
    HoistBags(K, R, A, H);
    HoistSegs(s, m1, n, K, child, R, A, end, H);
    HoistLabels(s, m1, n, K, child, R, A, end, H);
    HoistApart(s, n, K, child, R, A, end, H);
    HoistTouches(s, m1, n, Bag(K), child, Bag(R), LastBag(H));
  }

  lemma {:induction false} HoistSegs(s: State, m1: Memory, n: Ptr, K: seq<Decl>, child: Ptr, R: seq<Decl>,
                                     A: seq<Decl>, end: Ptr, H: seq<Decl>)
    requires Sweeping(s, n, K, child, R, A, end, H) && R != [] && child in s.mem && s.mem[n].kids != []
    requires LastPtr(K) == NULL || LastPtr(K) in s.mem
    requires m1 == SetLink(s.mem, n, LastPtr(K), s.mem[child].next)
    requires Seg(m1, Kid(m1[n], 0), Ptrs(K), s.mem[child].next)
    ensures s.head != NULL ==> s.tail in s.mem
    ensures var s' := Hoist(s.(mem := m1), child);
            && Seg(s'.mem, Kid(s'.mem[n], 0), Ptrs(K), s.mem[child].next)
            && Seg(s'.mem, s.mem[child].next, Ptrs(Rest(R)), NULL)
            && Seg(s'.mem, s'.mem[n].next, Ptrs(A), end) && HoistChain(s', H + [R[0]])
  {
    Head(s, n, K, child, R, A, end, H);
    TailInside(s, n, K, R, A, H);
    ChildParted(s, m1, n, K, child, R, A, end, H);
    forall x | x in Ptrs(Rest(R)) ensures x in Ptrs(R) { InRest(R, x); }
    HoistLinks(s, m1, n, LastPtr(K), child, SegsOf(s, K, child, R, A, end, H));
    HoistedGrows(s, m1, child, H, R[0]);
  }

  /** The nodes that hoisting the first remaining child can touch. */
  lemma {:induction false} HoistApart(s: State, n: Ptr, K: seq<Decl>, child: Ptr, R: seq<Decl>, A: seq<Decl>,
                                      end: Ptr, H: seq<Decl>)
    requires Sweeping(s, n, K, child, R, A, end, H) && R != []
    ensures n !in Bag(K) && n !in Bag(R) && n !in LastBag(H) && child in Bag(R) && child !in Bag(K) && child != n
    ensures s.head != NULL ==>
              s.tail in s.mem && s.tail in LastBag(H) && s.tail != n && s.tail != child && s.tail !in Bag(K)
  {
    Head(s, n, K, child, R, A, end, H);
    TailInside(s, n, K, R, A, H);
    var all := Bag(K) + Bag(R) + Bag(A) + Bag(H);
    assert all[n] == 0 && all[n] == Bag(K)[n] + Bag(R)[n] + Bag(A)[n] + Bag(H)[n];
    assert child !in Ptrs(K);
    if H != [] { assert Ptrs(H)[|H| - 1] == LastPtr(H); }
  }

  /** The last hoisted type is in no other list. */
  lemma {:induction false} TailInside(s: State, n: Ptr, K: seq<Decl>, R: seq<Decl>, A: seq<Decl>, H: seq<Decl>)
    requires HoistedIs(s, H) && Once(n, Bag(K) + Bag(R) + Bag(A) + Bag(H))
    ensures s.head != NULL ==> s.tail in Ptrs(H) && s.tail in s.mem && s.tail != n && NoDup(Ptrs(H))
    ensures s.head != NULL ==> s.tail !in Ptrs(K) && s.tail !in Ptrs(R) && s.tail !in Ptrs(A)
  {
    if H != [] {
      assert Ptrs(H)[|H| - 1] == s.tail;
      var all := Bag(K) + Bag(R) + Bag(A) + Bag(H);
      assert all == Bag(H) + Bag(K) + Bag(R) + Bag(A);
      BagsApart(H, K, R, A, n, s.tail);
      forall p ensures multiset(Ptrs(H))[p] <= 1 { assert all[p] >= Bag(H)[p]; }
      BagNoDup(Ptrs(H));
      SegInside(s.mem, s.head, Ptrs(H), NULL, |H| - 1);
    }
  }

  lemma {:induction false} SegInside(mem: Memory, p: Ptr, ps: seq<Ptr>, end: Ptr, i: nat)
    requires Seg(mem, p, ps, end) && i < |ps|
    ensures ps[i] in mem && ps[i] != NULL
    decreases i
  {
    if i > 0 { SegInside(mem, mem[p].next, ps[1..], end, i - 1); }
  }

  lemma {:induction false} HoistLinks(s: State, m1: Memory, n: Ptr, prev: Ptr, child: Ptr, g: Segs)
    requires Parted(s.mem, m1, n, prev, child, g) && n != NULL && child != NULL
    requires s.head != NULL ==> s.tail in s.mem && s.tail != n && s.tail !in g.ks && s.tail !in g.rs && s.tail !in g.ms
    ensures var s' := Hoist(s.(mem := m1), child);
            && Seg(s'.mem, Kid(s'.mem[n], 0), g.ks, g.next) && Seg(s'.mem, g.next, g.rs, NULL)
            && Seg(s'.mem, s'.mem[n].next, g.ms, g.end)
  {
    var s' := Hoist(s.(mem := m1), child);
    SegKept(m1, s'.mem, Kid(m1[n], 0), g.ks, g.next);
    SegKept(s.mem, s'.mem, g.next, g.rs, NULL);
    SegKept(s.mem, s'.mem, s.mem[n].next, g.ms, g.end);
  }

  lemma {:induction false} HoistedGrows(s: State, m1: Memory, child: Ptr, H: seq<Decl>, d: Decl)
    requires HoistChain(s, H) && child in m1 && child != NULL && d.sh.p == child && child !in Ptrs(H) && NoDup(Ptrs(H))
    requires s.head != NULL ==> s.tail in m1
    requires forall x :: x in Ptrs(H) && x in s.mem ==> x in m1 && m1[x].next == s.mem[x].next
    ensures HoistChain(Hoist(s.(mem := m1), child), H + [d])
  {
    var s' := Hoist(s.(mem := m1), child);
    PtrsConcat(H, [d]);
    assert Ptrs([d]) == [child];
    assert Seg(s'.mem, child, [child], NULL) by { assert [child][1..] == []; }
    if H == [] {
      assert Ptrs(H) + [child] == [child];
    } else {
      assert Ptrs(H)[|H| - 1] == s.tail;
      SegTurned(s.mem, s'.mem, s.head, Ptrs(H), NULL, child);
      SegJoin(s'.mem, s.head, Ptrs(H), child, [child], NULL);
    }
  }

  lemma {:induction false} HoistLabels(s: State, m1: Memory, n: Ptr, K: seq<Decl>, child: Ptr, R: seq<Decl>,
                                       A: seq<Decl>, end: Ptr, H: seq<Decl>)
    requires Sweeping(s, n, K, child, R, A, end, H) && R != [] && child in s.mem && (s.head != NULL ==> s.tail in s.mem)
    requires OnlyTouched(s.mem, m1, n, Bag(K)) && forall p :: p in m1 ==> m1[p].tok == s.mem[p].tok
    ensures var m := Hoist(s.(mem := m1), child).mem;
            Labelled(m, K) && Labelled(m, Rest(R)) && Labelled(m, A) && Labelled(m, H + [R[0]])
  {
    var m := Hoist(s.(mem := m1), child).mem;
    LabelledParts(s.mem, K, R);
    forall p | p in s.mem ensures p in m && m[p].kind == s.mem[p].kind && m[p].tok == s.mem[p].tok {
      if p in Bag(K) { assert Touched(s.mem[p], m1[p]); }
    }
    LabelledKept(s.mem, m, K);
    LabelledKept(s.mem, m, Rest(R));
    LabelledKept(s.mem, m, A);
    LabelledParts(s.mem, H, R);
    LabelledKept(s.mem, m, H + [R[0]]);
  }

  lemma {:induction false} HoistTouches(s: State, m1: Memory, n: Ptr, ps: multiset<Ptr>, child: Ptr,
                                        rs: multiset<Ptr>, hs: multiset<Ptr>)
    requires OnlyTouched(s.mem, m1, n, ps) && n in s.mem && child in s.mem && child != n && n !in ps && child in rs
    requires s.head != NULL ==> s.tail in s.mem && s.tail in hs && s.tail != n && s.tail != child && s.tail !in ps
    requires child !in ps && n !in rs && n !in hs && forall p :: p in m1 ==> m1[p].tok == s.mem[p].tok
    ensures OnlyTouched(s.mem, Hoist(s.(mem := m1), child).mem, n, ps + rs + hs)
    ensures ToksKept(s.mem, Hoist(s.(mem := m1), child).mem, rs)
  {
    var m := Hoist(s.(mem := m1), child).mem;
    forall p | p in s.mem && p in ps + rs + hs && p != n ensures Touched(s.mem[p], m[p]) {
      if p in ps { assert Touched(s.mem[p], m1[p]); } else { assert m1[p] == s.mem[p]; }
    }
  }

  lemma {:induction false} OnlyTouchedMore(a: Memory, b: Memory, n: Ptr, ps: multiset<Ptr>, qs: multiset<Ptr>)
    requires OnlyTouched(a, b, n, ps) && n !in qs && forall p :: p in ps ==> p in qs
    ensures OnlyTouched(a, b, n, qs)
  {
    forall p | p in a && p in qs ensures Touched(a[p], b[p]) {
      if p !in ps { assert b[p] == a[p]; }
    }
  }

  /** What one turn of the loop leaves to do, and that it does not change the outcome. */
  ghost predicate Turn(R: seq<Decl>, sue: Text, K: seq<Decl>, A: seq<Decl>, H: seq<Decl>, K1: seq<Decl>, A1: seq<Decl>,
                       H1: seq<Decl>)
    requires R != []
  {
    && K1 + Keep(Rest(R)) == K + Keep(R) && Methods(sue, Rest(R)) + A1 == Methods(sue, R) + A
    && H1 + Sues(Rest(R)) == H + Sues(R)
  }

  lemma {:induction false} Empty(a: seq<Decl>)
    ensures a + [] == a && [] + a == a
  {
  }

  lemma {:induction false} MethodTurn(R: seq<Decl>, sue: Text, K: seq<Decl>, A: seq<Decl>, H: seq<Decl>)
    requires R != [] && R[0].kind.FUNC?
    ensures Turn(R, sue, K, A, H, K, [R[0].(name := Prefixed(sue, R[0].name))] + A, H)
  {
    Assoc(Methods(sue, Rest(R)), [R[0].(name := Prefixed(sue, R[0].name))], A);
    Empty(Keep(Rest(R)));
    Empty(Sues(Rest(R)));
  }

  lemma {:induction false} HoistTurn(R: seq<Decl>, sue: Text, K: seq<Decl>, A: seq<Decl>, H: seq<Decl>)
    requires R != [] && IsSue(R[0].kind)
    ensures Turn(R, sue, K, A, H, K, A, H + [R[0]])
  {
    Assoc(H, [R[0]], Sues(Rest(R)));
    Empty(Keep(Rest(R)));
    Empty(Methods(sue, Rest(R)));
  }

  lemma {:induction false} KeepTurn(R: seq<Decl>, sue: Text, K: seq<Decl>, A: seq<Decl>, H: seq<Decl>)
    requires R != [] && !R[0].kind.FUNC? && !IsSue(R[0].kind)
    ensures Turn(R, sue, K, A, H, K + [R[0]], A, H)
  {
    Assoc(K, [R[0]], Keep(Rest(R)));
    Empty(Sues(Rest(R)));
    Empty(Methods(sue, Rest(R)));
  }

  /** The bags of one turn stay within those before it. */
  lemma {:induction false} BagsTurn(R: seq<Decl>, K: seq<Decl>, H: seq<Decl>)
    requires R != []
    ensures Inside(K, Rest(R), H, K, R, H) && Inside(K, Rest(R), H + [R[0]], K, R, H)
    ensures Inside(K + [R[0]], Rest(R), H, K, R, H)
  {
    assert R == [R[0]] + Rest(R);
    PtrsConcat([R[0]], Rest(R));
    PtrsConcat(K, [R[0]]);
    assert Ptrs([R[0]]) == [R[0].sh.p];
  }

  /** One turn of the loop, from state `s` with the next child `child`. */
  ghost predicate TurnTo(s: State, n: Ptr, prev: Ptr, child: Ptr, sue: Text, s1: State, prev1: Ptr, next: Ptr) {
    && child != NULL && child in s.mem && n in s.mem && s.mem[n].kids != []
    && (prev == NULL || prev in s.mem) && (s.head != NULL ==> s.tail in s.mem) && next == s.mem[child].next
    && if s.mem[child].kind.FUNC? then
         prev1 == prev && s1 == s.(mem := Behind(SetLink(s.mem, n, prev, next), n, child, sue))
       else if IsSue(s.mem[child].kind) then
         prev1 == prev && s1 == Hoist(s.(mem := SetLink(s.mem, n, prev, next)), child)
       else prev1 == child && s1 == s
  }

  /** `f` runs the loop: it stops at NULL, and a turn does not change what it returns. */
  ghost predicate Loops(f: (State, Ptr, Ptr, nat) -> State, n: Ptr, sue: Text) {
    && (forall s, prev, fuel: nat :: f(s, prev, NULL, fuel) == s)
    && forall s, prev, child, s1, prev1, next, fuel: nat
         {:trigger TurnTo(s, n, prev, child, sue, s1, prev1, next), f(s, prev, child, fuel)} ::
         fuel > 0 && TurnTo(s, n, prev, child, sue, s1, prev1, next) ==>
           f(s, prev, child, fuel) == f(s1, prev1, next, fuel - 1)
  }

  function Looping(n: Ptr, sue: Text): (State, Ptr, Ptr, nat) -> State {
    (s: State, prev: Ptr, child: Ptr, fuel: nat) => Sweep(s, n, prev, child, sue, fuel)
  }

  lemma {:induction false} SweepLoops(n: Ptr, sue: Text)
    ensures Loops(Looping(n, sue), n, sue)
  {
  }

  /** What can be touched later could be touched before. */
  ghost predicate Inside(K1: seq<Decl>, R1: seq<Decl>, H1: seq<Decl>, K: seq<Decl>, R: seq<Decl>, H: seq<Decl>) {
    && (forall p :: p in Bag(K1) + Bag(R1) + LastBag(H1) ==> p in Bag(K) + Bag(R) + LastBag(H))
    && forall p :: p in Bag(R1) ==> p in Bag(R)
  }

  ghost predicate Touching(s: State, s': State, n: Ptr, K: seq<Decl>, R: seq<Decl>, H: seq<Decl>) {
    && s'.sues == s.sues && OnlyTouched(s.mem, s'.mem, n, Bag(K) + Bag(R) + LastBag(H))
    && ToksKept(s.mem, s'.mem, Bag(R))
  }

  /** The lists of the loop as it runs. */
  datatype Lists = Lists(K: seq<Decl>, child: Ptr, R: seq<Decl>, A: seq<Decl>, H: seq<Decl>)

  /** All that one turn of the loop does. */
  ghost predicate Turned(s: State, n: Ptr, l: Lists, end: Ptr, sue: Text, s1: State, m: Lists)
    requires l.R != []
  {
    && TurnTo(s, n, LastPtr(l.K), l.child, sue, s1, LastPtr(m.K), m.child)
    && m.R == Rest(l.R) && Sweeping(s1, n, m.K, m.child, m.R, m.A, end, m.H)
    && Turn(l.R, sue, l.K, l.A, l.H, m.K, m.A, m.H)
    && Inside(m.K, m.R, m.H, l.K, l.R, l.H) && Touching(s, s1, n, l.K, l.R, l.H)
  }

  lemma {:induction false} SweepTurn(s: State, n: Ptr, l: Lists, end: Ptr, sue: Text) returns (s1: State, m: Lists)
    requires Sweeping(s, n, l.K, l.child, l.R, l.A, end, l.H) && l.R != []
    ensures Turned(s, n, l, end, sue, s1, m)
  {
    if l.R[0].kind.FUNC? {
      s1, m := MethodGoes(s, n, l, end, sue);
    } else if IsSue(l.R[0].kind) {
      s1, m := HoistGoes(s, n, l, end, sue);
    } else {
      s1 := s;
      m := KeepGoes(s, n, l, end, sue);
    }
  }

  lemma {:induction false} NotTouched(s: State, n: Ptr, K: seq<Decl>, R: seq<Decl>, A: seq<Decl>, H: seq<Decl>)
    requires Once(n, Bag(K) + Bag(R) + Bag(A) + Bag(H))
    ensures n !in Bag(K) + Bag(R) + LastBag(H)
  {
    if H != [] { assert Ptrs(H)[|H| - 1] in Ptrs(H); }
    assert n !in Bag(K) + Bag(R) + Bag(A) + Bag(H);
  }

  lemma {:induction false} MethodGoes(s: State, n: Ptr, l: Lists, end: Ptr, sue: Text) returns (s1: State, m: Lists)
    requires Sweeping(s, n, l.K, l.child, l.R, l.A, end, l.H) && l.R != [] && l.R[0].kind.FUNC?
    ensures Turned(s, n, l, end, sue, s1, m)
  {
    Head(s, n, l.K, l.child, l.R, l.A, end, l.H);
    BagsTurn(l.R, l.K, l.H);
    StepMethod(s, n, l.K, l.child, l.R, l.A, end, l.H, sue);
    TailInside(s, n, l.K, l.R, l.A, l.H);
    var next := s.mem[l.child].next;
    s1 := s.(mem := Behind(SetLink(s.mem, n, LastPtr(l.K), next), n, l.child, sue));
    m := Lists(l.K, next, Rest(l.R), [l.R[0].(name := Prefixed(sue, l.R[0].name))] + l.A, l.H);
    NotTouched(s, n, l.K, l.R, l.A, l.H);
    OnlyTouchedMore(s.mem, s1.mem, n, Bag(l.K) + Bag(l.R), Bag(l.K) + Bag(l.R) + LastBag(l.H));
    MethodTurn(l.R, sue, l.K, l.A, l.H);
  }

  lemma {:induction false} HoistGoes(s: State, n: Ptr, l: Lists, end: Ptr, sue: Text) returns (s1: State, m: Lists)
    requires Sweeping(s, n, l.K, l.child, l.R, l.A, end, l.H) && l.R != [] && IsSue(l.R[0].kind)
    ensures Turned(s, n, l, end, sue, s1, m)
  {
    Head(s, n, l.K, l.child, l.R, l.A, end, l.H);
    BagsTurn(l.R, l.K, l.H);
    StepHoist(s, n, l.K, l.child, l.R, l.A, end, l.H);
    var next := s.mem[l.child].next;
    s1 := Hoist(s.(mem := SetLink(s.mem, n, LastPtr(l.K), next)), l.child);
    m := Lists(l.K, next, Rest(l.R), l.A, l.H + [l.R[0]]);
    HoistTurn(l.R, sue, l.K, l.A, l.H);
  }

  lemma {:induction false} KeepGoes(s: State, n: Ptr, l: Lists, end: Ptr, sue: Text) returns (m: Lists)
    requires Sweeping(s, n, l.K, l.child, l.R, l.A, end, l.H) && l.R != [] && !l.R[0].kind.FUNC? && !IsSue(l.R[0].kind)
    ensures Turned(s, n, l, end, sue, s, m)
  {
    Head(s, n, l.K, l.child, l.R, l.A, end, l.H);
    BagsTurn(l.R, l.K, l.H);
    TailInside(s, n, l.K, l.R, l.A, l.H);
    if l.K != [] { SegInside(s.mem, Kid(s.mem[n], 0), Ptrs(l.K), l.child, |l.K| - 1); }
    StepKeep(s, n, l.K, l.child, l.R, l.A, end, l.H);
    m := Lists(l.K + [l.R[0]], s.mem[l.child].next, Rest(l.R), l.A, l.H);
    KeepTurn(l.R, sue, l.K, l.A, l.H);
    TouchingNothing(s, n, l.K, l.R, l.H);
  }

  ghost predicate Ends(f: (State, Ptr, Ptr, nat) -> State, s: State, prev: Ptr, child: Ptr, fuel: nat, s': State) {
    f(s, prev, child, fuel) == s'
  }

  lemma {:induction false} LoopStep(f: (State, Ptr, Ptr, nat) -> State, n: Ptr, sue: Text, s: State, prev: Ptr,
                                    child: Ptr, s1: State,
                 prev1: Ptr, next: Ptr, fuel: nat, fuel': nat, goal: State)
    requires Loops(f, n, sue) && TurnTo(s, n, prev, child, sue, s1, prev1, next) && fuel == fuel' + 1
    requires Ends(f, s, prev, child, fuel, goal)
    ensures Ends(f, s1, prev1, next, fuel', goal)
  {
    assert f(s, prev, child, fuel) == f(s1, prev1, next, fuel - 1);
  }

  lemma {:induction false} LoopStops(f: (State, Ptr, Ptr, nat) -> State, n: Ptr, sue: Text, s: State, prev: Ptr,
                                     fuel: nat, goal: State)
    requires Loops(f, n, sue) && Ends(f, s, prev, NULL, fuel, goal)
    ensures s == goal
  {
  }

  /** In state `s1` with lists `l` the loop is still to end as it will from `s` with `R` and
      `H`. */
  ghost predicate OnTheWay(f: (State, Ptr, Ptr, nat) -> State, s: State, n: Ptr, R: seq<Decl>, end: Ptr, H: seq<Decl>,
                           sue: Text, goal: State, s1: State, l: Lists, left: nat) {
    && |l.R| <= left && Ends(f, s1, LastPtr(l.K), l.child, left, goal)
    && Sweeping(s1, n, l.K, l.child, l.R, l.A, end, l.H)
    && l.K + Keep(l.R) == Keep(R) && Methods(sue, l.R) + l.A == Methods(sue, R) && l.H + Sues(l.R) == H + Sues(R)
    && Inside(l.K, l.R, l.H, [], R, H) && Touching(s, s1, n, [], R, H)
  }

  lemma {:induction false} LoopTurn(f: (State, Ptr, Ptr, nat) -> State, s: State, n: Ptr, R: seq<Decl>, end: Ptr,
                                    H: seq<Decl>,
                 sue: Text, goal: State, s1: State, l: Lists, left: nat, left': nat)
    returns (s2: State, m: Lists)
    requires Loops(f, n, sue) && n !in Bag([]) + Bag(R) + LastBag(H)
    requires OnTheWay(f, s, n, R, end, H, sue, goal, s1, l, left) && l.R != [] && left == left' + 1
    ensures OnTheWay(f, s, n, R, end, H, sue, goal, s2, m, left') && m.R == Rest(l.R)
  {
    s2, m := SweepTurn(s1, n, l, end, sue);
    LoopStep(f, n, sue, s1, LastPtr(l.K), l.child, s2, LastPtr(m.K), m.child, left, left', goal);
    TouchingBoth(s, s1, s2, n, [], R, H, l.K, l.R, l.H);
    InsideBoth(m.K, m.R, m.H, l.K, l.R, l.H, R, H);
  }

  /** All children: the methods end up behind the type, the last one first, the nested types
      at the end of the hoisted list, and the rest stays; nothing else is touched. */
  lemma {:induction false} SweepSplices(f: (State, Ptr, Ptr, nat) -> State, s: State, n: Ptr, child: Ptr,
                                        R: seq<Decl>, end: Ptr,
                     H: seq<Decl>, sue: Text, fuel: nat)
    returns (s': State)
    requires Loops(f, n, sue) && Sweeping(s, n, [], child, R, [], end, H) && |R| <= fuel
    ensures s' == f(s, NULL, child, fuel) && Touching(s, s', n, [], R, H)
    ensures Sweeping(s', n, Keep(R), NULL, [], Methods(sue, R), end, H + Sues(R))
  {
    NotTouched(s, n, [], R, [], H);
    var l, left, goal := Lists([], child, R, [], H), fuel, f(s, NULL, child, fuel);
    s' := s;
    LoopStart(f, s, n, child, R, end, H, sue, fuel);
    while l.R != []
      invariant OnTheWay(f, s, n, R, end, H, sue, goal, s', l, left)
      decreases |l.R|
    {
      var left': nat := left - 1;
      s', l := LoopTurn(f, s, n, R, end, H, sue, goal, s', l, left, left');
      left := left';
    }
    LoopEnd(f, s, n, R, end, H, sue, goal, s', l, left);
  }

  lemma {:induction false} LoopStart(f: (State, Ptr, Ptr, nat) -> State, s: State, n: Ptr, child: Ptr, R: seq<Decl>,
                                     end: Ptr,
                  H: seq<Decl>, sue: Text, fuel: nat)
    requires Sweeping(s, n, [], child, R, [], end, H) && |R| <= fuel
    ensures OnTheWay(f, s, n, R, end, H, sue, f(s, NULL, child, fuel), s, Lists([], child, R, [], H), fuel)
  {
    TouchingNothing(s, n, [], R, H);
    Empty(Keep(R));
    Empty(Methods(sue, R));
  }

  lemma {:induction false} LoopEnd(f: (State, Ptr, Ptr, nat) -> State, s: State, n: Ptr, R: seq<Decl>, end: Ptr,
                                   H: seq<Decl>, sue: Text,
                goal: State, s': State, l: Lists, left: nat)
    requires Loops(f, n, sue) && OnTheWay(f, s, n, R, end, H, sue, goal, s', l, left) && l.R == []
    ensures s' == goal && Touching(s, s', n, [], R, H)
    ensures Sweeping(s', n, Keep(R), NULL, [], Methods(sue, R), end, H + Sues(R))
  {
    Empty(l.K);
    Empty(l.A);
    Empty(l.H);
    assert l.child == NULL;
    LoopStops(f, n, sue, s', LastPtr(l.K), left, goal);
  }

  lemma {:induction false} TouchingNothing(s: State, n: Ptr, K: seq<Decl>, R: seq<Decl>, H: seq<Decl>)
    ensures Touching(s, s, n, K, R, H) && Inside(K, R, H, K, R, H)
  {
  }

  lemma {:induction false} InsideBoth(K2: seq<Decl>, R2: seq<Decl>, H2: seq<Decl>, K1: seq<Decl>, R1: seq<Decl>,
                                      H1: seq<Decl>, R: seq<Decl>,
                   H: seq<Decl>)
    requires Inside(K2, R2, H2, K1, R1, H1) && Inside(K1, R1, H1, [], R, H)
    ensures Inside(K2, R2, H2, [], R, H)
  {
  }

  lemma {:induction false} TouchingBoth(s: State, s1: State, s': State, n: Ptr, K: seq<Decl>, R: seq<Decl>,
                                        H: seq<Decl>,
                     K1: seq<Decl>, R1: seq<Decl>, H1: seq<Decl>)
    requires n !in Bag(K) + Bag(R) + LastBag(H) && Inside(K1, R1, H1, K, R, H)
    requires Touching(s, s1, n, K, R, H) && Touching(s1, s', n, K1, R1, H1)
    ensures Touching(s, s', n, K, R, H)
  {
    var all := Bag(K) + Bag(R) + LastBag(H);
    OnlyTouchedMore(s1.mem, s'.mem, n, Bag(K1) + Bag(R1) + LastBag(H1), all);
    OnlyTouchedTwice(s.mem, s1.mem, s'.mem, n, all);
  }

  // ---------------------------------------------------------------- nothing is lost

  /** How often address `p` occurs in a shape. */
  function Times(sh: Shape, p: Ptr): nat
    decreases sh, 1
  {
    (if sh.p == p then 1 else 0) + AllTimes(sh.kids, p)
  }

  function AllTimes(shs: seq<Shape>, p: Ptr): nat
    decreases shs, 0
  {
    if shs == [] then 0 else Times(shs[0], p) + AllTimes(shs[1..], p)
  }

  function DeclTimes(ds: seq<Decl>, p: Ptr): nat {
    if ds == [] then 0 else Times(ds[0].sh, p) + DeclTimes(ds[1..], p)
  }

  lemma {:induction false} DeclTimesConcat(a: seq<Decl>, b: seq<Decl>, p: Ptr)
    ensures DeclTimes(a + b, p) == DeclTimes(a, p) + DeclTimes(b, p)
  {
    if a == [] {
      assert a + b == b;
    } else {
      DeclTimesConcat(a[1..], b, p);
      assert (a + b)[1..] == a[1..] + b;
    }
  }

  lemma {:induction false} DeclTimesShapes(ds: seq<Decl>, p: Ptr)
    ensures AllTimes(Shapes(ds), p) == DeclTimes(ds, p)
  {
    if ds != [] {
      DeclTimesShapes(ds[1..], p);
      assert Shapes(ds)[1..] == Shapes(ds[1..]);
    }
  }

  lemma {:induction false} DeclTimesOne(d: Decl, p: Ptr)
    ensures DeclTimes([d], p) == Times(d.sh, p)
  {
    assert [d][1..] == [];
  }

  lemma {:induction false} DeclTimesPut(d: Decl, put: bool, ds: seq<Decl>, p: Ptr)
    ensures DeclTimes((if put then [d] else []) + ds, p) == (if put then Times(d.sh, p) else 0) + DeclTimes(ds, p)
  {
    DeclTimesConcat(if put then [d] else [], ds, p);
    DeclTimesOne(d, p);
  }

  lemma {:induction false} DeclTimesPutLast(d: Decl, put: bool, ds: seq<Decl>, p: Ptr)
    ensures DeclTimes(ds + if put then [d] else [], p) == DeclTimes(ds, p) + if put then Times(d.sh, p) else 0
  {
    DeclTimesConcat(ds, if put then [d] else [], p);
    DeclTimesOne(d, p);
  }

  /** The three parts of the contents of a type are all of it. */
  lemma {:induction false} PartsConserve(sue: Text, ds: seq<Decl>, p: Ptr)
    ensures DeclTimes(Keep(ds), p) + DeclTimes(Methods(sue, ds), p) + DeclTimes(Sues(ds), p) == DeclTimes(ds, p)
  {
    if ds != [] {
      var d, rest := ds[0], ds[1..];
      PartsConserve(sue, rest, p);
      DeclTimesPut(d, !d.kind.FUNC? && !IsSue(d.kind), Keep(rest), p);
      DeclTimesPut(d, IsSue(d.kind), Sues(rest), p);
      DeclTimesPutLast(d.(name := Prefixed(sue, d.name)), d.kind.FUNC?, Methods(sue, rest), p);
    }
  }

  function ResultTimes(r: Result, p: Ptr): nat {
    Times(r.self.sh, p) + DeclTimes(r.after, p) + DeclTimes(r.hoisted, p)
  }

  function AllResultTimes(rs: seq<Result>, p: Ptr): nat {
    if rs == [] then 0 else ResultTimes(rs[0], p) + AllResultTimes(rs[1..], p)
  }

  lemma {:induction false} ResultsSplit(rs: seq<Result>, p: Ptr)
    ensures DeclTimes(Splice(rs), p) + DeclTimes(Hoists(rs), p) == AllResultTimes(rs, p)
  {
    if rs != [] {
      ResultsSplit(rs[1..], p);
      DeclTimesOne(rs[0].self, p);
      DeclTimesConcat([rs[0].self], rs[0].after, p);
      DeclTimesConcat([rs[0].self] + rs[0].after, Splice(rs[1..]), p);
      DeclTimesConcat(rs[0].hoisted, Hoists(rs[1..]), p);
    }
  }

  /** The node, the methods behind it and the types hoisted from it hold exactly the nodes of
      its tree, each as often. */
  lemma {:induction false} FlatConserves(mem: Memory, sh: Shape, p: Ptr)
    ensures ResultTimes(Flat(mem, sh), p) == Times(sh, p)
    decreases sh, 1
  {
    var rs, r := FlatAll(mem, sh.kids), Flat(mem, sh);
    FlatAllConserves(mem, sh.kids, p);
    ResultsSplit(rs, p);
    PartsConserve(r.self.name, Splice(rs), p);
    DeclTimesConcat(Hoists(rs), Sues(Splice(rs)), p);
    DeclTimesShapes(Keep(Splice(rs)), p);
    DeclTimesShapes(Splice(rs), p);
  }

  lemma {:induction false} FlatAllConserves(mem: Memory, shs: seq<Shape>, p: Ptr)
    ensures AllResultTimes(FlatAll(mem, shs), p) == AllTimes(shs, p)
    decreases shs, 0
  {
    if shs != [] {
      FlatConserves(mem, shs[0], p);
      FlatAllConserves(mem, shs[1..], p);
      assert FlatAll(mem, shs)[1..] == FlatAll(mem, shs[1..]);
    }
  }

  /** Addresses are what occurs, and a tree has each of them once. */
  lemma {:induction false} TreeIsOnce(sh: Shape, p: Ptr)
    ensures p in Addresses(sh) <==> Times(sh, p) > 0
    ensures IsTree(sh) ==> Times(sh, p) <= 1
    decreases sh, 1
  {
    TreesAreOnce(sh.kids, p);
  }

  lemma {:induction false} TreesAreOnce(shs: seq<Shape>, p: Ptr)
    ensures p in AllAddresses(shs) <==> AllTimes(shs, p) > 0
    ensures AreTrees(shs) ==> AllTimes(shs, p) <= 1
    decreases shs, 0
  {
    if shs != [] {
      TreeIsOnce(shs[0], p);
      TreesAreOnce(shs[1..], p);
    }
  }

  lemma {:induction false} OnceIsTree(sh: Shape)
    requires forall p :: Times(sh, p) <= 1
    ensures IsTree(sh)
    decreases sh, 1
  {
    assert Times(sh, sh.p) <= 1;
    forall p ensures AllTimes(sh.kids, p) <= 1 { assert Times(sh, p) <= 1; }
    OnceAreTrees(sh.kids);
    TreesAreOnce(sh.kids, sh.p);
  }

  lemma {:induction false} OnceAreTrees(shs: seq<Shape>)
    requires forall p :: AllTimes(shs, p) <= 1
    ensures AreTrees(shs)
    decreases shs, 0
  {
    if shs != [] {
      forall p ensures Times(shs[0], p) <= 1 && AllTimes(shs[1..], p) <= 1 { assert AllTimes(shs, p) <= 1; }
      OnceIsTree(shs[0]);
      OnceAreTrees(shs[1..]);
      forall p | p in Addresses(shs[0]) ensures p !in AllAddresses(shs[1..]) {
        assert AllTimes(shs, p) <= 1;
        TreeIsOnce(shs[0], p);
        TreesAreOnce(shs[1..], p);
      }
    }
  }

  // ---------------------------------------------------------------- what a visit does

  /** No type of the tree has a method or a type among its children, and no node is its own
      child. */
  predicate Clean(mem: Memory, sh: Shape)
    decreases sh
  {
    && sh.p in mem && (forall f :: f in Fields(mem[sh.p]) ==> !InField(mem, f, sh.p))
    && ((mem[sh.p].kind.STRUCT? || mem[sh.p].kind.UNION? || mem[sh.p].kind.ENUM?) ==> forall i :: 0 <= i < |sh.kids| ==>
          sh.kids[i].p in mem
          && var k := mem[sh.kids[i].p].kind; !k.FUNC? && !k.STRUCT? && !k.UNION? && !k.ENUM?)
    && forall i :: 0 <= i < |sh.kids| ==> Clean(mem, sh.kids[i])
  }

  predicate Good(mem: Memory, sh: Shape) {
    Shows(mem, sh) && Clean(mem, sh)
  }

  /** Types stand only in lists, and no node is its own child. */
  predicate Well(mem: Memory, sh: Shape)
    decreases sh
  {
    && sh.p in mem && (forall f :: f in Fields(mem[sh.p]) ==> WellField(mem, sh.p, f))
    && forall i :: 0 <= i < |sh.kids| ==> Well(mem, sh.kids[i])
  }

  predicate WellField(mem: Memory, n: Ptr, f: Field) {
    match f
    case Single(p) => p != n && (p in mem ==> !IsSue(mem[p].kind))
    case Listed(head) => ListAt(mem, head).Some? && n !in ListAt(mem, head).value
    case Mark(_) => true
  }

  /** `b` has the same nodes as `a`; those in the tree are the same except that its root may
      have another sibling. */
  ghost predicate KeepsTree(a: Memory, b: Memory, sh: Shape) {
    && a.Keys == b.Keys
    && (forall p :: p in a && Times(sh, p) > 0 && p != sh.p ==> b[p] == a[p])
    && (sh.p in a ==> b[sh.p].kind == a[sh.p].kind && b[sh.p].kids == a[sh.p].kids && b[sh.p].flags == a[sh.p].flags)
  }

  lemma {:induction false} ChainWithin(a: Memory, b: Memory, head: Ptr, fuel: nat)
    requires a.Keys == b.Keys && Chain(a, head, fuel).Some?
    requires forall p :: p in Chain(a, head, fuel).value && p in a ==> b[p].next == a[p].next
    ensures Chain(b, head, fuel) == Chain(a, head, fuel)
    decreases fuel
  {
    if head != NULL {
      var rest := Chain(a, a[head].next, fuel - 1).value;
      assert Chain(a, head, fuel).value == [head] + rest;
      assert head in [head] + rest && forall p :: p in rest ==> p in [head] + rest;
      ChainWithin(a, b, a[head].next, fuel - 1);
    }
  }

  /** The lists of a node are unchanged when its children keep their siblings. */
  lemma {:induction false} ItemsWithin(a: Memory, b: Memory, n: Ptr, all: seq<Field>, fs: seq<Field>)
    requires a.Keys == b.Keys && AllItems(a, n, all).Some? && AllItems(a, n, fs).Some?
    requires (forall f :: f in fs ==> f in all) && forall f :: f in all ==> !InField(a, f, n)
    requires forall p :: p in Children(AllItems(a, n, all).value) && p in a ==> b[p].next == a[p].next
    ensures AllItems(b, n, fs) == AllItems(a, n, fs)
    ensures forall f :: f in fs ==> !InField(b, f, n)
    decreases |fs|
  {
    if fs != [] {
      ItemsWithin(a, b, n, all, fs[1..]);
      if fs[0].Listed? {
        var ps := ListAt(a, fs[0].head).value;
        forall p | p in ps && p in a ensures b[p].next == a[p].next {
          assert fs[0] in all && InField(a, fs[0], p);
          FieldCovers(a, n, all, fs[0], p);
        }
        assert |a| == |a.Keys| && |b| == |b.Keys|;
        ChainWithin(a, b, fs[0].head, |a|);
      }
      forall f | f in fs ensures !InField(b, f, n) {
        assert f in all && !InField(a, f, n);
        if f != fs[0] { assert f in fs[1..]; }
      }
    }
  }

  lemma {:induction false} KidTimes(shs: seq<Shape>, i: nat, p: Ptr)
    requires i < |shs|
    ensures Times(shs[i], p) <= AllTimes(shs, p)
  {
    if i > 0 { KidTimes(shs[1..], i - 1, p); }
  }

  lemma {:induction false} GoodKept(a: Memory, b: Memory, sh: Shape)
    requires Good(a, sh) && KeepsTree(a, b, sh) && forall p :: Times(sh, p) <= 1
    ensures Good(b, sh)
    decreases sh
  {
    var n := sh.p;
    forall i | 0 <= i < |sh.kids|
      ensures Good(b, sh.kids[i]) && sh.kids[i].p != n && b[sh.kids[i].p] == a[sh.kids[i].p]
    {
      forall p ensures Times(sh.kids[i], p) <= AllTimes(sh.kids, p) { KidTimes(sh.kids, i, p); }
      assert Times(sh, n) <= 1;
      forall p ensures Times(sh.kids[i], p) <= 1 { assert Times(sh, p) <= 1; }
      assert Shows(a, sh.kids[i]) && Clean(a, sh.kids[i]);
      GoodKept(a, b, sh.kids[i]);
      assert Times(sh.kids[i], sh.kids[i].p) > 0;
    }
    var fs := Fields(a[n]);
    forall p | p in Children(Items(a, n).value) && p in a ensures b[p].next == a[p].next {
      var i :| 0 <= i < |Roots(sh.kids)| && Roots(sh.kids)[i] == p;
      assert sh.kids[i].p == p;
    }
    SameFields(a[n], b[n]);
    ItemsWithin(a, b, n, fs, fs);
  }

  lemma {:induction false} SameFields(c: Cell, d: Cell)
    requires c.kind == d.kind && c.kids == d.kids && c.flags == d.flags
    ensures Fields(c) == Fields(d)
  {
    assert Kid(d, 0) == Kid(c, 0) && Kid(d, 1) == Kid(c, 1) && Kid(d, 2) == Kid(c, 2) && Kid(d, 3) == Kid(c, 3);
  }

  /** The declarations are in memory with their kinds and names, as trees without nesting. */
  ghost predicate Placed(mem: Memory, ds: seq<Decl>) {
    Labelled(mem, ds) && forall i :: 0 <= i < |ds| ==> Good(mem, ds[i].sh)
  }

  /** `b` is `a` but for the sibling of node `t`. */
  ghost predicate SameBut(a: Memory, b: Memory, t: Ptr, p: Ptr) {
    p in a && p in b && (b[p] == a[p] || (p == t && b[p].(next := a[p].next) == a[p]))
  }

  /** Outside the trees `shs` only the sibling of the last hoisted type may change. */
  ghost predicate Framed(s: State, s': State, shs: seq<Shape>) {
    && s'.sues == s.sues && s'.mem.Keys == s.mem.Keys
    && forall p :: p in s.mem && AllTimes(shs, p) == 0 ==>
         SameBut(s.mem, s'.mem, if s.head != NULL then s.tail else NULL, p)
  }

  /** A node has been visited: its methods stand behind it, and everything is in its place. */
  ghost predicate KidVisited(s: State, s': State, sh: Shape, r: Result) {
    && sh.p in s.mem && sh.p in s'.mem && r.self.sh.p == sh.p
    && Seg(s'.mem, s'.mem[sh.p].next, Ptrs(r.after), s.mem[sh.p].next)
    && Placed(s'.mem, [r.self] + r.after) && Placed(s'.mem, r.hoisted)
  }

  lemma {:induction false} DeclTimesAt(ds: seq<Decl>, i: nat, p: Ptr)
    requires i < |ds|
    ensures Times(ds[i].sh, p) <= DeclTimes(ds, p)
    ensures ds[i].sh.p == p ==> DeclTimes(ds, p) > 0
  {
    if i > 0 { DeclTimesAt(ds[1..], i - 1, p); }
  }

  lemma {:induction false} DeclTimesTwo(ds: seq<Decl>, i: nat, j: nat, p: Ptr)
    requires i < j < |ds|
    ensures Times(ds[i].sh, p) + Times(ds[j].sh, p) <= DeclTimes(ds, p)
  {
    if i == 0 { DeclTimesAt(ds[1..], j - 1, p); } else { DeclTimesTwo(ds[1..], i - 1, j - 1, p); }
  }

  lemma {:induction false} PlacedKept(a: Memory, b: Memory, ds: seq<Decl>)
    requires Placed(a, ds) && a.Keys == b.Keys
    requires forall i :: 0 <= i < |ds| ==> KeepsTree(a, b, ds[i].sh) && b[ds[i].sh.p].tok == a[ds[i].sh.p].tok
    requires forall p :: DeclTimes(ds, p) <= 1
    ensures Placed(b, ds)
  {
    forall i | 0 <= i < |ds| ensures Good(b, ds[i].sh) {
      forall p ensures Times(ds[i].sh, p) <= 1 { DeclTimesAt(ds, i, p); assert DeclTimes(ds, p) <= 1; }
      GoodKept(a, b, ds[i].sh);
    }
  }

  lemma {:induction false} TreeFramed(a: Memory, b: Memory, ds: seq<Decl>, t: Ptr, i: nat)
    requires i < |ds| && ds[i].sh.p in a && a.Keys == b.Keys && DeclTimes(ds, t) <= 1
    requires forall p :: p in a && DeclTimes(ds, p) > 0 ==> SameBut(a, b, t, p)
    requires DeclTimes(ds, t) > 0 ==> exists j :: 0 <= j < |ds| && ds[j].sh.p == t
    ensures KeepsTree(a, b, ds[i].sh) && b[ds[i].sh.p].tok == a[ds[i].sh.p].tok
  {
    var sh := ds[i].sh;
    DeclTimesAt(ds, i, sh.p);
    forall p | p in a && Times(sh, p) > 0 && p != sh.p ensures b[p] == a[p] {
      DeclTimesAt(ds, i, p);
      if p == t { OnlyRoot(ds, i, t); }
    }
  }

  /** A root that occurs once occurs nowhere else. */
  lemma {:induction false} OnlyRoot(ds: seq<Decl>, i: nat, t: Ptr)
    requires i < |ds| && DeclTimes(ds, t) <= 1 && Times(ds[i].sh, t) > 0
    requires exists j :: 0 <= j < |ds| && ds[j].sh.p == t
    ensures ds[i].sh.p == t
  {
    var j :| 0 <= j < |ds| && ds[j].sh.p == t;
    if i < j { DeclTimesTwo(ds, i, j, t); } else if j < i { DeclTimesTwo(ds, j, i, t); }
  }

  /** Declarations stay in place when nothing in them changes but the sibling of a root. */
  lemma {:induction false} PlacedFramed(a: Memory, b: Memory, ds: seq<Decl>, t: Ptr)
    requires Placed(a, ds) && a.Keys == b.Keys && forall p :: DeclTimes(ds, p) <= 1
    requires forall p :: p in a && DeclTimes(ds, p) > 0 ==> SameBut(a, b, t, p)
    requires DeclTimes(ds, t) > 0 ==> exists i :: 0 <= i < |ds| && ds[i].sh.p == t
    ensures Placed(b, ds)
  {
    forall i | 0 <= i < |ds| ensures KeepsTree(a, b, ds[i].sh) && b[ds[i].sh.p].tok == a[ds[i].sh.p].tok {
      assert Good(a, ds[i].sh);
      TreeFramed(a, b, ds, t, i);
    }
    PlacedKept(a, b, ds);
  }

  lemma {:induction false} LastHoisted(H: seq<Decl>, hs: seq<Decl>)
    ensures hs != [] ==> LastPtr(H + hs) == LastPtr(hs) && DeclTimes(hs, LastPtr(hs)) > 0
    ensures hs == [] ==> LastPtr(H + hs) == LastPtr(H)
    ensures H != [] ==> LastPtr(H) in Ptrs(H)
  {
    if hs != [] { DeclTimesAt(hs, |hs| - 1, LastPtr(hs)); }
    if H != [] { assert Ptrs(H)[|H| - 1] == LastPtr(H); }
    Empty(H);
  }

  /** What a visit has put in place stays there while other trees are visited. */
  lemma {:induction false} KidKept(s: State, s1: State, s': State, sh: Shape, r: Result, shs: seq<Shape>, H: seq<Decl>)
    requires KidVisited(s, s1, sh, r) && HoistedIs(s1, H + r.hoisted) && Framed(s1, s', shs)
    requires forall p :: ResultTimes(r, p) + AllTimes(shs, p) <= 1
    requires ResultTimes(r, NULL) == 0 && forall p :: p in Ptrs(H) ==> ResultTimes(r, p) == 0
    ensures KidVisited(s, s', sh, r)
  {
    var t := if s1.head != NULL then s1.tail else NULL;
    LastHoisted(H, r.hoisted);
    forall p | p in s1.mem && ResultTimes(r, p) > 0 ensures SameBut(s1.mem, s'.mem, t, p) {
      assert ResultTimes(r, p) + AllTimes(shs, p) <= 1;
    }
    DeclTimesOne(r.self, t);
    DeclTimesConcat([r.self], r.after, t);
    TailIsHoisted(s1, H, r);
    SegVisited(s1, s', sh, r, s.mem[sh.p].next, t);
    forall p ensures DeclTimes([r.self] + r.after, p) <= 1 && DeclTimes(r.hoisted, p) <= 1
      && DeclTimes([r.self] + r.after, p) <= ResultTimes(r, p)
    {
      assert ResultTimes(r, p) + AllTimes(shs, p) <= 1;
      DeclTimesOne(r.self, p);
      DeclTimesConcat([r.self], r.after, p);
    }
    PlacedFramed(s1.mem, s'.mem, [r.self] + r.after, t);
    PlacedFramed(s1.mem, s'.mem, r.hoisted, t);
  }

  /** The last hoisted type is not among a visited node and the methods behind it. */
  lemma {:induction false} TailIsHoisted(s1: State, H: seq<Decl>, r: Result)
    requires HoistedIs(s1, H + r.hoisted) && forall p :: ResultTimes(r, p) <= 1
    requires forall p :: p in Ptrs(H) ==> ResultTimes(r, p) == 0
    requires ResultTimes(r, NULL) == 0
    ensures var t := if s1.head != NULL then s1.tail else NULL;
            && Times(r.self.sh, t) + DeclTimes(r.after, t) == 0
            && (DeclTimes(r.hoisted, t) > 0 ==> exists i :: 0 <= i < |r.hoisted| && r.hoisted[i].sh.p == t)
  {
    var t := if s1.head != NULL then s1.tail else NULL;
    LastHoisted(H, r.hoisted);
    assert ResultTimes(r, t) <= 1;
    if r.hoisted != [] {
      assert r.hoisted[|r.hoisted| - 1].sh.p == t;
    }
  }

  lemma {:induction false} SegVisited(s1: State, s': State, sh: Shape, r: Result, end: Ptr, t: Ptr)
    requires sh.p in s1.mem && r.self.sh.p == sh.p && Seg(s1.mem, s1.mem[sh.p].next, Ptrs(r.after), end)
    requires forall p :: p in s1.mem && ResultTimes(r, p) > 0 ==> SameBut(s1.mem, s'.mem, t, p)
    requires Times(r.self.sh, t) + DeclTimes(r.after, t) == 0
    ensures sh.p in s'.mem && Seg(s'.mem, s'.mem[sh.p].next, Ptrs(r.after), end)
  {
    forall x | x in Ptrs(r.after) && x in s1.mem ensures x in s'.mem && s'.mem[x].next == s1.mem[x].next {
      var i :| 0 <= i < |r.after| && Ptrs(r.after)[i] == x;
      DeclTimesAt(r.after, i, x);
      assert SameBut(s1.mem, s'.mem, t, x);
    }
    assert Times(r.self.sh, sh.p) > 0;
    assert SameBut(s1.mem, s'.mem, t, sh.p);
    SegKept(s1.mem, s'.mem, s1.mem[sh.p].next, Ptrs(r.after), end);
  }

  // ---------------------------------------------------------------- the visit of children

  ghost predicate SameNodes(a: Memory, b: Memory, sh: Shape) {
    a.Keys == b.Keys && forall p :: p in a && Times(sh, p) > 0 ==> b[p] == a[p]
  }

  lemma {:induction false} FlatSame(a: Memory, b: Memory, sh: Shape)
    requires SameNodes(a, b, sh)
    ensures Flat(a, sh) == Flat(b, sh)
    decreases sh, 1
  {
    assert Times(sh, sh.p) > 0;
    FlatAllSame(a, b, sh.kids);
  }

  lemma {:induction false} FlatAllSame(a: Memory, b: Memory, shs: seq<Shape>)
    requires a.Keys == b.Keys && forall p :: p in a && AllTimes(shs, p) > 0 ==> b[p] == a[p]
    ensures FlatAll(a, shs) == FlatAll(b, shs)
    decreases shs, 0
  {
    if shs != [] {
      FlatSame(a, b, shs[0]);
      FlatAllSame(a, b, shs[1..]);
    }
  }

  lemma {:induction false} ShownKept(a: Memory, b: Memory, sh: Shape)
    requires Shows(a, sh) && Well(a, sh) && SameNodes(a, b, sh) && NULL !in a
    ensures Shows(b, sh) && Well(b, sh)
    decreases sh
  {
    var n, fs := sh.p, Fields(a[sh.p]);
    assert Times(sh, n) > 0;
    forall i | 0 <= i < |sh.kids|
      ensures Shows(b, sh.kids[i]) && Well(b, sh.kids[i]) && b[sh.kids[i].p] == a[sh.kids[i].p]
    {
      forall p ensures Times(sh.kids[i], p) <= AllTimes(sh.kids, p) { KidTimes(sh.kids, i, p); }
      assert Shows(a, sh.kids[i]) && Well(a, sh.kids[i]);
      ShownKept(a, b, sh.kids[i]);
      assert Times(sh.kids[i], sh.kids[i].p) > 0;
    }
    forall p | p in Children(Items(a, n).value) ensures p in a && b[p] == a[p] {
      var i :| 0 <= i < |Roots(sh.kids)| && Roots(sh.kids)[i] == p;
      assert sh.kids[i].p == p && Shows(a, sh.kids[i]);
    }
    forall f | f in fs ensures !InField(a, f, n) { assert WellField(a, n, f); }
    ItemsWithin(a, b, n, fs, fs);
    forall f | f in fs ensures WellField(b, n, f) { WellFieldKept(a, b, n, fs, f); }
  }

  lemma {:induction false} WellFieldKept(a: Memory, b: Memory, n: Ptr, fs: seq<Field>, f: Field)
    requires a.Keys == b.Keys && AllItems(a, n, fs).Some? && f in fs && WellField(a, n, f) && NULL !in a
    requires forall p :: p in Children(AllItems(a, n, fs).value) ==> p in a && b[p] == a[p]
    requires AllItems(b, n, fs) == AllItems(a, n, fs) && !InField(b, f, n)
    ensures WellField(b, n, f)
  {
    match f
    case Single(p) => if p != NULL && p in a { FieldCovers(a, n, fs, f, p); }
    case Listed(head) => FieldLists(b, n, fs, f);
    case Mark(_) =>
  }

  /** Trees to be visited: shown by the memory, different from each other and from what has
      been hoisted. */
  ghost predicate Ready(s: State, kids: seq<Shape>, H: seq<Decl>) {
    && (forall i :: 0 <= i < |kids| ==> Shows(s.mem, kids[i]) && Well(s.mem, kids[i]))
    && HoistedIs(s, H) && NULL !in s.mem
    && (forall p :: AllTimes(kids, p) <= 1 && (p in Ptrs(H) ==> AllTimes(kids, p) == 0) && Bag(H)[p] <= 1)
  }

  /** A visit has taken a node and its subtree to the places `r`, after the hoisted types `H`. */
  ghost predicate Flattened(s: State, s': State, sh: Shape, r: Result, H: seq<Decl>) {
    Framed(s, s', [sh]) && HoistedIs(s', H + r.hoisted) && KidVisited(s, s', sh, r)
  }

  ghost predicate AllVisited(s: State, s': State, kids: seq<Shape>, rs: seq<Result>, H: seq<Decl>) {
    && |rs| == |kids| && Framed(s, s', kids) && HoistedIs(s', H + Hoists(rs))
    && forall i :: 0 <= i < |kids| ==> KidVisited(s, s', kids[i], rs[i])
  }

  lemma {:induction false} ShownInMemory(mem: Memory, sh: Shape, p: Ptr)
    requires Shows(mem, sh) && Times(sh, p) > 0
    ensures p in mem
    decreases sh, 1
  {
    if p != sh.p { AllShownInMemory(mem, sh.kids, p); }
  }

  lemma {:induction false} AllShownInMemory(mem: Memory, shs: seq<Shape>, p: Ptr)
    requires (forall i :: 0 <= i < |shs| ==> Shows(mem, shs[i])) && AllTimes(shs, p) > 0
    ensures p in mem
    decreases shs, 0
  {
    if Times(shs[0], p) > 0 { ShownInMemory(mem, shs[0], p); } else { AllShownInMemory(mem, shs[1..], p); }
  }

  /** After the first tree has been visited the others are as ready as before. */
  lemma {:induction false} StillReady(s: State, s1: State, kids: seq<Shape>, r: Result, H: seq<Decl>)
    requires Ready(s, kids, H) && kids != [] && Framed(s, s1, [kids[0]]) && HoistedIs(s1, H + r.hoisted)
    requires forall p :: ResultTimes(r, p) == Times(kids[0], p)
    ensures Ready(s1, kids[1..], H + r.hoisted)
    ensures forall i :: 0 <= i < |kids[1..]| ==> SameNodes(s.mem, s1.mem, kids[1..][i])
    ensures forall p :: p in s.mem && AllTimes(kids[1..], p) > 0 ==> s1.mem[p] == s.mem[p]
  {
    assert [kids[0]][1..] == [];
    LastHoisted(H, []);
    forall p | p in s.mem && AllTimes(kids[1..], p) > 0 ensures s1.mem[p] == s.mem[p] {
      assert AllTimes(kids, p) <= 1 && AllTimes([kids[0]], p) == 0;
      assert SameBut(s.mem, s1.mem, if s.head != NULL then s.tail else NULL, p);
    }
    forall i | 0 <= i < |kids[1..]|
      ensures SameNodes(s.mem, s1.mem, kids[1..][i]) && Shows(s1.mem, kids[1..][i]) && Well(s1.mem, kids[1..][i])
    {
      assert kids[1..][i] == kids[i + 1];
      forall p ensures Times(kids[1..][i], p) <= AllTimes(kids[1..], p) { KidTimes(kids[1..], i, p); }
      ShownKept(s.mem, s1.mem, kids[i + 1]);
    }
    PtrsConcat(H, r.hoisted);
    forall p
      ensures AllTimes(kids[1..], p) <= 1 && Bag(H + r.hoisted)[p] <= 1
      ensures p in Ptrs(H + r.hoisted) ==> AllTimes(kids[1..], p) == 0
    {
      assert AllTimes(kids, p) <= 1 && (p in Ptrs(H) ==> AllTimes(kids, p) == 0) && Bag(H)[p] <= 1;
      BagTimes(r.hoisted, p);
    }
  }

  lemma {:induction false} BagTimes(ds: seq<Decl>, p: Ptr)
    ensures Bag(ds)[p] <= DeclTimes(ds, p) && (p in Ptrs(ds) ==> DeclTimes(ds, p) > 0)
  {
    if ds != [] {
      BagTimes(ds[1..], p);
      assert ds == [ds[0]] + ds[1..];
      PtrsConcat([ds[0]], ds[1..]);
      assert Ptrs([ds[0]]) == [ds[0].sh.p];
      assert Times(ds[0].sh, ds[0].sh.p) > 0;
    }
  }

  lemma {:induction false} FramedBoth(s: State, s1: State, s': State, kids: seq<Shape>, r: Result, H: seq<Decl>)
    requires kids != [] && Framed(s, s1, [kids[0]]) && Framed(s1, s', kids[1..])
    requires HoistedIs(s, H) && HoistedIs(s1, H + r.hoisted) && forall p :: ResultTimes(r, p) == Times(kids[0], p)
    ensures Framed(s, s', kids)
  {
    var t, t1 := if s.head != NULL then s.tail else NULL, if s1.head != NULL then s1.tail else NULL;
    LastHoisted(H, r.hoisted);
    Empty(H);
    assert [kids[0]][1..] == [];
    assert ResultTimes(r, t1) == Times(kids[0], t1);
    forall p | p in s.mem && AllTimes(kids, p) == 0 ensures SameBut(s.mem, s'.mem, t, p) {
      assert AllTimes([kids[0]], p) == 0 && SameBut(s.mem, s1.mem, t, p);
      assert AllTimes(kids[1..], p) == 0 && SameBut(s1.mem, s'.mem, t1, p);
    }
  }

  lemma {:induction false} AllVisitedCons(s: State, s1: State, s': State, kids: seq<Shape>, r: Result,
                                          rs: seq<Result>, H: seq<Decl>)
    requires Ready(s, kids, H) && kids != [] && Framed(s, s1, [kids[0]]) && HoistedIs(s1, H + r.hoisted)
    requires KidVisited(s, s1, kids[0], r) && AllVisited(s1, s', kids[1..], rs, H + r.hoisted)
    requires forall p :: ResultTimes(r, p) == Times(kids[0], p)
    ensures AllVisited(s, s', kids, [r] + rs, H)
  {
    FramedBoth(s, s1, s', kids, r, H);
    forall p ensures ResultTimes(r, p) + AllTimes(kids[1..], p) <= 1 && (p in Ptrs(H) ==> ResultTimes(r, p) == 0) {
      assert AllTimes(kids, p) <= 1 && (p in Ptrs(H) ==> AllTimes(kids, p) == 0);
    }
    if ResultTimes(r, NULL) > 0 { ShownInMemory(s.mem, kids[0], NULL); }
    KidKept(s, s1, s', kids[0], r, kids[1..], H);
    HoistsCons(r, rs);
    Assoc(H, r.hoisted, Hoists(rs));
    StillReady(s, s1, kids, r, H);
    forall i | 0 <= i < |rs| ensures KidVisited(s, s', kids[1..][i], rs[i]) {
      RestVisited(s, s1, s', kids[1..][i], rs[i]);
    }
    KidsCons(s, s', kids, r, rs);
  }

  lemma {:induction false} HoistsCons(r: Result, rs: seq<Result>)
    ensures Hoists([r] + rs) == r.hoisted + Hoists(rs)
  {
    assert ([r] + rs)[1..] == rs;
  }

  /** A visit that starts after another kid's is one that starts before it. */
  lemma {:induction false} RestVisited(s: State, s1: State, s': State, kid: Shape, r: Result)
    requires KidVisited(s1, s', kid, r) && SameNodes(s.mem, s1.mem, kid)
    ensures KidVisited(s, s', kid, r)
  {
    assert Times(kid, kid.p) > 0;
  }

  lemma {:induction false} KidsCons(s: State, s': State, kids: seq<Shape>, r: Result, rs: seq<Result>)
    requires kids != [] && |rs| == |kids[1..]| && KidVisited(s, s', kids[0], r)
    requires forall i :: 0 <= i < |rs| ==> KidVisited(s, s', kids[1..][i], rs[i])
    ensures forall i :: 0 <= i < |kids| ==> KidVisited(s, s', kids[i], ([r] + rs)[i])
  {
    forall i | 0 <= i < |kids| ensures KidVisited(s, s', kids[i], ([r] + rs)[i]) {
      if i > 0 { assert KidVisited(s, s', kids[1..][i - 1], rs[i - 1]); }
    }
  }

  lemma {:induction false} AllVisitedNone(s: State, H: seq<Decl>)
    requires HoistedIs(s, H)
    ensures AllVisited(s, s, [], [], H)
  {
    Empty(H);
  }

  // ---------------------------------------------------------------- the lists after the children

  lemma {:induction false} SegIsChain(mem: Memory, p: Ptr, ps: seq<Ptr>, fuel: nat)
    requires Seg(mem, p, ps, NULL) && |ps| <= fuel
    ensures Chain(mem, p, fuel) == Some(ps)
    decreases |ps|
  {
    if ps != [] {
      SegIsChain(mem, mem[p].next, ps[1..], fuel - 1);
      assert ps == [p] + ps[1..];
    }
  }

  lemma {:induction false} ChainIsSeg(mem: Memory, p: Ptr, fuel: nat)
    requires Chain(mem, p, fuel).Some?
    ensures Seg(mem, p, Chain(mem, p, fuel).value, NULL)
    decreases fuel
  {
    if p != NULL { ChainIsSeg(mem, mem[p].next, fuel - 1); }
  }

  lemma {:induction false} FewerThan(ps: seq<Ptr>, all: set<Ptr>)
    requires NoDup(ps) && forall i :: 0 <= i < |ps| ==> ps[i] in all
    ensures |ps| <= |all|
    decreases |ps|
  {
    if ps != [] {
      FewerThan(ps[1..], all - {ps[0]});
    }
  }

  lemma {:induction false} SegIsList(mem: Memory, p: Ptr, ps: seq<Ptr>)
    requires Seg(mem, p, ps, NULL) && NoDup(ps)
    ensures ListAt(mem, p) == Some(ps)
  {
    forall i | 0 <= i < |ps| ensures ps[i] in mem.Keys { SegInside(mem, p, ps, NULL, i); }
    FewerThan(ps, mem.Keys);
    assert |mem| == |mem.Keys|;
    SegIsChain(mem, p, ps, |mem|);
  }

  lemma {:induction false} SpliceConcat(a: seq<Result>, b: seq<Result>)
    ensures Splice(a + b) == Splice(a) + Splice(b)
  {
    if a == [] {
      assert a + b == b;
    } else {
      SpliceConcat(a[1..], b);
      assert (a + b)[1..] == a[1..] + b;
      Assoc([a[0].self] + a[0].after, Splice(a[1..]), Splice(b));
    }
  }

  /** A list of visited nodes has become the list with the methods behind their types. */
  lemma {:induction false} ListSpliced(a: Memory, s: State, s': State, head: Ptr, kids: seq<Shape>, rs: seq<Result>,
                                       end: Ptr)
    requires a == s.mem && |rs| == |kids| && Seg(a, head, Roots(kids), end)
    requires forall i :: 0 <= i < |kids| ==> KidVisited(s, s', kids[i], rs[i])
    ensures Seg(s'.mem, head, Ptrs(Splice(rs)), end)
    decreases |kids|
  {
    if kids != [] {
      var r, b := rs[0], s'.mem;
      assert KidVisited(s, s', kids[0], r);
      assert Roots(kids)[0] == head && Roots(kids)[1..] == Roots(kids[1..]);
      forall i | 0 <= i < |kids[1..]| ensures KidVisited(s, s', kids[1..][i], rs[1..][i]) {
        assert kids[1..][i] == kids[i + 1] && rs[1..][i] == rs[i + 1];
      }
      ListSpliced(a, s, s', a[head].next, kids[1..], rs[1..], end);
      SegJoin(b, b[head].next, Ptrs(r.after), a[head].next, Ptrs(Splice(rs[1..])), end);
      PtrsConcat(r.after, Splice(rs[1..]));
      PtrsConcat([r.self], r.after + Splice(rs[1..]));
      Assoc([r.self], r.after, Splice(rs[1..]));
      assert Ptrs([r.self]) == [head];
      assert ([head] + Ptrs(r.after + Splice(rs[1..])))[1..] == Ptrs(r.after + Splice(rs[1..]));
    }
  }

  lemma {:induction false} PlacedConcat(mem: Memory, a: seq<Decl>, b: seq<Decl>)
    requires Placed(mem, a) && Placed(mem, b)
    ensures Placed(mem, a + b)
  {
    forall i | 0 <= i < |a + b|
      ensures var d := (a + b)[i];
              d.sh.p in mem && mem[d.sh.p].kind == d.kind && mem[d.sh.p].tok.text == d.name && Good(mem, d.sh)
    {
      if i < |a| { assert (a + b)[i] == a[i]; } else { assert (a + b)[i] == b[i - |a|]; }
    }
  }

  lemma {:induction false} AllPlaced(s: State, s': State, kids: seq<Shape>, rs: seq<Result>)
    requires |rs| == |kids| && forall i :: 0 <= i < |kids| ==> KidVisited(s, s', kids[i], rs[i])
    ensures Placed(s'.mem, Splice(rs)) && Placed(s'.mem, Hoists(rs))
    decreases |kids|
  {
    if kids != [] {
      assert KidVisited(s, s', kids[0], rs[0]);
      forall i | 0 <= i < |kids[1..]| ensures KidVisited(s, s', kids[1..][i], rs[1..][i]) {
        assert kids[1..][i] == kids[i + 1] && rs[1..][i] == rs[i + 1];
      }
      AllPlaced(s, s', kids[1..], rs[1..]);
      PlacedConcat(s'.mem, [rs[0].self] + rs[0].after, Splice(rs[1..]));
      PlacedConcat(s'.mem, rs[0].hoisted, Hoists(rs[1..]));
    }
  }

  /** The children of a node after its lists have been spliced. */
  ghost predicate FieldSpliced(mem: Memory, n: Ptr, f: Field, ds: seq<Decl>) {
    FieldItems(mem, n, f).Some? && Children(FieldItems(mem, n, f).value) == Ptrs(ds) && !InField(mem, f, n)
  }

  lemma {:induction false} ListFieldSpliced(s: State, s': State, n: Ptr, head: Ptr, kids: seq<Shape>, rs: seq<Result>)
    requires WellField(s.mem, n, Listed(head)) && NULL !in s'.mem
    requires Roots(kids) == ListAt(s.mem, head).value && |rs| == |kids|
    requires forall i :: 0 <= i < |kids| ==> KidVisited(s, s', kids[i], rs[i])
    requires forall p :: DeclTimes(Splice(rs), p) <= 1
    requires DeclTimes(Splice(rs), n) == 0
    ensures FieldSpliced(s'.mem, n, Listed(head), Splice(rs))
  {
    var ps := Ptrs(Splice(rs));
    ChainIsSeg(s.mem, head, |s.mem|);
    ListSpliced(s.mem, s, s', head, kids, rs, NULL);
    forall p ensures multiset(ps)[p] <= 1 { BagTimes(Splice(rs), p); }
    BagNoDup(ps);
    SegIsList(s'.mem, head, ps);
    BagTimes(Splice(rs), n);
    forall i | 0 <= i < |ps| ensures ps[i] != NULL { SegInside(s'.mem, head, ps, NULL, i); }
    ManyChildren(n, ps, 0);
  }

  lemma {:induction false} SingleFieldSpliced(s: State, s': State, n: Ptr, p: Ptr, kids: seq<Shape>, rs: seq<Result>)
    requires WellField(s.mem, n, Single(p)) && p != n
    requires Roots(kids) == Children(One(n, p)) && |rs| == |kids|
    requires forall i :: 0 <= i < |kids| ==> KidVisited(s, s', kids[i], rs[i])
    requires forall i :: 0 <= i < |kids| && kids[i].p in s.mem && !IsSue(s.mem[kids[i].p].kind) ==> rs[i].after == []
    ensures FieldSpliced(s'.mem, n, Single(p), Splice(rs))
  {
    if p == NULL {
      assert |Roots(kids)| == 0;
    } else {
      assert One(n, p)[1..] == [];
      assert Children(One(n, p)) == [p] + Children([]);
      assert |kids| == 1 && Roots(kids)[0] == p && KidVisited(s, s', kids[0], rs[0]);
      assert rs[1..] == [] && Splice(rs) == [rs[0].self] + [] + [];
      assert Splice(rs) == [rs[0].self] && Ptrs([rs[0].self]) == [p];
    }
  }

  lemma {:induction false} FieldsSpliced(s: State, s': State, n: Ptr, fs: seq<Field>, kids: seq<Shape>, rs: seq<Result>)
    requires AllItems(s.mem, n, fs).Some? && Children(AllItems(s.mem, n, fs).value) == Roots(kids) && |rs| == |kids|
    requires NULL !in s'.mem && forall f :: f in fs ==> WellField(s.mem, n, f)
    requires forall i :: 0 <= i < |kids| ==> KidVisited(s, s', kids[i], rs[i])
    requires forall i :: 0 <= i < |kids| && kids[i].p in s.mem && !IsSue(s.mem[kids[i].p].kind) ==> rs[i].after == []
    requires forall p :: DeclTimes(Splice(rs), p) <= 1
    requires DeclTimes(Splice(rs), n) == 0
    ensures AllItems(s'.mem, n, fs).Some? && Children(AllItems(s'.mem, n, fs).value) == Ptrs(Splice(rs))
    ensures forall f :: f in fs ==> !InField(s'.mem, f, n)
    decreases |fs|
  {
    if fs == [] {
      assert |Roots(kids)| == 0;
    } else {
      var first, rest := FieldItems(s.mem, n, fs[0]).value, AllItems(s.mem, n, fs[1..]).value;
      var k := |Children(first)|;
      ChildrenConcat(first, rest);
      RootsSplit(kids, Children(first), Children(rest));
      SpliceSplit(rs, k, n);
      VisitedSplit(s, s', kids, rs, k);
      FieldsSpliced(s, s', n, fs[1..], kids[k..], rs[k..]);
      FirstFieldSpliced(s, s', n, fs[0], kids[..k], rs[..k]);
      FieldsJoin(s'.mem, n, fs, rs, k);
    }
  }

  lemma {:induction false} VisitedSplit(s: State, s': State, kids: seq<Shape>, rs: seq<Result>, k: nat)
    requires k <= |rs| == |kids| && forall i :: 0 <= i < |kids| ==> KidVisited(s, s', kids[i], rs[i])
    requires forall i :: 0 <= i < |kids| && kids[i].p in s.mem && !IsSue(s.mem[kids[i].p].kind) ==> rs[i].after == []
    ensures var left, right := kids[..k], kids[k..];
            && (forall i :: 0 <= i < |left| ==> KidVisited(s, s', left[i], rs[..k][i]))
            && (forall i :: 0 <= i < |left| && left[i].p in s.mem && !IsSue(s.mem[left[i].p].kind) ==>
                  rs[..k][i].after == [])
            && (forall i :: 0 <= i < |right| ==> KidVisited(s, s', right[i], rs[k..][i]))
            && (forall i :: 0 <= i < |right| && right[i].p in s.mem && !IsSue(s.mem[right[i].p].kind) ==>
                  rs[k..][i].after == [])
  {
    forall i | 0 <= i < |kids[k..]| ensures KidVisited(s, s', kids[k..][i], rs[k..][i]) {
      assert kids[k..][i] == kids[k + i] && rs[k..][i] == rs[k + i];
    }
  }

  lemma {:induction false} RootsSplit(kids: seq<Shape>, a: seq<Ptr>, b: seq<Ptr>)
    requires Roots(kids) == a + b
    ensures |a| <= |kids| && Roots(kids[..|a|]) == a && Roots(kids[|a|..]) == b
  {
    assert Roots(kids)[..|a|] == a && Roots(kids)[|a|..] == b;
  }

  lemma {:induction false} SpliceSplit(rs: seq<Result>, k: nat, n: Ptr)
    requires k <= |rs| && (forall p :: DeclTimes(Splice(rs), p) <= 1) && DeclTimes(Splice(rs), n) == 0
    ensures Splice(rs) == Splice(rs[..k]) + Splice(rs[k..])
    ensures forall p :: DeclTimes(Splice(rs[..k]), p) <= 1 && DeclTimes(Splice(rs[k..]), p) <= 1
    ensures DeclTimes(Splice(rs[..k]), n) == 0 && DeclTimes(Splice(rs[k..]), n) == 0
  {
    assert rs == rs[..k] + rs[k..];
    SpliceConcat(rs[..k], rs[k..]);
    forall p ensures DeclTimes(Splice(rs), p) == DeclTimes(Splice(rs[..k]), p) + DeclTimes(Splice(rs[k..]), p) {
      DeclTimesConcat(Splice(rs[..k]), Splice(rs[k..]), p);
    }
    forall p ensures DeclTimes(Splice(rs[..k]), p) <= 1 && DeclTimes(Splice(rs[k..]), p) <= 1 {
      assert DeclTimes(Splice(rs), p) <= 1;
    }
  }

  lemma {:induction false} FieldsJoin(mem: Memory, n: Ptr, fs: seq<Field>, rs: seq<Result>, k: nat)
    requires fs != [] && k <= |rs| && Splice(rs) == Splice(rs[..k]) + Splice(rs[k..])
    requires FieldSpliced(mem, n, fs[0], Splice(rs[..k]))
    requires AllItems(mem, n, fs[1..]).Some? && Children(AllItems(mem, n, fs[1..]).value) == Ptrs(Splice(rs[k..]))
    requires forall f :: f in fs[1..] ==> !InField(mem, f, n)
    ensures AllItems(mem, n, fs).Some? && Children(AllItems(mem, n, fs).value) == Ptrs(Splice(rs))
    ensures forall f :: f in fs ==> !InField(mem, f, n)
  {
    PtrsConcat(Splice(rs[..k]), Splice(rs[k..]));
    ChildrenConcat(FieldItems(mem, n, fs[0]).value, AllItems(mem, n, fs[1..]).value);
    forall f | f in fs ensures !InField(mem, f, n) {
      if f != fs[0] { assert f in fs[1..]; }
    }
  }

  lemma {:induction false} FirstFieldSpliced(s: State, s': State, n: Ptr, f: Field, kids: seq<Shape>, rs: seq<Result>)
    requires FieldItems(s.mem, n, f).Some? && Children(FieldItems(s.mem, n, f).value) == Roots(kids) && |rs| == |kids|
    requires NULL !in s'.mem && WellField(s.mem, n, f)
    requires forall i :: 0 <= i < |kids| ==> KidVisited(s, s', kids[i], rs[i])
    requires forall i :: 0 <= i < |kids| && kids[i].p in s.mem && !IsSue(s.mem[kids[i].p].kind) ==> rs[i].after == []
    requires forall p :: DeclTimes(Splice(rs), p) <= 1
    requires DeclTimes(Splice(rs), n) == 0
    ensures FieldSpliced(s'.mem, n, f, Splice(rs))
  {
    match f
    case Single(p) => SingleFieldSpliced(s, s', n, p, kids, rs);
    case Listed(head) =>
      var ps := ListAt(s.mem, head).value;
      forall i | 0 <= i < |ps| ensures ps[i] != NULL { assert ps[i] in ps; }
      ManyChildren(n, ps, 0);
      ListFieldSpliced(s, s', n, head, kids, rs);
    case Mark(step) =>
      assert [Gap(step)][1..] == [];
      assert Children([Gap(step)]) == [] + Children([]);
      assert |Roots(kids)| == 0;
  }

  lemma {:induction false} ItemsFlatten(s: State, n: Ptr, items: seq<Item>, kids: seq<Shape>, H: seq<Decl>)
    returns (s': State)
    requires Ready(s, kids, H) && Children(items) == Roots(kids)
    ensures VisitItems(FlattenVisitor(), n, items, kids, s) == Some((true, s'))
    ensures AllVisited(s, s', kids, FlatAll(s.mem, kids), H)
    decreases kids, 0, |items|
  {
    if items == [] {
      assert |Roots(kids)| == |kids|;
      AllVisitedNone(s, H);
      s' := s;
    } else if items[0].Gap? {
      s' := ItemsFlatten(s, n, items[1..], kids, H);
    } else {
      FirstChild(items, kids);
      var r := Flat(s.mem, kids[0]);
      forall p ensures ResultTimes(r, p) == Times(kids[0], p) { FlatConserves(s.mem, kids[0], p); }
      ReadyFirst(s, kids, H);
      var s1 := VisitFlattens(s, kids[0], H);
      StillReady(s, s1, kids, r, H);
      s' := ItemsFlatten(s1, n, items[1..], kids[1..], H + r.hoisted);
      FlatAllSame(s.mem, s1.mem, kids[1..]);
      AllVisitedCons(s, s1, s', kids, r, FlatAll(s.mem, kids[1..]), H);
    }
  }

  lemma {:induction false} ReadyFirst(s: State, kids: seq<Shape>, H: seq<Decl>)
    requires Ready(s, kids, H) && kids != []
    ensures Ready(s, [kids[0]], H)
  {
    assert [kids[0]][1..] == [];
    forall p ensures AllTimes([kids[0]], p) <= 1 && (p in Ptrs(H) ==> AllTimes([kids[0]], p) == 0) && Bag(H)[p] <= 1 {
      assert AllTimes(kids, p) <= 1 && (p in Ptrs(H) ==> AllTimes(kids, p) == 0) && Bag(H)[p] <= 1;
    }
  }

  /** Visiting a node takes it and its subtree to their new places. */
  lemma {:induction false} VisitFlattens(s: State, sh: Shape, H: seq<Decl>) returns (s': State)
    requires Ready(s, [sh], H)
    ensures Visit(FlattenVisitor(), sh, s) == Some((true, s'))
    ensures Flattened(s, s', sh, Flat(s.mem, sh), H)
    decreases sh, 2
  {
    ReadyInside(s, FlattenEnter(s, sh.p).0, sh, H);
    if IsSue(s.mem[sh.p].kind) {
      s' := VisitType(s, sh, H);
    } else {
      s' := VisitOther(s, sh, H);
      LeaveOther(s, s', sh, H);
    }
  }

  lemma {:induction false} VisitType(s: State, sh: Shape, H: seq<Decl>) returns (s': State)
    requires Ready(s, [sh], H) && sh.p in s.mem && IsSue(s.mem[sh.p].kind)
    ensures Visit(FlattenVisitor(), sh, s) == Some((true, s')) && Flattened(s, s', sh, Flat(s.mem, sh), H)
    decreases sh, 1
  {
    var n := sh.p;
    var s1 := FlattenEnter(s, n).0;
    ReadyInside(s, s1, sh, H);
    var s2 := ItemsFlatten(s1, n, Items(s1.mem, n).value, sh.kids, H);
    s' := LeaveType(s, s1, s2, sh, H);
    TypeLeft(s, s1, s2, s', sh, H);
  }

  lemma {:induction false} VisitOther(s: State, sh: Shape, H: seq<Decl>) returns (s': State)
    requires Ready(s, [sh], H) && sh.p in s.mem && !IsSue(s.mem[sh.p].kind)
    ensures Visit(FlattenVisitor(), sh, s) == Some((true, s'))
    ensures AllVisited(s, s', sh.kids, FlatAll(s.mem, sh.kids), H)
    decreases sh, 1
  {
    ReadyInside(s, s, sh, H);
    s' := ItemsFlatten(s, sh.p, Items(s.mem, sh.p).value, sh.kids, H);
    NodeUntouched(s, s, s', sh, H);
  }

  lemma {:induction false} TimesOne(sh: Shape, p: Ptr)
    ensures AllTimes([sh], p) == Times(sh, p)
  {
    assert [sh][1..] == [];
  }

  lemma {:induction false} ReadyInside(s: State, s1: State, sh: Shape, H: seq<Decl>)
    requires Ready(s, [sh], H) && s1 == FlattenEnter(s, sh.p).0
    ensures Ready(s1, sh.kids, H) && s1.mem == s.mem && s1.head == s.head && s1.tail == s.tail
    ensures sh.p in s.mem && sh.p != NULL && Items(s.mem, sh.p).Some?
    ensures Children(Items(s.mem, sh.p).value) == Roots(sh.kids)
    ensures AllTimes(sh.kids, sh.p) == 0 && sh.p !in Ptrs(H)
    ensures forall p :: Times(sh, p) <= 1
  {
    assert Shows(s.mem, [sh][0]) && Well(s.mem, [sh][0]);
    forall p
      ensures AllTimes(sh.kids, p) <= 1 && (p in Ptrs(H) ==> Times(sh, p) == 0) && Bag(H)[p] <= 1
      ensures Times(sh, p) <= 1
    {
      TimesOne(sh, p);
      assert AllTimes([sh], p) <= 1 && (p in Ptrs(H) ==> AllTimes([sh], p) == 0) && Bag(H)[p] <= 1;
    }
    assert Times(sh, sh.p) <= 1;
  }

  /** The node itself is untouched until it is left. */
  lemma {:induction false} NodeUntouched(s: State, s1: State, s2: State, sh: Shape, H: seq<Decl>)
    requires Ready(s, [sh], H) && s1 == FlattenEnter(s, sh.p).0 && Framed(s1, s2, sh.kids)
    ensures sh.p in s2.mem && s2.mem[sh.p] == s.mem[sh.p]
  {
    ReadyInside(s, s1, sh, H);
    LastHoisted(H, []);
    assert SameBut(s1.mem, s2.mem, if s1.head != NULL then s1.tail else NULL, sh.p);
  }

  lemma {:induction false} FlatAllAt(mem: Memory, shs: seq<Shape>, i: nat)
    requires i < |shs|
    ensures |FlatAll(mem, shs)| == |shs| && FlatAll(mem, shs)[i] == Flat(mem, shs[i])
    decreases |shs|
  {
    if i > 0 {
      FlatAllAt(mem, shs[1..], i - 1);
    } else if |shs| > 1 {
      FlatAllAt(mem, shs[1..], 0);
    }
  }

  lemma {:induction false} SpliceOnce(mem: Memory, sh: Shape, p: Ptr)
    requires Times(sh, p) <= 1
    ensures var rs := FlatAll(mem, sh.kids);
            DeclTimes(Splice(rs), p) + DeclTimes(Hoists(rs), p) == AllTimes(sh.kids, p)
            && DeclTimes(Splice(rs), p) <= 1 && (p == sh.p ==> DeclTimes(Splice(rs), p) == 0)
  {
    FlatAllConserves(mem, sh.kids, p);
    ResultsSplit(FlatAll(mem, sh.kids), p);
  }

  // ---------------------------------------------------------------- leaving a type

  /** Before a type is left: its spliced contents are to be swept. */
  lemma {:induction false} ReadyToSweep(s: State, s1: State, s2: State, sh: Shape, H: seq<Decl>)
    requires Ready(s, [sh], H) && sh.p in s.mem && IsSue(s.mem[sh.p].kind) && s1 == FlattenEnter(s, sh.p).0
    requires AllVisited(s1, s2, sh.kids, FlatAll(s.mem, sh.kids), H)
    ensures var n, rs := sh.p, FlatAll(s.mem, sh.kids);
            Sweeping(s2.(sues := s.sues), n, [], Kid(s.mem[n], 0), Splice(rs), [], s.mem[n].next, H + Hoists(rs))
  {
    var n, rs := sh.p, FlatAll(s.mem, sh.kids);
    ReadyInside(s, s1, sh, H);
    NodeUntouched(s, s1, s2, sh, H);
    ContentsSpliced(s, s1, s2, sh, H);
    AllPlaced(s1, s2, sh.kids, rs);
    assert Ptrs([]) == [];
    SweepOnce(s, s2, sh, H);
  }

  lemma {:induction false} ContentsSpliced(s: State, s1: State, s2: State, sh: Shape, H: seq<Decl>)
    requires Ready(s, [sh], H) && sh.p in s.mem && s1.mem == s.mem
    requires IsSue(s.mem[sh.p].kind) || s.mem[sh.p].kind.PROGRAM?
    requires AllVisited(s1, s2, sh.kids, FlatAll(s.mem, sh.kids), H)
    ensures Seg(s2.mem, Kid(s.mem[sh.p], 0), Ptrs(Splice(FlatAll(s.mem, sh.kids))), NULL)
    ensures s.mem[sh.p].kids == [] ==> sh.kids == []
  {
    var n, head := sh.p, Kid(s.mem[sh.p], 0);
    assert Shows(s.mem, [sh][0]) && Well(s.mem, [sh][0]);
    TypeHasOneList(s.mem[n]);
    assert Fields(s.mem[n])[0] in Fields(s.mem[n]) && WellField(s.mem, n, Listed(head));
    var ps := ListAt(s.mem, head).value;
    forall i | 0 <= i < |ps| ensures ps[i] != NULL { assert ps[i] in ps; }
    ManyChildren(n, ps, 0);
    OneListItems(s.mem, n, head);
    ChainIsSeg(s.mem, head, |s.mem|);
    ListSpliced(s.mem, s1, s2, head, sh.kids, FlatAll(s.mem, sh.kids), NULL);
    if s.mem[n].kids == [] { assert |Roots(sh.kids)| == 0; }
  }

  lemma {:induction false} TypeHasOneList(c: Cell)
    requires IsSue(c.kind) || c.kind.PROGRAM?
    ensures Fields(c) == [Listed(Kid(c, 0))]
  {
  }

  lemma {:induction false} OneListItems(mem: Memory, n: Ptr, head: Ptr)
    requires ListAt(mem, head).Some?
    ensures AllItems(mem, n, [Listed(head)]) == Some(Many(n, ListAt(mem, head).value, 0))
  {
    var fs := [Listed(head)];
    assert fs[1..] == [];
    var items := Many(n, ListAt(mem, head).value, 0);
    assert items + [] == items;
  }

  lemma {:induction false} SweepOnce(s: State, s2: State, sh: Shape, H: seq<Decl>)
    requires Ready(s, [sh], H) && s2.mem.Keys == s.mem.Keys
    requires Placed(s2.mem, Splice(FlatAll(s.mem, sh.kids))) && Placed(s2.mem, Hoists(FlatAll(s.mem, sh.kids)))
    ensures var rs := FlatAll(s.mem, sh.kids);
            Once(sh.p, Bag([]) + Bag(Splice(rs)) + Bag([]) + Bag(H + Hoists(rs)))
  {
    var n, rs := sh.p, FlatAll(s.mem, sh.kids);
    var s1 := FlattenEnter(s, n).0;
    ReadyInside(s, s1, sh, H);
    PtrsConcat(H, Hoists(rs));
    assert Bag([]) == multiset{};
    var all := Bag([]) + Bag(Splice(rs)) + Bag([]) + Bag(H + Hoists(rs));
    forall p ensures all[p] <= 1 && (p == n || p == NULL ==> all[p] == 0) {
      TimesOne(sh, p);
      assert AllTimes([sh], p) <= 1 && (p in Ptrs(H) ==> AllTimes([sh], p) == 0) && Bag(H)[p] <= 1;
      SpliceOnce(s.mem, sh, p);
      BagTimes(Splice(rs), p);
      BagTimes(Hoists(rs), p);
      assert all[p] == Bag(Splice(rs))[p] + (Bag(H)[p] + Bag(Hoists(rs))[p]);
      if p == NULL { NothingAtNull(s, sh, H); }
    }
  }

  lemma {:induction false} NothingAtNull(s: State, sh: Shape, H: seq<Decl>)
    requires Ready(s, [sh], H)
    ensures Times(sh, NULL) == 0 && NULL !in Ptrs(H)
  {
    assert Shows(s.mem, [sh][0]);
    if Times(sh, NULL) > 0 { ShownInMemory(s.mem, sh, NULL); }
    forall i | 0 <= i < |H| ensures Ptrs(H)[i] != NULL { assert H[i].sh.p in s.mem; }
  }

  /** The contents of a type are no more nodes than the memory has. */
  lemma {:induction false} FuelSuffices(s: State, n: Ptr, child: Ptr, R: seq<Decl>, end: Ptr, H: seq<Decl>)
    requires Sweeping(s, n, [], child, R, [], end, H)
    ensures |R| <= |s.mem|
  {
    var all := Bag([]) + Bag(R) + Bag([]) + Bag(H);
    forall p ensures multiset(Ptrs(R))[p] <= 1 { assert all[p] >= Bag(R)[p]; }
    BagNoDup(Ptrs(R));
    forall i | 0 <= i < |R| ensures Ptrs(R)[i] in s.mem.Keys { SegInside(s.mem, child, Ptrs(R), NULL, i); }
    FewerThan(Ptrs(R), s.mem.Keys);
    assert |s.mem| == |s.mem.Keys|;
  }

  /** Leaving a type runs the loop over its spliced contents. */
  lemma {:induction false} LeaveType(s: State, s1: State, s2: State, sh: Shape, H: seq<Decl>) returns (s': State)
    requires Ready(s, [sh], H) && sh.p in s.mem && IsSue(s.mem[sh.p].kind) && s1 == FlattenEnter(s, sh.p).0
    requires AllVisited(s1, s2, sh.kids, FlatAll(s.mem, sh.kids), H)
    ensures s' == FlattenExit(s2, sh.p)
    ensures Touching(s2.(sues := s.sues), s', sh.p, [], Splice(FlatAll(s.mem, sh.kids)),
                     H + Hoists(FlatAll(s.mem, sh.kids)))
    ensures var R, H2, name := Splice(FlatAll(s.mem, sh.kids)), H + Hoists(FlatAll(s.mem, sh.kids)),
                               s.mem[sh.p].tok.text;
            Sweeping(s', sh.p, Keep(R), NULL, [], Methods(name, R), s.mem[sh.p].next, H2 + Sues(R))
  {
    var n, R, H2 := sh.p, Splice(FlatAll(s.mem, sh.kids)), H + Hoists(FlatAll(s.mem, sh.kids));
    var sue, s3 := s.mem[n].tok.text, s2.(sues := s.sues);
    ReadyToSweep(s, s1, s2, sh, H);
    NodeUntouched(s, s1, s2, sh, H);
    FuelSuffices(s3, n, Kid(s.mem[n], 0), R, s.mem[n].next, H2);
    SweepLoops(n, sue);
    Popped(s, s1, s2, sue);
    s' := SweepSplices(Looping(n, sue), s3, n, Kid(s.mem[n], 0), R, s.mem[n].next, H2, sue, |s2.mem|);
  }

  lemma {:induction false} Popped(s: State, s1: State, s2: State, sue: Text)
    requires s1.sues == s.sues + [sue] && s2.sues == s1.sues
    ensures s2.sues != [] && s2.sues[|s2.sues| - 1] == sue && s2.sues[..|s2.sues| - 1] == s.sues
  {
  }

  /** Leaving a node that is no type. */
  lemma {:induction false} LeaveOther(s: State, s2: State, sh: Shape, H: seq<Decl>)
    requires Ready(s, [sh], H) && sh.p in s.mem && !IsSue(s.mem[sh.p].kind)
    requires AllVisited(s, s2, sh.kids, FlatAll(s.mem, sh.kids), H)
    ensures FlattenExit(s2, sh.p) == s2 && Flattened(s, s2, sh, Flat(s.mem, sh), H)
  {
    var n, rs, r := sh.p, FlatAll(s.mem, sh.kids), Flat(s.mem, sh);
    ReadyInside(s, s, sh, H);
    NodeUntouched(s, s, s2, sh, H);
    assert [sh][1..] == [] && [sh][0] == sh;
    assert Well(s.mem, [sh][0]) && Shows(s.mem, [sh][0]);
    forall p ensures DeclTimes(Splice(rs), p) <= 1 && (p == n ==> DeclTimes(Splice(rs), p) == 0) {
      assert AllTimes([sh], p) <= 1;
      SpliceOnce(s.mem, sh, p);
    }
    forall i | 0 <= i < |sh.kids| && sh.kids[i].p in s.mem && !IsSue(s.mem[sh.kids[i].p].kind)
      ensures rs[i].after == []
    {
      FlatAllAt(s.mem, sh.kids, i);
    }
    FieldsSpliced(s, s2, n, Fields(s.mem[n]), sh.kids, rs);
    AllPlaced(s, s2, sh.kids, rs);
    RebuiltGood(s2.mem, n, Splice(rs));
    Empty([r.self]);
    assert Placed(s2.mem, [r.self]);
  }

  /** A node over declarations in their places is in its place. */
  lemma {:induction false} RebuiltGood(mem: Memory, n: Ptr, ds: seq<Decl>)
    requires n in mem && Items(mem, n).Some? && Children(Items(mem, n).value) == Ptrs(ds) && Placed(mem, ds)
    requires forall f :: f in Fields(mem[n]) ==> !InField(mem, f, n)
    requires IsSue(mem[n].kind) ==> forall i :: 0 <= i < |ds| ==> !IsSue(ds[i].kind) && !ds[i].kind.FUNC?
    ensures Good(mem, Shape(n, Shapes(ds)))
  {
    assert Roots(Shapes(ds)) == Ptrs(ds);
    forall i | 0 <= i < |Shapes(ds)|
      ensures Shows(mem, Shapes(ds)[i]) && Clean(mem, Shapes(ds)[i]) && mem[Shapes(ds)[i].p].kind == ds[i].kind
    {
      assert Good(mem, ds[i].sh);
    }
  }

  /** After a type has been left it and everything from under it is in its place. */
  lemma {:induction false} TypeLeft(s: State, s1: State, s2: State, s': State, sh: Shape, H: seq<Decl>)
    requires Ready(s, [sh], H) && sh.p in s.mem && IsSue(s.mem[sh.p].kind) && s1 == FlattenEnter(s, sh.p).0
    requires AllVisited(s1, s2, sh.kids, FlatAll(s.mem, sh.kids), H)
    requires Touching(s2.(sues := s.sues), s', sh.p, [], Splice(FlatAll(s.mem, sh.kids)),
                      H + Hoists(FlatAll(s.mem, sh.kids)))
    requires var R, H2, name := Splice(FlatAll(s.mem, sh.kids)), H + Hoists(FlatAll(s.mem, sh.kids)),
                                s.mem[sh.p].tok.text;
             Sweeping(s', sh.p, Keep(R), NULL, [], Methods(name, R), s.mem[sh.p].next, H2 + Sues(R))
    ensures Flattened(s, s', sh, Flat(s.mem, sh), H)
  {
    Assoc(H, Hoists(FlatAll(s.mem, sh.kids)), Sues(Splice(FlatAll(s.mem, sh.kids))));
    TypeFramed(s, s1, s2, s', sh, H);
    TypePlaced(s, s1, s2, s', sh, H);
  }

  lemma {:induction false} TypePlaced(s: State, s1: State, s2: State, s': State, sh: Shape, H: seq<Decl>)
    requires Ready(s, [sh], H) && sh.p in s.mem && IsSue(s.mem[sh.p].kind) && s1 == FlattenEnter(s, sh.p).0
    requires AllVisited(s1, s2, sh.kids, FlatAll(s.mem, sh.kids), H)
    requires Touching(s2.(sues := s.sues), s', sh.p, [], Splice(FlatAll(s.mem, sh.kids)),
                      H + Hoists(FlatAll(s.mem, sh.kids)))
    requires var R, H2, name := Splice(FlatAll(s.mem, sh.kids)), H + Hoists(FlatAll(s.mem, sh.kids)),
                                s.mem[sh.p].tok.text;
             Sweeping(s', sh.p, Keep(R), NULL, [], Methods(name, R), s.mem[sh.p].next, H2 + Sues(R))
    ensures KidVisited(s, s', sh, Flat(s.mem, sh))
  {
    var n, rs, r := sh.p, FlatAll(s.mem, sh.kids), Flat(s.mem, sh);
    var R, name := Splice(rs), s.mem[n].tok.text;
    ReadyInside(s, s1, sh, H);
    NodeUntouched(s, s1, s2, sh, H);
    AllPlaced(s1, s2, sh.kids, rs);
    ContentsGood(s, s2, s', sh, H);
    PartsGood(s'.mem, name, R, Hoists(rs));
    Counts(s, sh, H, n);
    SelfLabel(s, s2, s', n, R, H + Hoists(rs));
    Assoc(H, Hoists(rs), Sues(R));
    TypeInPlace(s, s', n, R, Hoists(rs), H, r);
  }

  lemma {:induction false} TypeInPlace(s: State, s': State, n: Ptr, R: seq<Decl>, hs: seq<Decl>, H: seq<Decl>,
                                       r: Result)
    requires n in s.mem && IsSue(s.mem[n].kind) && n in s'.mem && NULL !in s'.mem
    requires s'.mem[n].kind == s.mem[n].kind && s'.mem[n].tok == s.mem[n].tok
    requires forall d :: d in Keep(R) ==> Good(s'.mem, d.sh) && !IsSue(d.kind) && !d.kind.FUNC?
    requires forall d :: d in Methods(s.mem[n].tok.text, R) ==> Good(s'.mem, d.sh)
    requires forall d :: d in hs + Sues(R) ==> Good(s'.mem, d.sh)
    requires Sweeping(s', n, Keep(R), NULL, [], Methods(s.mem[n].tok.text, R), s.mem[n].next, H + (hs + Sues(R)))
    requires r == Result(Decl(Shape(n, Shapes(Keep(R))), s.mem[n].kind, s.mem[n].tok.text),
                         Methods(s.mem[n].tok.text, R), hs + Sues(R))
    ensures KidVisited(s, s', Shape(n, []), r)
  {
    LabelledTail(s'.mem, H, r.hoisted);
    assert Placed(s'.mem, Keep(R)) && Placed(s'.mem, r.after) && Placed(s'.mem, r.hoisted);
    SelfPlaced(s', n, Keep(R), r.after, H + r.hoisted);
    assert Placed(s'.mem, [r.self]);
    PlacedConcat(s'.mem, [r.self], r.after);
  }

  lemma {:induction false} PartsGood(mem: Memory, sue: Text, R: seq<Decl>, hs: seq<Decl>)
    requires (forall d :: d in R ==> Good(mem, d.sh)) && forall d :: d in hs ==> Good(mem, d.sh)
    ensures forall d :: d in Keep(R) ==> Good(mem, d.sh) && !IsSue(d.kind) && !d.kind.FUNC?
    ensures forall d :: d in Methods(sue, R) ==> Good(mem, d.sh)
    ensures forall d :: d in hs + Sues(R) ==> Good(mem, d.sh)
  {
    forall d | d in Keep(R) ensures Good(mem, d.sh) && !IsSue(d.kind) && !d.kind.FUNC? { KeepInside(R, d); }
    forall d | d in Methods(sue, R) ensures Good(mem, d.sh) {
      MethodsInside(sue, R, d);
      var e :| e in R && e.sh == d.sh;
    }
    forall d | d in hs + Sues(R) ensures Good(mem, d.sh) {
      if d !in hs { SuesInside(R, d); }
    }
  }

  lemma {:induction false} LabelledTail(mem: Memory, a: seq<Decl>, b: seq<Decl>)
    requires Labelled(mem, a + b)
    ensures Labelled(mem, b)
  {
    forall i | 0 <= i < |b|
      ensures b[i].sh.p in mem && mem[b[i].sh.p].kind == b[i].kind && mem[b[i].sh.p].tok.text == b[i].name
    {
      assert (a + b)[|a| + i] == b[i];
    }
  }

  /** The type itself keeps its kind and its name. */
  lemma {:induction false} SelfLabel(s: State, s2: State, s': State, n: Ptr, R: seq<Decl>, H2: seq<Decl>)
    requires n in s.mem && n in s2.mem && s2.mem[n] == s.mem[n] && Touching(s2.(sues := s.sues), s', n, [], R, H2)
    requires n !in Bag(R)
    ensures n in s'.mem && s'.mem[n].kind == s.mem[n].kind && s'.mem[n].tok == s.mem[n].tok
  {
  }

  lemma {:induction false} SelfPlaced(s': State, n: Ptr, K: seq<Decl>, A: seq<Decl>, H: seq<Decl>)
    requires n in s'.mem && IsSue(s'.mem[n].kind) && NULL !in s'.mem && Seg(s'.mem, Kid(s'.mem[n], 0), Ptrs(K), NULL)
    requires Once(n, Bag(K) + Bag([]) + Bag(A) + Bag(H)) && Placed(s'.mem, K)
    requires forall i :: 0 <= i < |K| ==> !IsSue(K[i].kind) && !K[i].kind.FUNC?
    ensures Good(s'.mem, Shape(n, Shapes(K)))
  {
    var all := Bag(K) + Bag([]) + Bag(A) + Bag(H);
    forall p ensures multiset(Ptrs(K))[p] <= 1 { assert all[p] >= Bag(K)[p]; }
    BagNoDup(Ptrs(K));
    assert n !in Ptrs(K) by { assert n !in all; }
    ListPlaced(s'.mem, n, K);
  }

  /** A node with one list, of declarations in their places. */
  lemma {:induction false} ListPlaced(mem: Memory, n: Ptr, ds: seq<Decl>)
    requires n in mem && (IsSue(mem[n].kind) || mem[n].kind.PROGRAM?) && Seg(mem, Kid(mem[n], 0), Ptrs(ds), NULL)
    requires NoDup(Ptrs(ds)) && n !in Ptrs(ds) && Placed(mem, ds)
    requires IsSue(mem[n].kind) ==> forall i :: 0 <= i < |ds| ==> !IsSue(ds[i].kind) && !ds[i].kind.FUNC?
    ensures Good(mem, Shape(n, Shapes(ds)))
  {
    var head := Kid(mem[n], 0);
    SegIsList(mem, head, Ptrs(ds));
    TypeHasOneList(mem[n]);
    OneListItems(mem, n, head);
    forall i | 0 <= i < |ds| ensures Ptrs(ds)[i] != NULL { SegInside(mem, head, Ptrs(ds), NULL, i); }
    ManyChildren(n, Ptrs(ds), 0);
    RebuiltGood(mem, n, ds);
  }

  lemma {:induction false} TypeFramed(s: State, s1: State, s2: State, s': State, sh: Shape, H: seq<Decl>)
    requires Ready(s, [sh], H) && sh.p in s.mem && s1 == FlattenEnter(s, sh.p).0
    requires AllVisited(s1, s2, sh.kids, FlatAll(s.mem, sh.kids), H)
    requires Touching(s2.(sues := s.sues), s', sh.p, [], Splice(FlatAll(s.mem, sh.kids)),
                      H + Hoists(FlatAll(s.mem, sh.kids)))
    ensures Framed(s, s', [sh])
  {
    var n, rs, t := sh.p, FlatAll(s.mem, sh.kids), if s.head != NULL then s.tail else NULL;
    var H2 := H + Hoists(rs);
    ReadyInside(s, s1, sh, H);
    LastHoisted(H, Hoists(rs));
    Empty(H);
    assert Bag([]) == multiset{};
    forall p | p in s.mem && AllTimes([sh], p) == 0 ensures SameBut(s.mem, s'.mem, t, p) {
      TimesOne(sh, p);
      SpliceOnce(s.mem, sh, p);
      BagTimes(Splice(rs), p);
      assert SameBut(s1.mem, s2.mem, t, p);
      assert p !in Bag(Splice(rs));
      if p in LastBag(H2) { assert Touched(s2.mem[p], s'.mem[p]); }
    }
  }

  lemma {:induction false} KeepInside(ds: seq<Decl>, d: Decl)
    requires d in Keep(ds)
    ensures d in ds && !IsSue(d.kind) && !d.kind.FUNC?
  {
    if d in Keep(ds[1..]) { KeepInside(ds[1..], d); }
  }

  lemma {:induction false} SuesInside(ds: seq<Decl>, d: Decl)
    requires d in Sues(ds)
    ensures d in ds
  {
    if d in Sues(ds[1..]) { SuesInside(ds[1..], d); }
  }

  lemma {:induction false} MethodsInside(sue: Text, ds: seq<Decl>, d: Decl)
    requires d in Methods(sue, ds)
    ensures exists e :: e in ds && e.sh == d.sh && e.kind.FUNC? && d.name == Prefixed(sue, e.name)
  {
    if d in Methods(sue, ds[1..]) {
      MethodsInside(sue, ds[1..], d);
      var e :| e in ds[1..] && e.sh == d.sh && e.kind.FUNC? && d.name == Prefixed(sue, e.name);
      assert e in ds;
    } else {
      assert ds[0] in ds;
    }
  }

  /** The spliced contents and the types hoisted from under them are trees as before. */
  lemma {:induction false} ContentsGood(s: State, s2: State, s': State, sh: Shape, H: seq<Decl>)
    requires Ready(s, [sh], H) && s2.mem.Keys == s.mem.Keys
    requires Placed(s2.mem, Splice(FlatAll(s.mem, sh.kids))) && Placed(s2.mem, Hoists(FlatAll(s.mem, sh.kids)))
    requires Touching(s2.(sues := s.sues), s', sh.p, [], Splice(FlatAll(s.mem, sh.kids)),
                      H + Hoists(FlatAll(s.mem, sh.kids)))
    ensures forall d :: d in Splice(FlatAll(s.mem, sh.kids)) ==> Good(s'.mem, d.sh)
    ensures forall d :: d in Hoists(FlatAll(s.mem, sh.kids)) ==> Good(s'.mem, d.sh)
  {
    var n, rs := sh.p, FlatAll(s.mem, sh.kids);
    forall i | 0 <= i < |Splice(rs)| ensures GoodDecl(s'.mem, Splice(rs)[i]) { SplicedKept(s, s2, s', sh, H, i); }
    forall i | 0 <= i < |Hoists(rs)| ensures GoodDecl(s'.mem, Hoists(rs)[i]) { HoistedKept(s, s2, s', sh, H, i); }
    AllGood(s'.mem, Splice(rs));
    AllGood(s'.mem, Hoists(rs));
  }

  ghost predicate GoodDecl(mem: Memory, d: Decl) {
    Good(mem, d.sh)
  }

  lemma {:induction false} AllGood(mem: Memory, ds: seq<Decl>)
    requires forall i :: 0 <= i < |ds| ==> GoodDecl(mem, ds[i])
    ensures forall d :: d in ds ==> Good(mem, d.sh)
  {
    forall d | d in ds ensures Good(mem, d.sh) {
      assert GoodDecl(mem, d);
    }
  }

  /** An address inside the tree of a spliced child, but not its root, is touched by no one. */
  lemma {:induction false} SplicedKept(s: State, s2: State, s': State, sh: Shape, H: seq<Decl>, i: nat)
    requires Ready(s, [sh], H) && s2.mem.Keys == s.mem.Keys && i < |Splice(FlatAll(s.mem, sh.kids))|
    requires Placed(s2.mem, Splice(FlatAll(s.mem, sh.kids)))
    requires Touching(s2.(sues := s.sues), s', sh.p, [], Splice(FlatAll(s.mem, sh.kids)),
                      H + Hoists(FlatAll(s.mem, sh.kids)))
    ensures Good(s'.mem, Splice(FlatAll(s.mem, sh.kids))[i].sh)
  {
    var n, rs := sh.p, FlatAll(s.mem, sh.kids);
    var R, x := Splice(rs), Splice(rs)[i].sh;
    assert Bag([]) == multiset{};
    forall p | p in s2.mem && Times(x, p) > 0 && p != x.p ensures s'.mem[p] == s2.mem[p] {
      SplicedInner(s, sh, H, i, p);
    }
    forall p ensures Times(x, p) <= 1 { Counts(s, sh, H, p); DeclTimesAt(R, i, p); }
    Counts(s, sh, H, x.p);
    DeclTimesAt(R, i, x.p);
    assert Ptrs(R)[i] == x.p;
    if x.p in s2.mem { assert Touched(s2.mem[x.p], s'.mem[x.p]); }
    assert Good(s2.mem, R[i].sh);
    GoodKept(s2.mem, s'.mem, x);
  }

  lemma {:induction false} SplicedInner(s: State, sh: Shape, H: seq<Decl>, i: nat, p: Ptr)
    requires Ready(s, [sh], H) && i < |Splice(FlatAll(s.mem, sh.kids))|
    requires var x := Splice(FlatAll(s.mem, sh.kids))[i].sh; Times(x, p) > 0 && p != x.p
    ensures p != sh.p && p !in Bag(Splice(FlatAll(s.mem, sh.kids)))
    ensures p !in LastBag(H + Hoists(FlatAll(s.mem, sh.kids)))
  {
    var R := Splice(FlatAll(s.mem, sh.kids));
    Counts(s, sh, H, p);
    DeclTimesAt(R, i, p);
    if p in Ptrs(R) {
      var j :| 0 <= j < |R| && Ptrs(R)[j] == p;
      RootCounts(R, i, j, p);
    }
  }

  lemma {:induction false} RootCounts(R: seq<Decl>, i: nat, j: nat, p: Ptr)
    requires i < |R| && j < |R| && R[j].sh.p == p && R[i].sh.p != p && Times(R[i].sh, p) > 0
    ensures DeclTimes(R, p) >= 2
  {
    if i < j { DeclTimesTwo(R, i, j, p); } else { DeclTimesTwo(R, j, i, p); }
  }

  /** Nothing occurs twice among the contents, the hoisted types and the type itself. */
  lemma {:induction false} Counts(s: State, sh: Shape, H: seq<Decl>, p: Ptr)
    requires Ready(s, [sh], H)
    ensures var rs := FlatAll(s.mem, sh.kids);
            && DeclTimes(Splice(rs), p) + DeclTimes(Hoists(rs), p) + (if p == sh.p then 1 else 0) <= 1
            && (DeclTimes(Splice(rs), p) + DeclTimes(Hoists(rs), p) > 0 ==> p !in Ptrs(H))
            && (p in LastBag(H + Hoists(rs)) ==>
                  p in Ptrs(H) || (p == LastPtr(Hoists(rs)) && DeclTimes(Hoists(rs), p) > 0))
            && (p in Bag(Splice(rs)) ==> DeclTimes(Splice(rs), p) > 0)
  {
    var rs := FlatAll(s.mem, sh.kids);
    TimesOne(sh, p);
    assert AllTimes([sh], p) <= 1 && (p in Ptrs(H) ==> AllTimes([sh], p) == 0);
    SpliceOnce(s.mem, sh, p);
    BagTimes(Splice(rs), p);
    LastHoisted(H, Hoists(rs));
    Empty(H);
  }

  lemma {:induction false} HoistedKept(s: State, s2: State, s': State, sh: Shape, H: seq<Decl>, i: nat)
    requires Ready(s, [sh], H) && s2.mem.Keys == s.mem.Keys && i < |Hoists(FlatAll(s.mem, sh.kids))|
    requires Placed(s2.mem, Hoists(FlatAll(s.mem, sh.kids)))
    requires Touching(s2.(sues := s.sues), s', sh.p, [], Splice(FlatAll(s.mem, sh.kids)),
                      H + Hoists(FlatAll(s.mem, sh.kids)))
    ensures Good(s'.mem, Hoists(FlatAll(s.mem, sh.kids))[i].sh)
  {
    var n, rs := sh.p, FlatAll(s.mem, sh.kids);
    var hs, x := Hoists(rs), Hoists(rs)[i].sh;
    assert Bag([]) == multiset{};
    forall p | p in s2.mem && Times(x, p) > 0 && p != x.p ensures s'.mem[p] == s2.mem[p] {
      HoistedInner(s, sh, H, i, p);
    }
    forall p ensures Times(x, p) <= 1 && (p == x.p ==> p != n && p !in Bag(Splice(rs))) {
      Counts(s, sh, H, p);
      DeclTimesAt(hs, i, p);
    }
    assert x.p != n && x.p !in Bag(Splice(rs));
    assert Good(s2.mem, hs[i].sh);
    if x.p in LastBag(H + hs) { assert Touched(s2.mem[x.p], s'.mem[x.p]); }
    GoodKept(s2.mem, s'.mem, x);
  }

  lemma {:induction false} HoistedInner(s: State, sh: Shape, H: seq<Decl>, i: nat, p: Ptr)
    requires Ready(s, [sh], H) && i < |Hoists(FlatAll(s.mem, sh.kids))|
    requires var x := Hoists(FlatAll(s.mem, sh.kids))[i].sh; Times(x, p) > 0 && p != x.p
    ensures p != sh.p && p !in Bag(Splice(FlatAll(s.mem, sh.kids)))
    ensures p !in LastBag(H + Hoists(FlatAll(s.mem, sh.kids)))
  {
    var hs := Hoists(FlatAll(s.mem, sh.kids));
    Counts(s, sh, H, p);
    DeclTimesAt(hs, i, p);
    if p == LastPtr(hs) { RootCounts(hs, i, |hs| - 1, p); }
  }

  // ---------------------------------------------------------------- flatten_sues

  /** The loop of flatten_exit. */
  method LeaveLoop(s: State, n: Ptr) returns (s': State)
    ensures s' == FlattenExit(s, n)
  {
    if n !in s.mem || !IsSue(s.mem[n].kind) || s.sues == [] { return s; }
    var sue := s.sues[|s.sues| - 1];
    s' := s.(sues := s.sues[..|s.sues| - 1]);
    var prev, child, left: nat := NULL, Kid(s.mem[n], 0), |s.mem|;
    while child != NULL && left > 0 && child in s'.mem && n in s'.mem && s'.mem[n].kids != []
          && (prev == NULL || prev in s'.mem) && (s'.head == NULL || s'.tail in s'.mem)
      invariant Sweep(s', n, prev, child, sue, left) == FlattenExit(s, n)
      decreases left
    {
      var next := s'.mem[child].next;
      if s'.mem[child].kind.FUNC? {
        s' := s'.(mem := Behind(SetLink(s'.mem, n, prev, next), n, child, sue));
      } else if IsSue(s'.mem[child].kind) {
        s' := Hoist(s'.(mem := SetLink(s'.mem, n, prev, next)), child);
      } else {
        prev := child;
      }
      child, left := next, left - 1;
    }
  }
}
