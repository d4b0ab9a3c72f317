/** Scope resolution (src/sem.c, resolve_scopes): one mutable stack of hash tables driven by
    visitor callbacks, against a resolver that passes environments down the tree. */
module Scopes {
  import opened Ast
  import opened Visitor

  type Name = seq<byte>

  datatype SymKind = SYM_FUNC | SYM_ENUM | SYM_STRUCT | SYM_UNION | SYM_VAR

  datatype Sym = Sym(kind: SymKind, decl: Ptr, importedMod: bool)

  type Scope = map<Name, Sym>

  const SELF: Name := [115, 101, 108, 102]   // "self"

  // ---------------------------------------------------------------- the scope stack

  /** scope_lookup from the innermost of the first `n` scopes outwards.  A name without text
      is a NULL key, which a hash table never finds. */
  function Lookup(scopes: seq<Scope>, key: Name): Option<Sym> {
    if scopes == [] || key == [] then None
    else
      var top := |scopes| - 1;
      if key in scopes[top] then Some(scopes[top][key]) else Lookup(scopes[..top], key)
  }

  /** scope_declare: the first declaration of a name in a scope stays. */
  function Declared(scope: Scope, name: Name, sym: Sym): Scope {
    if name == [] || name in scope then scope else scope[name := sym]
  }

  predicate Duplicate(scope: Scope, name: Name) {
    name in scope && name != []
  }

  class ScopeStack {
    var scopes: seq<Scope>

    constructor ()
      ensures scopes == []
    {
      scopes := [];
    }

    method PushScope()
      modifies this
      ensures scopes == old(scopes) + [map[]]
    {
      scopes := scopes + [map[]];
    }

    method PopScope()
      modifies this
      ensures scopes == if old(scopes) == [] then [] else old(scopes)[..|old(scopes)| - 1]
    {
      if |scopes| > 0 {
        scopes := scopes[..|scopes| - 1];
      }
    }

    method ScopeLookup(key: Name) returns (r: Option<Sym>)
      ensures r == Lookup(scopes, key)
    {
      var i := |scopes|;
      assert scopes[..i] == scopes;
      while i > 0
        invariant 0 <= i <= |scopes|
        invariant Lookup(scopes, key) == Lookup(scopes[..i], key)
      {
        i := i - 1;
        if key != [] && key in scopes[i] { return Some(scopes[i][key]); }
        assert scopes[..i + 1][..i] == scopes[..i];
      }
      return None;
    }

    method ScopeDeclare(name: Name, sym: Sym) returns (ok: bool)
      requires scopes != []
      modifies this
      ensures ok == !Duplicate(old(scopes)[|old(scopes)| - 1], name)
      ensures scopes == old(scopes)[|old(scopes)| - 1 := Declared(old(scopes)[|old(scopes)| - 1], name, sym)]
    {
      var top := |scopes| - 1;
      if name != [] && name in scopes[top] { return false; }
      if name != [] {
        scopes := scopes[top := scopes[top][name := sym]];
      }
      return true;
    }
  }

  // ---------------------------------------------------------------- the visitor callbacks

  /** The pass state: `bound` is the res_sm field of identifiers, `errors` the nodes for
      which an error is reported. */
  datatype State = State(mem: Memory, scopes: seq<Scope>, bound: map<Ptr, Sym>, errors: seq<Ptr>)

  predicate OpensScope(k: Kind) {
    k.PROGRAM? || k.BLOCK? || k.FOR? || k.FUNC? || k.STRUCT? || k.UNION? || k.ENUM?
  }

  function Push(s: State, scope: Scope): State {
    s.(scopes := s.scopes + [scope])
  }

  function Declare(s: State, n: Ptr, name: Name, sym: Sym, report: bool): State
    requires s.scopes != []
  {
    var top := |s.scopes| - 1;
    s.(scopes := s.scopes[top := Declared(s.scopes[top], name, sym)],
       errors := if report && Duplicate(s.scopes[top], name) then s.errors + [n] else s.errors)
  }

  function SueKind(k: Kind): SymKind {
    if k.STRUCT? then SYM_STRUCT else if k.UNION? then SYM_UNION else SYM_ENUM
  }

  function EnterNode(s: State, n: Ptr): (State, VisitResult) {
    if n !in s.mem || s.scopes == [] then (s, Continue) else
    var c := s.mem[n];
    var name := c.tok.text;
    var s' := match c.kind
      case PROGRAM | BLOCK | FOR => Push(s, map[])
      case FUNC => Push(Declare(s, n, name, Sym(SYM_FUNC, n, false), true), map[])
      case PARAM | VAR_DECL => Declare(s, n, name, Sym(SYM_VAR, n, false), true)
      case IDENTIF =>
        (match Lookup(s.scopes, name)
         case None => s.(errors := s.errors + [n])
         case Some(sym) => s.(bound := s.bound[n := sym]))
      case STRUCT | UNION | ENUM =>
        var sym := Sym(SueKind(c.kind), n, false);
        Declare(Push(Declare(s, n, name, sym, false), map[]), n, SELF, sym, false)
      case _ => s;
    (s', Continue)
  }

  function ExitNode(s: State, n: Ptr): State {
    if n in s.mem && OpensScope(s.mem[n].kind) && s.scopes != []
    then s.(scopes := s.scopes[..|s.scopes| - 1])
    else s
  }

  function ScopeVisitor(): Visitor<State> {
    Visitor((s: State) => s.mem, (s: State, n: Ptr) => EnterNode(s, n), None,
            Some((s: State, n: Ptr) => ExitNode(s, n)))
  }

  // ---------------------------------------------------------------- the reference resolver

  /** What resolving a part of the tree yields: the names its enclosing scope now has, the
      identifiers bound, the errors. */
  datatype Out = Out(local: Scope, bound: map<Ptr, Sym>, errors: seq<Ptr>)

  function Add(o: Out, n: Ptr, name: Name, sym: Sym, report: bool): Out {
    o.(local := Declared(o.local, name, sym),
       errors := if report && Duplicate(o.local, name) then o.errors + [n] else o.errors)
  }

  /** What node `n` declares or looks up when it is met, and the names its own scope starts
      with, if it has one. */
  function Meet(mem: Memory, n: Ptr, outer: Scope, o: Out): (Out, Option<Scope>) {
    if n !in mem then (o, None) else
    var c, name := mem[n], mem[n].tok.text;
    match c.kind
    case PROGRAM | BLOCK | FOR => (o, Some(map[]))
    case FUNC => (Add(o, n, name, Sym(SYM_FUNC, n, false), true), Some(map[]))
    case PARAM | VAR_DECL => (Add(o, n, name, Sym(SYM_VAR, n, false), true), None)
    case IDENTIF =>
      var seen := outer + o.local;
      if name in seen && name != [] then (o.(bound := o.bound[n := seen[name]]), None)
      else (o.(errors := o.errors + [n]), None)
    case STRUCT | UNION | ENUM =>
      var sym := Sym(SueKind(c.kind), n, false);
      (Add(o, n, name, sym, false), Some(map[SELF := sym]))
    case _ => (o, None)
  }

  /** Resolve the tree `sh` in the scope `o.local`, inside enclosing scopes that together
      show the names `outer`: an inner name hides an outer one, a scope's names are visible
      from their declaration on, and they are gone when the scope ends. */
  function Resolve(mem: Memory, sh: Shape, outer: Scope, o: Out): Out
    decreases sh, 1
  {
    var (o', own) := Meet(mem, sh.p, outer, o);
    match own
    case Some(names) => Nested(mem, sh, outer, o', names)
    case None => ResolveAll(mem, sh.kids, outer, o')
  }

  /** The children of `sh` in a scope of their own that starts with the names `own`. */
  function Nested(mem: Memory, sh: Shape, outer: Scope, o: Out, own: Scope): Out
    decreases sh, 0
  {
    ResolveAll(mem, sh.kids, outer + o.local, o.(local := own)).(local := o.local)
  }

  function ResolveAll(mem: Memory, shs: seq<Shape>, outer: Scope, o: Out): Out
    decreases shs
  {
    if shs == [] then o else ResolveAll(mem, shs[1..], outer, Resolve(mem, shs[0], outer, o))
  }

  // ---------------------------------------------------------------- the two agree

  /** All names a stack of scopes shows. */
  function Visible(scopes: seq<Scope>): Scope {
    if scopes == [] then map[] else Visible(scopes[..|scopes| - 1]) + scopes[|scopes| - 1]
  }

  lemma {:induction false} LookupIsVisible(scopes: seq<Scope>, key: Name)
    requires key != []
    ensures Lookup(scopes, key) == if key in Visible(scopes) then Some(Visible(scopes)[key]) else None
  {
    if scopes != [] { LookupIsVisible(scopes[..|scopes| - 1], key); }
  }

  function StateOf(mem: Memory, outer: seq<Scope>, o: Out): State {
    State(mem, outer + [o.local], o.bound, o.errors)
  }

  lemma {:induction false} DeclareIsAdd(mem: Memory, outer: seq<Scope>, o: Out, n: Ptr, name: Name, sym: Sym,
                                        report: bool)
    ensures Declare(StateOf(mem, outer, o), n, name, sym, report) == StateOf(mem, outer, Add(o, n, name, sym, report))
  {
  }

  lemma {:induction false} EnterMeets(mem: Memory, n: Ptr, outer: seq<Scope>, o: Out)
    requires n in mem
    ensures var (o', own) := Meet(mem, n, Visible(outer), o);
            && EnterNode(StateOf(mem, outer, o), n) ==
                 (if own.Some? then Push(StateOf(mem, outer, o'), own.value) else StateOf(mem, outer, o'), Continue)
            && (own.Some? <==> OpensScope(mem[n].kind))
  {
    var c, name := mem[n], mem[n].tok.text;
    match c.kind
    case FUNC => DeclareIsAdd(mem, outer, o, n, name, Sym(SYM_FUNC, n, false), true);
    case PARAM | VAR_DECL => DeclareIsAdd(mem, outer, o, n, name, Sym(SYM_VAR, n, false), true);
    case IDENTIF =>
      if name != [] { LookupIsVisible(outer + [o.local], name); }
      assert (outer + [o.local])[..|outer|] == outer;
    case STRUCT | UNION | ENUM => TypeMeets(mem, outer, o, n, name, Sym(SueKind(c.kind), n, false));
    case _ =>
  }

  /** A type declares its name, and `self` in a scope of its own. */
  lemma {:induction false} TypeMeets(mem: Memory, outer: seq<Scope>, o: Out, n: Ptr, name: Name, sym: Sym)
    ensures Declare(Push(Declare(StateOf(mem, outer, o), n, name, sym, false), map[]), n, SELF, sym, false) ==
            Push(StateOf(mem, outer, Add(o, n, name, sym, false)), map[SELF := sym])
  {
    var o' := Add(o, n, name, sym, false);
    DeclareIsAdd(mem, outer, o, n, name, sym, false);
    DeclareIsAdd(mem, outer + [o'.local], o'.(local := map[]), n, SELF, sym, false);
  }

  lemma {:induction false} VisitResolves(mem: Memory, sh: Shape, outer: seq<Scope>, o: Out)
    requires Shows(mem, sh)
    ensures Visit(ScopeVisitor(), sh, StateOf(mem, outer, o)) ==
              Some((true, StateOf(mem, outer, Resolve(mem, sh, Visible(outer), o))))
    decreases sh, 1
  {
    EnterMeets(mem, sh.p, outer, o);
    var (o', own) := Meet(mem, sh.p, Visible(outer), o);
    if own.Some? {
      NestedResolves(mem, sh, outer, o', own.value);
    } else {
      ItemsResolve(mem, sh.p, Items(mem, sh.p).value, sh.kids, outer, o');
    }
  }

  /** A scope of its own: visited on the stack with one scope more, which is popped. */
  lemma {:induction false} NestedResolves(mem: Memory, sh: Shape, outer: seq<Scope>, o: Out, own: Scope)
    requires Shows(mem, sh) && OpensScope(mem[sh.p].kind)
    ensures Entered(ScopeVisitor(), sh, Push(StateOf(mem, outer, o), own)) ==
              Some((true, StateOf(mem, outer, Nested(mem, sh, Visible(outer), o, own))))
    decreases sh, 0
  {
    var inner := outer + [o.local];
    assert inner[..|outer|] == outer;
    assert Push(StateOf(mem, outer, o), own) == StateOf(mem, inner, o.(local := own));
    ItemsResolve(mem, sh.p, Items(mem, sh.p).value, sh.kids, inner, o.(local := own));
    var r := ResolveAll(mem, sh.kids, Visible(inner), o.(local := own));
    assert StateOf(mem, inner, r).scopes[..|inner|] == inner;
  }

  lemma {:induction false} ItemsResolve(mem: Memory, n: Ptr, items: seq<Item>, kids: seq<Shape>, outer: seq<Scope>,
                                        o: Out)
    requires Children(items) == Roots(kids)
    requires forall i :: 0 <= i < |kids| ==> Shows(mem, kids[i])
    ensures VisitItems(ScopeVisitor(), n, items, kids, StateOf(mem, outer, o)) ==
              Some((true, StateOf(mem, outer, ResolveAll(mem, kids, Visible(outer), o))))
    decreases kids, |items|
  {
    if items == [] {
      assert |Roots(kids)| == |kids|;
    } else if items[0].Gap? {
      ItemsResolve(mem, n, items[1..], kids, outer, o);
    } else {
      FirstChild(items, kids);
      VisitResolves(mem, kids[0], outer, o);
      ItemsResolve(mem, n, items[1..], kids[1..], outer, Resolve(mem, kids[0], Visible(outer), o));
    }
  }

  // ---------------------------------------------------------------- which declaration a name means

  /** Node `p` gives the name `x` a meaning in the scope around it, or in its own. */
  predicate Hides(mem: Memory, p: Ptr, x: Name) {
    p in mem
    && match mem[p].kind
       case FUNC | PARAM | VAR_DECL => mem[p].tok.text == x
       case STRUCT | UNION | ENUM => mem[p].tok.text == x || x == SELF
       case _ => false
  }

  /** No node of the tree does. */
  ghost predicate Silent(mem: Memory, sh: Shape, x: Name) {
    forall p :: p in Addresses(sh) ==> !Hides(mem, p, x)
  }

  /** Node `u` uses the name `x`. */
  predicate Uses(mem: Memory, u: Ptr, x: Name) {
    u in mem && mem[u].kind.IDENTIF? && mem[u].tok.text == x && x != []
  }

  ghost predicate SeenAs(scope: Scope, x: Name, sym: Sym) {
    x in scope && scope[x] == sym
  }

  /** What becomes of a node: the symbol it is bound to, and whether an error is reported for it. */
  datatype Fate = Fate(bound: Option<Sym>, reported: bool)

  const UNTOUCHED: Fate := Fate(None, false)

  ghost function FateOf(o: Out, u: Ptr): Fate {
    Fate(if u in o.bound then Some(o.bound[u]) else None, u in o.errors)
  }

  ghost function Meaning(scope: Scope, x: Name): Option<Sym> {
    if x in scope then Some(scope[x]) else None
  }

  /** An identifier is bound to the meaning of its name, or reported when there is none. */
  ghost function Verdict(meaning: Option<Sym>): Fate {
    Fate(meaning, meaning.None?)
  }

  lemma {:induction false} SilentKid(mem: Memory, sh: Shape, x: Name, i: nat)
    requires Silent(mem, sh, x) && i < |sh.kids|
    ensures Silent(mem, sh.kids[i], x)
  {
    forall p | p in Addresses(sh.kids[i]) ensures p in AllAddresses(sh.kids) { KidInside(sh.kids, i, p); }
  }

  /** A name that is in a scope keeps its first meaning there. */
  lemma {:induction false} FirstStays(mem: Memory, sh: Shape, outer: Scope, o: Out, x: Name, sym: Sym)
    requires SeenAs(o.local, x, sym)
    ensures SeenAs(Resolve(mem, sh, outer, o).local, x, sym)
    decreases sh, 1
  {
    var (o', own) := Meet(mem, sh.p, outer, o);
    if own.None? { FirstStaysAll(mem, sh.kids, outer, o', x, sym); }
  }

  lemma {:induction false} FirstStaysAll(mem: Memory, shs: seq<Shape>, outer: Scope, o: Out, x: Name, sym: Sym)
    requires SeenAs(o.local, x, sym)
    ensures SeenAs(ResolveAll(mem, shs, outer, o).local, x, sym)
    decreases shs, 0
  {
    if shs != [] {
      FirstStays(mem, shs[0], outer, o, x, sym);
      FirstStaysAll(mem, shs[1..], outer, Resolve(mem, shs[0], outer, o), x, sym);
    }
  }

  /** A silent tree does not bring a name into the scope around it. */
  lemma {:induction false} StaysOut(mem: Memory, sh: Shape, outer: Scope, o: Out, x: Name)
    requires Silent(mem, sh, x) && x !in o.local
    ensures x !in Resolve(mem, sh, outer, o).local
    decreases sh, 1
  {
    assert !Hides(mem, sh.p, x);
    var (o', own) := Meet(mem, sh.p, outer, o);
    if own.None? {
      forall i | 0 <= i < |sh.kids| ensures Silent(mem, sh.kids[i], x) { SilentKid(mem, sh, x, i); }
      StaysOutAll(mem, sh.kids, outer, o', x);
    }
  }

  lemma {:induction false} StaysOutAll(mem: Memory, shs: seq<Shape>, outer: Scope, o: Out, x: Name)
    requires (forall i :: 0 <= i < |shs| ==> Silent(mem, shs[i], x)) && x !in o.local
    ensures x !in ResolveAll(mem, shs, outer, o).local
    decreases shs, 0
  {
    if shs != [] {
      StaysOut(mem, shs[0], outer, o, x);
      StaysOutAll(mem, shs[1..], outer, Resolve(mem, shs[0], outer, o), x);
    }
  }

  /** Nothing happens to nodes outside the tree. */
  lemma {:induction false} OutsideStays(mem: Memory, sh: Shape, outer: Scope, o: Out, u: Ptr)
    requires u !in Addresses(sh)
    ensures FateOf(Resolve(mem, sh, outer, o), u) == FateOf(o, u)
    decreases sh, 1
  {
    var (o', own) := Meet(mem, sh.p, outer, o);
    if own.Some? {
      OutsideStaysAll(mem, sh.kids, outer + o'.local, o'.(local := own.value), u);
    } else {
      OutsideStaysAll(mem, sh.kids, outer, o', u);
    }
  }

  lemma {:induction false} OutsideStaysAll(mem: Memory, shs: seq<Shape>, outer: Scope, o: Out, u: Ptr)
    requires u !in AllAddresses(shs)
    ensures FateOf(ResolveAll(mem, shs, outer, o), u) == FateOf(o, u)
    decreases shs, 0
  {
    if shs != [] {
      OutsideStays(mem, shs[0], outer, o, u);
      OutsideStaysAll(mem, shs[1..], outer, Resolve(mem, shs[0], outer, o), u);
    }
  }

  /** A name means behind a silent tree what it means before it. */
  lemma {:induction false} MeaningStays(mem: Memory, sh: Shape, outer: Scope, o: Out, x: Name)
    requires Silent(mem, sh, x)
    ensures Meaning(outer + Resolve(mem, sh, outer, o).local, x) == Meaning(outer + o.local, x)
  {
    if x in o.local { FirstStays(mem, sh, outer, o, x, o.local[x]); } else { StaysOut(mem, sh, outer, o, x); }
  }

  /** Meeting a node that does not hide the name leaves its meaning, in the node's own scope too. */
  lemma {:induction false} MeetingKeeps(mem: Memory, n: Ptr, outer: Scope, o: Out, x: Name)
    requires !Hides(mem, n, x)
    ensures var (o', own) := Meet(mem, n, outer, o);
            var meaning := Meaning(outer + o.local, x);
            && Meaning(outer + o'.local, x) == meaning
            && (own.Some? ==> Meaning(outer + o'.local + own.value, x) == meaning)
            && (Uses(mem, n, x) && FateOf(o, n) == UNTOUCHED ==> own.None? && FateOf(o', n) == Verdict(meaning))
  {
  }

  /** Meeting a node does nothing to other nodes. */
  lemma {:induction false} MeetingTouches(mem: Memory, n: Ptr, outer: Scope, o: Out, u: Ptr)
    requires u != n
    ensures FateOf(Meet(mem, n, outer, o).0, u) == FateOf(o, u)
  {
  }

  /** An identifier in a silent tree is bound to what its name means around the tree, and reported
      when it means nothing there. */
  lemma {:induction false} UseIsResolved(mem: Memory, sh: Shape, outer: Scope, o: Out, x: Name, u: Ptr)
    requires IsTree(sh) && Silent(mem, sh, x) && u in Addresses(sh) && Uses(mem, u, x) && FateOf(o, u) == UNTOUCHED
    ensures FateOf(Resolve(mem, sh, outer, o), u) == Verdict(Meaning(outer + o.local, x))
    decreases sh, 1
  {
    var (o', own) := Meet(mem, sh.p, outer, o);
    MeetingKeeps(mem, sh.p, outer, o, x);
    if u == sh.p {
      OutsideStaysAll(mem, sh.kids, outer, o', u);
    } else {
      MeetingTouches(mem, sh.p, outer, o, u);
      forall i | 0 <= i < |sh.kids| ensures Silent(mem, sh.kids[i], x) { SilentKid(mem, sh, x, i); }
      if own.Some? {
        UseIsResolvedAll(mem, sh.kids, outer + o'.local, o'.(local := own.value), x, u);
      } else {
        UseIsResolvedAll(mem, sh.kids, outer, o', x, u);
      }
    }
  }

  lemma {:induction false} UseIsResolvedAll(mem: Memory, shs: seq<Shape>, outer: Scope, o: Out, x: Name, u: Ptr)
    requires AreTrees(shs) && forall i :: 0 <= i < |shs| ==> Silent(mem, shs[i], x)
    requires u in AllAddresses(shs) && Uses(mem, u, x) && FateOf(o, u) == UNTOUCHED
    ensures FateOf(ResolveAll(mem, shs, outer, o), u) == Verdict(Meaning(outer + o.local, x))
    decreases shs, 0
  {
    var next := Resolve(mem, shs[0], outer, o);
    if u in Addresses(shs[0]) {
      UseIsResolved(mem, shs[0], outer, o, x, u);
      OutsideStaysAll(mem, shs[1..], outer, next, u);
    } else {
      OutsideStays(mem, shs[0], outer, o, u);
      MeaningStays(mem, shs[0], outer, o, x);
      UseIsResolvedAll(mem, shs[1..], outer, next, x, u);
    }
  }

  /** In a scope, a use of a name behind the first declaration of it is bound to that declaration,
      when nothing around the use gives the name another meaning. */
  lemma {:induction false} LaterUseIsBound(mem: Memory, shs: seq<Shape>, outer: Scope, o: Out, i: nat, j: nat, x: Name,
                                           u: Ptr)
    requires AreTrees(shs) && i < j < |shs| && IsVariable(mem, shs[i].p, x) && x !in o.local
    requires (forall l :: 0 <= l < i ==> Silent(mem, shs[l], x)) && Silent(mem, shs[j], x)
    requires u in Addresses(shs[j]) && Uses(mem, u, x) && FateOf(o, u) == UNTOUCHED
    ensures FateOf(ResolveAll(mem, shs, outer, o), u) == Fate(Some(Sym(SYM_VAR, shs[i].p, false)), false)
    decreases i
  {
    var next := Resolve(mem, shs[0], outer, o);
    KidInside(shs[1..], j - 1, u);
    OutsideStays(mem, shs[0], outer, o, u);
    if i > 0 {
      StaysOut(mem, shs[0], outer, o, x);
      LaterUseIsBound(mem, shs[1..], outer, next, i - 1, j - 1, x, u);
    } else {
      var sym := Sym(SYM_VAR, shs[0].p, false);
      var o' := Meet(mem, shs[0].p, outer, o).0;
      FirstStaysAll(mem, shs[0].kids, outer, o', x, sym);
      SeenUseIsBound(mem, shs[1..], outer, next, j - 1, x, sym, u);
    }
  }

  lemma {:induction false} SeenUseIsBound(mem: Memory, shs: seq<Shape>, outer: Scope, o: Out, j: nat, x: Name, sym: Sym,
                                          u: Ptr)
    requires AreTrees(shs) && j < |shs| && SeenAs(o.local, x, sym)
    requires Silent(mem, shs[j], x) && u in Addresses(shs[j]) && Uses(mem, u, x) && FateOf(o, u) == UNTOUCHED
    ensures FateOf(ResolveAll(mem, shs, outer, o), u) == Fate(Some(sym), false)
    decreases j
  {
    var next := Resolve(mem, shs[0], outer, o);
    if j > 0 {
      KidInside(shs[1..], j - 1, u);
      OutsideStays(mem, shs[0], outer, o, u);
      FirstStays(mem, shs[0], outer, o, x, sym);
      SeenUseIsBound(mem, shs[1..], outer, next, j - 1, x, sym, u);
    } else {
      UseIsResolved(mem, shs[0], outer, o, x, u);
      OutsideStaysAll(mem, shs[1..], outer, next, u);
    }
  }

  predicate IsVariable(mem: Memory, p: Ptr, x: Name) {
    p in mem && (mem[p].kind.PARAM? || mem[p].kind.VAR_DECL?) && mem[p].tok.text == x && x != []
  }

  /** Identifier `u` in the block of function `f` has the name of parameter `i`, the first of that
      name, and nothing in the block gives the name another meaning. */
  ghost predicate ParameterUse(mem: Memory, f: Shape, block: Shape, i: nat, x: Name, u: Ptr) {
    && f.p in mem && mem[f.p].kind.FUNC? && block in f.kids && block.p == Kid(mem[f.p], 1)
    && ListAt(mem, Kid(mem[f.p], 0)).Some?
    && var params := ListAt(mem, Kid(mem[f.p], 0)).value;
    && i < |params| && (forall l :: 0 <= l < |params| ==> params[l] in mem && mem[params[l]].kind.PARAM?)
    && IsVariable(mem, params[i], x) && (forall l :: 0 <= l < i ==> mem[params[l]].tok.text != x)
    && Silent(mem, block, x) && u in Addresses(block) && Uses(mem, u, x)
  }

  /** Identifier `u` in a block, or in the program, comes behind the first declaration of a
      variable of its name, which nothing around the identifier hides. */
  ghost predicate VariableUse(mem: Memory, f: Shape, i: nat, j: nat, x: Name, u: Ptr) {
    && f.p in mem && (mem[f.p].kind.BLOCK? || mem[f.p].kind.PROGRAM?) && i < j < |f.kids|
    && IsVariable(mem, f.kids[i].p, x) && (forall l :: 0 <= l < i ==> Silent(mem, f.kids[l], x))
    && Silent(mem, f.kids[j], x) && u in Addresses(f.kids[j]) && Uses(mem, u, x)
  }

  /** Identifier `u`, which is `self`, stands inside type `f`, and nothing in between hides that. */
  ghost predicate SelfUse(mem: Memory, f: Shape, i: nat, u: Ptr) {
    && f.p in mem && (mem[f.p].kind.STRUCT? || mem[f.p].kind.UNION? || mem[f.p].kind.ENUM?) && i < |f.kids|
    && (forall l :: 0 <= l < |f.kids| ==> Silent(mem, f.kids[l], SELF)) && u in Addresses(f.kids[i])
    && Uses(mem, u, SELF)
  }

  /** Wherever the tree stands, this becomes of node `u`. */
  ghost predicate AlwaysEnds(mem: Memory, sh: Shape, u: Ptr, fate: Fate) {
    forall outer, o :: FateOf(o, u) == UNTOUCHED ==> FateOf(Resolve(mem, sh, outer, o), u) == fate
  }

  ghost predicate AlwaysBound(mem: Memory, sh: Shape, u: Ptr, sym: Sym) {
    AlwaysEnds(mem, sh, u, Fate(Some(sym), false))
  }

  lemma {:induction false} ParamsAreSilent(mem: Memory, f: Shape, params: seq<Ptr>, l: nat, x: Name)
    requires Shows(mem, f) && l < |params| <= |f.kids| && f.kids[l].p == params[l]
    requires params[l] in mem && mem[params[l]].kind.PARAM? && mem[params[l]].tok.text != x
    ensures Silent(mem, f.kids[l], x)
  {
    assert Shows(mem, f.kids[l]);
    ParamIsLeaf(mem, f.kids[l]);
  }

  /** A parameter has nothing below it. */
  lemma {:induction false} ParamIsLeaf(mem: Memory, sh: Shape)
    requires Shows(mem, sh) && mem[sh.p].kind.PARAM?
    ensures Addresses(sh) == {sh.p}
  {
    ItemsInOrder(mem, sh.p);
    assert |Roots(sh.kids)| == 0;
  }

  /** The children of a function are its parameters and then its block. */
  lemma {:induction false} FunctionKids(mem: Memory, f: Shape)
    requires Shows(mem, f) && mem[f.p].kind.FUNC? && ListAt(mem, Kid(mem[f.p], 0)).Some?
    requires var params := ListAt(mem, Kid(mem[f.p], 0)).value; f.p !in params && NULL !in params
    ensures var params := ListAt(mem, Kid(mem[f.p], 0)).value;
            && |params| <= |f.kids| <= |params| + 1
            && (forall l :: 0 <= l < |params| ==> f.kids[l].p == params[l])
            && (|f.kids| > |params| ==> f.kids[|params|].p == Kid(mem[f.p], 1))
  {
    var c, params := mem[f.p], ListAt(mem, Kid(mem[f.p], 0)).value;
    ItemsInOrder(mem, f.p);
    var block := One(f.p, Kid(c, 1));
    ChildrenConcat(Many(f.p, params, 0), block);
    ManyChildren(f.p, params, 0);
    assert |Roots(f.kids)| == |params| + |Children(block)| by {
      assert block == [] || block[1..] == [];
    }
    forall l | 0 <= l < |f.kids| ensures f.kids[l].p == (params + Children(block))[l] {
      assert Roots(f.kids)[l] == f.kids[l].p;
    }
  }

  lemma {:induction false} ParameterIsBound(mem: Memory, f: Shape, block: Shape, i: nat, x: Name, u: Ptr)
    requires Shows(mem, f) && IsTree(f) && ParameterUse(mem, f, block, i, x, u)
    ensures AlwaysBound(mem, f, u, Sym(SYM_VAR, ListAt(mem, Kid(mem[f.p], 0)).value[i], false))
  {
    var params := ListAt(mem, Kid(mem[f.p], 0)).value;
    FunctionKids(mem, f);
    var j := BlockBehind(mem, f, block, params, u);
    forall l | 0 <= l < i ensures Silent(mem, f.kids[l], x) { ParamsAreSilent(mem, f, params, l, x); }
    InnerUseIsBound(mem, f, i, j, x, u);
  }

  /** The block with an identifier in it comes behind the parameters. */
  lemma {:induction false} BlockBehind(mem: Memory, f: Shape, block: Shape, params: seq<Ptr>, u: Ptr) returns (j: nat)
    requires Shows(mem, f) && block in f.kids && |params| <= |f.kids|
    requires forall l :: 0 <= l < |params| ==> f.kids[l].p == params[l]
    requires forall l :: 0 <= l < |params| ==> params[l] in mem && mem[params[l]].kind.PARAM?
    requires u in Addresses(block) && u in mem && mem[u].kind.IDENTIF?
    ensures |params| <= j < |f.kids| && f.kids[j] == block
  {
    j :| j < |f.kids| && f.kids[j] == block;
    assert Shows(mem, f.kids[j]);
    if j < |params| { ParamIsLeaf(mem, block); }
  }

  /** In a function, or another node with a scope of its own that declares nothing at first. */
  lemma {:induction false} InnerUseIsBound(mem: Memory, f: Shape, i: nat, j: nat, x: Name, u: Ptr)
    requires f.p in mem && (mem[f.p].kind.FUNC? || mem[f.p].kind.BLOCK? || mem[f.p].kind.PROGRAM?) && IsTree(f)
    requires i < j < |f.kids| && IsVariable(mem, f.kids[i].p, x) && Silent(mem, f.kids[j], x)
    requires forall l :: 0 <= l < i ==> Silent(mem, f.kids[l], x)
    requires u in Addresses(f.kids[j]) && Uses(mem, u, x)
    ensures AlwaysBound(mem, f, u, Sym(SYM_VAR, f.kids[i].p, false))
  {
    forall outer, o | FateOf(o, u) == UNTOUCHED
      ensures FateOf(Resolve(mem, f, outer, o), u) == Fate(Some(Sym(SYM_VAR, f.kids[i].p, false)), false)
    {
      var o' := Meet(mem, f.p, outer, o).0;
      KidInside(f.kids, j, u);
      MeetingTouches(mem, f.p, outer, o, u);
      LaterUseIsBound(mem, f.kids, outer + o'.local, o'.(local := map[]), i, j, x, u);
    }
  }

  lemma {:induction false} VariableIsBound(mem: Memory, f: Shape, i: nat, j: nat, x: Name, u: Ptr)
    requires IsTree(f) && VariableUse(mem, f, i, j, x, u)
    ensures AlwaysBound(mem, f, u, Sym(SYM_VAR, f.kids[i].p, false))
  {
    InnerUseIsBound(mem, f, i, j, x, u);
  }

  function TypeSym(k: Kind): SymKind {
    match k
    case STRUCT => SYM_STRUCT
    case UNION => SYM_UNION
    case _ => SYM_ENUM
  }

  lemma {:induction false} SelfIsBound(mem: Memory, f: Shape, i: nat, u: Ptr)
    requires IsTree(f) && SelfUse(mem, f, i, u)
    ensures AlwaysBound(mem, f, u, Sym(TypeSym(mem[f.p].kind), f.p, false))
  {
    var sym := Sym(TypeSym(mem[f.p].kind), f.p, false);
    forall outer, o | FateOf(o, u) == UNTOUCHED
      ensures FateOf(Resolve(mem, f, outer, o), u) == Fate(Some(sym), false)
    {
      var (o', own) := Meet(mem, f.p, outer, o);
      KidInside(f.kids, i, u);
      MeetingTouches(mem, f.p, outer, o, u);
      UseIsResolvedAll(mem, f.kids, outer + o'.local, o'.(local := own.value), SELF, u);
    }
  }

  // ---------------------------------------------------------------- anywhere in the program

  /** The tree `f` is part of the tree `sh`. */
  ghost predicate PartOf(sh: Shape, f: Shape)
    decreases sh
  {
    f == sh || exists i :: 0 <= i < |sh.kids| && PartOf(sh.kids[i], f)
  }

  lemma {:induction false} PartShows(mem: Memory, sh: Shape, f: Shape)
    requires PartOf(sh, f) && Shows(mem, sh) && IsTree(sh)
    ensures Shows(mem, f) && IsTree(f)
    decreases sh
  {
    if f != sh {
      var i :| 0 <= i < |sh.kids| && PartOf(sh.kids[i], f);
      AllAreTrees(sh.kids, i);
      PartShows(mem, sh.kids[i], f);
    }
  }

  /** What becomes of a node wherever a part stands becomes of it in the whole. */
  lemma {:induction false} PartEnds(mem: Memory, sh: Shape, f: Shape, u: Ptr, fate: Fate)
    requires PartOf(sh, f) && IsTree(sh) && AlwaysEnds(mem, f, u, fate) && u in Addresses(f)
    ensures AlwaysEnds(mem, sh, u, fate) && u in Addresses(sh)
    decreases sh
  {
    if f != sh {
      var i :| 0 <= i < |sh.kids| && PartOf(sh.kids[i], f);
      AllAreTrees(sh.kids, i);
      PartEnds(mem, sh.kids[i], f, u, fate);
      KidInside(sh.kids, i, u);
      forall outer, o | FateOf(o, u) == UNTOUCHED ensures FateOf(Resolve(mem, sh, outer, o), u) == fate {
        var (o', own) := Meet(mem, sh.p, outer, o);
        MeetingTouches(mem, sh.p, outer, o, u);
        if own.Some? {
          KidEnds(mem, sh.kids, outer + o'.local, o'.(local := own.value), i, u, fate);
        } else {
          KidEnds(mem, sh.kids, outer, o', i, u, fate);
        }
      }
    }
  }

  lemma {:induction false} KidEnds(mem: Memory, shs: seq<Shape>, outer: Scope, o: Out, i: nat, u: Ptr, fate: Fate)
    requires AreTrees(shs) && i < |shs| && AlwaysEnds(mem, shs[i], u, fate) && u in Addresses(shs[i])
    requires FateOf(o, u) == UNTOUCHED
    ensures FateOf(ResolveAll(mem, shs, outer, o), u) == fate
    decreases i
  {
    var next := Resolve(mem, shs[0], outer, o);
    if i > 0 {
      KidInside(shs[1..], i - 1, u);
      OutsideStays(mem, shs[0], outer, o, u);
      KidEnds(mem, shs[1..], outer, next, i - 1, u, fate);
    } else {
      OutsideStaysAll(mem, shs[1..], outer, next, u);
    }
  }

  /** Uses of parameters, of variables and of `self` are bound to them, wherever they stand. */
  lemma {:induction false} NamesAreBound(mem: Memory, sh: Shape)
    requires Shows(mem, sh) && IsTree(sh)
    ensures forall f, block, i: nat, x, u :: PartOf(sh, f) && ParameterUse(mem, f, block, i, x, u) ==>
              AlwaysBound(mem, sh, u, Sym(SYM_VAR, ListAt(mem, Kid(mem[f.p], 0)).value[i], false))
    ensures forall f, i: nat, j: nat, x, u :: PartOf(sh, f) && VariableUse(mem, f, i, j, x, u) ==>
              AlwaysBound(mem, sh, u, Sym(SYM_VAR, f.kids[i].p, false))
    ensures forall f, i: nat, u :: PartOf(sh, f) && SelfUse(mem, f, i, u) ==>
              AlwaysBound(mem, sh, u, Sym(TypeSym(mem[f.p].kind), f.p, false))
  {
    forall f, block, i: nat, x, u | PartOf(sh, f) && ParameterUse(mem, f, block, i, x, u)
      ensures AlwaysBound(mem, sh, u, Sym(SYM_VAR, ListAt(mem, Kid(mem[f.p], 0)).value[i], false))
    {
      PartShows(mem, sh, f);
      ParameterIsBound(mem, f, block, i, x, u);
      var j :| 0 <= j < |f.kids| && f.kids[j] == block;
      KidInside(f.kids, j, u);
      PartEnds(mem, sh, f, u, Fate(Some(Sym(SYM_VAR, ListAt(mem, Kid(mem[f.p], 0)).value[i], false)), false));
    }
    forall f, i: nat, j: nat, x, u | PartOf(sh, f) && VariableUse(mem, f, i, j, x, u)
      ensures AlwaysBound(mem, sh, u, Sym(SYM_VAR, f.kids[i].p, false))
    {
      PartShows(mem, sh, f);
      VariableIsBound(mem, f, i, j, x, u);
      KidInside(f.kids, j, u);
      PartEnds(mem, sh, f, u, Fate(Some(Sym(SYM_VAR, f.kids[i].p, false)), false));
    }
    forall f, i: nat, u | PartOf(sh, f) && SelfUse(mem, f, i, u)
      ensures AlwaysBound(mem, sh, u, Sym(TypeSym(mem[f.p].kind), f.p, false))
    {
      PartShows(mem, sh, f);
      SelfIsBound(mem, f, i, u);
      KidInside(f.kids, i, u);
      PartEnds(mem, sh, f, u, Fate(Some(Sym(TypeSym(mem[f.p].kind), f.p, false)), false));
    }
  }

  /** What always becomes of a node becomes of it when nothing has been resolved before. */
  lemma {:induction false} BecomesOf(mem: Memory, sh: Shape, outer: Scope, o: Out)
    requires o.bound == map[] && o.errors == []
    ensures var r := Resolve(mem, sh, outer, o);
            && (forall u, sym :: AlwaysBound(mem, sh, u, sym) ==> u in r.bound && r.bound[u] == sym && u !in r.errors)
            && (forall u, fate :: AlwaysEnds(mem, sh, u, fate) ==> (u in r.errors <==> fate.reported))
  {
    var r := Resolve(mem, sh, outer, o);
    forall u, fate | AlwaysEnds(mem, sh, u, fate) ensures FateOf(r, u) == fate {
      assert FateOf(o, u) == UNTOUCHED;
    }
    forall u, sym | AlwaysBound(mem, sh, u, sym) ensures FateOf(r, u) == Fate(Some(sym), false) {
    }
  }

  // ---------------------------------------------------------------- what a scope comes to hold

  predicate HasScope(k: Kind) {
    k.PROGRAM? || k.BLOCK? || k.FOR? || k.FUNC? || k.STRUCT? || k.UNION? || k.ENUM?
  }

  /** Node `p` declares `x` in the scope around it. */
  predicate IsDeclaration(mem: Memory, p: Ptr, x: Name) {
    && p in mem && mem[p].tok.text == x && x != []
    && match mem[p].kind
       case FUNC | PARAM | VAR_DECL | STRUCT | UNION | ENUM => true
       case _ => false
  }

  /** The tree declares `x` in the scope around it, at its root or below nodes without scopes. */
  ghost predicate Declares(mem: Memory, sh: Shape, x: Name)
    decreases sh
  {
    || IsDeclaration(mem, sh.p, x)
    || ((sh.p in mem ==> !HasScope(mem[sh.p].kind)) && exists i :: 0 <= i < |sh.kids| && Declares(mem, sh.kids[i], x))
  }

  ghost predicate Earlier(mem: Memory, shs: seq<Shape>, j: nat, x: Name) {
    exists i :: 0 <= i < |shs| && i < j && Declares(mem, shs[i], x)
  }

  lemma {:induction false} EarlierStep(mem: Memory, shs: seq<Shape>, j: nat, x: Name)
    requires shs != [] && j > 0
    ensures Earlier(mem, shs, j, x) <==> Declares(mem, shs[0], x) || Earlier(mem, shs[1..], j - 1, x)
  {
    if Earlier(mem, shs, j, x) {
      var i :| 0 <= i < |shs| && i < j && Declares(mem, shs[i], x);
      if i > 0 { assert shs[1..][i - 1] == shs[i]; }
    }
    if Earlier(mem, shs[1..], j - 1, x) {
      var i :| 0 <= i < |shs[1..]| && i < j - 1 && Declares(mem, shs[1..][i], x);
      assert shs[1..][i] == shs[i + 1];
    }
  }

  lemma {:induction false} MeetingDeclares(mem: Memory, n: Ptr, outer: Scope, o: Out, x: Name)
    requires x != []
    ensures var (o', own) := Meet(mem, n, outer, o);
            && (x in o'.local <==> x in o.local || IsDeclaration(mem, n, x))
            && (own.Some? <==> n in mem && HasScope(mem[n].kind))
  {
  }

  /** A scope comes to hold the names that are declared in it. */
  lemma {:induction false} HoldsDeclared(mem: Memory, sh: Shape, outer: Scope, o: Out, x: Name)
    requires x != []
    ensures x in Resolve(mem, sh, outer, o).local <==> x in o.local || Declares(mem, sh, x)
    decreases sh, 1
  {
    var (o', own) := Meet(mem, sh.p, outer, o);
    MeetingDeclares(mem, sh.p, outer, o, x);
    if own.None? { HoldsAllDeclared(mem, sh.kids, outer, o', x); }
  }

  lemma {:induction false} HoldsAllDeclared(mem: Memory, shs: seq<Shape>, outer: Scope, o: Out, x: Name)
    requires x != []
    ensures x in ResolveAll(mem, shs, outer, o).local <==> x in o.local || Earlier(mem, shs, |shs|, x)
    decreases shs, 0
  {
    if shs != [] {
      HoldsDeclared(mem, shs[0], outer, o, x);
      HoldsAllDeclared(mem, shs[1..], outer, Resolve(mem, shs[0], outer, o), x);
      EarlierStep(mem, shs, |shs|, x);
    }
  }

  /** Child `j` of node `f`, which has a scope, is a function, parameter or variable `x`. */
  ghost predicate NamedIn(mem: Memory, f: Shape, j: nat, x: Name) {
    && f.p in mem && HasScope(mem[f.p].kind) && j < |f.kids| && IsReportable(mem, f.kids[j].p, x)
  }

  predicate IsReportable(mem: Memory, p: Ptr, x: Name) {
    IsDeclaration(mem, p, x) && (mem[p].kind.FUNC? || mem[p].kind.PARAM? || mem[p].kind.VAR_DECL?)
  }

  /** The scope of `f` has the name before child `j`: an earlier child has declared it, or it is
      `self` and `f` a type. */
  ghost predicate Repeated(mem: Memory, f: Shape, j: nat, x: Name) {
    || Earlier(mem, f.kids, j, x)
    || (x == SELF && f.p in mem && (mem[f.p].kind.STRUCT? || mem[f.p].kind.UNION? || mem[f.p].kind.ENUM?))
  }

  /** A declaration is reported exactly when its scope has the name already. */
  lemma {:induction false} RepeatInScope(mem: Memory, shs: seq<Shape>, outer: Scope, o: Out, j: nat, x: Name)
    requires AreTrees(shs) && j < |shs| && IsReportable(mem, shs[j].p, x) && FateOf(o, shs[j].p) == UNTOUCHED
    ensures FateOf(ResolveAll(mem, shs, outer, o), shs[j].p) == Fate(None, x in o.local || Earlier(mem, shs, j, x))
    decreases j
  {
    var next, p := Resolve(mem, shs[0], outer, o), shs[j].p;
    if j > 0 {
      assert shs[1..][j - 1] == shs[j];
      KidInside(shs[1..], j - 1, p);
      OutsideStays(mem, shs[0], outer, o, p);
      HoldsDeclared(mem, shs[0], outer, o, x);
      EarlierStep(mem, shs, j, x);
      RepeatInScope(mem, shs[1..], outer, next, j - 1, x);
    } else {
      DeclarationEnds(mem, shs[0], outer, o, x);
      OutsideStaysAll(mem, shs[1..], outer, next, p);
    }
  }

  lemma {:induction false} DeclarationEnds(mem: Memory, sh: Shape, outer: Scope, o: Out, x: Name)
    requires IsTree(sh) && IsReportable(mem, sh.p, x) && FateOf(o, sh.p) == UNTOUCHED
    ensures FateOf(Resolve(mem, sh, outer, o), sh.p) == Fate(None, x in o.local)
  {
    var (o', own) := Meet(mem, sh.p, outer, o);
    if own.Some? {
      OutsideStaysAll(mem, sh.kids, outer + o'.local, o'.(local := own.value), sh.p);
    } else {
      OutsideStaysAll(mem, sh.kids, outer, o', sh.p);
    }
  }

  lemma {:induction false} RepeatIsReported(mem: Memory, f: Shape, j: nat, x: Name)
    requires IsTree(f) && NamedIn(mem, f, j, x)
    ensures AlwaysEnds(mem, f, f.kids[j].p, Fate(None, Repeated(mem, f, j, x)))
  {
    var p := f.kids[j].p;
    KidInside(f.kids, j, p);
    forall outer, o | FateOf(o, p) == UNTOUCHED
      ensures FateOf(Resolve(mem, f, outer, o), p) == Fate(None, Repeated(mem, f, j, x))
    {
      var (o', own) := Meet(mem, f.p, outer, o);
      MeetingTouches(mem, f.p, outer, o, p);
      RepeatInScope(mem, f.kids, outer + o'.local, o'.(local := own.value), j, x);
    }
  }

  lemma {:induction false} RepeatsAreReported(mem: Memory, sh: Shape)
    requires Shows(mem, sh) && IsTree(sh)
    ensures forall f, j: nat, x :: PartOf(sh, f) && NamedIn(mem, f, j, x) ==>
              AlwaysEnds(mem, sh, f.kids[j].p, Fate(None, Repeated(mem, f, j, x)))
  {
    forall f, j: nat, x | PartOf(sh, f) && NamedIn(mem, f, j, x)
      ensures AlwaysEnds(mem, sh, f.kids[j].p, Fate(None, Repeated(mem, f, j, x)))
    {
      PartShows(mem, sh, f);
      RepeatIsReported(mem, f, j, x);
      KidInside(f.kids, j, f.kids[j].p);
      PartEnds(mem, sh, f, f.kids[j].p, Fate(None, Repeated(mem, f, j, x)));
    }
  }

  // ---------------------------------------------------------------- names from outside

  /** Identifier `u` has a name that nothing in the tree gives a meaning. */
  ghost predicate FreeUse(mem: Memory, sh: Shape, x: Name, u: Ptr) {
    Silent(mem, sh, x) && u in Addresses(sh) && Uses(mem, u, x)
  }

  /** Such an identifier means the imported module of its name, else the symbol of its module, else
      what the scopes around show, and it is reported when all of them lack the name. */
  ghost predicate MeansOuter(imports: Scope, symbols: Scope, around: Scope, x: Name, u: Ptr, bound: map<Ptr, Sym>,
                             errors: seq<Ptr>) {
    (u in errors <==> x !in imports && x !in symbols && x !in around)
    && if x in imports then u in bound && bound[u] == imports[x]
       else if x in symbols then u in bound && bound[u] == symbols[x]
       else if x in around then u in bound && bound[u] == around[x]
       else u !in bound
  }

  lemma {:induction false} FreeNamesMeanOuter(mem: Memory, sh: Shape, around: Scope, imports: Scope, symbols: Scope)
    requires IsTree(sh)
    ensures var o := Resolve(mem, sh, around, Out(Globals(imports, symbols), map[], []));
            forall x, u :: FreeUse(mem, sh, x, u) ==> MeansOuter(imports, symbols, around, x, u, o.bound, o.errors)
  {
    var o0 := Out(Globals(imports, symbols), map[], []);
    var o := Resolve(mem, sh, around, o0);
    forall x, u | FreeUse(mem, sh, x, u) ensures MeansOuter(imports, symbols, around, x, u, o.bound, o.errors) {
      UseIsResolved(mem, sh, around, o0, x, u);
      assert FateOf(o, u) == Verdict(Meaning(around + Globals(imports, symbols), x));
    }
  }

  /** The scope that resolve_scopes opens first: the imported modules, then the module's own
      symbols where no import has the name. */
  function Globals(imports: Scope, symbols: Scope): Scope {
    symbols + imports
  }

  /** resolve_scopes: on any tree and on top of any scopes, the stack-driven pass binds every
      identifier and reports every error exactly as the reference resolver does, and leaves
      the scope stack as it was. */
  method ResolveScopes(mem: Memory, root: Ptr, imports: Scope, symbols: Scope, ss: ScopeStack, ghost sh: Shape)
    returns (bound: map<Ptr, Sym>, errors: seq<Ptr>)
    requires root != NULL && sh.p == root && Shows(mem, sh)
    modifies ss
    ensures ss.scopes == old(ss.scopes)
    ensures var o := Resolve(mem, sh, Visible(old(ss.scopes)), Out(Globals(imports, symbols), map[], []));
            bound == o.bound && errors == o.errors
    ensures IsTree(sh) ==>
              forall f, block, i: nat, x, u :: PartOf(sh, f) && ParameterUse(mem, f, block, i, x, u) ==>
                u !in errors && u in bound && bound[u] == Sym(SYM_VAR, ListAt(mem, Kid(mem[f.p], 0)).value[i], false)
    ensures IsTree(sh) ==>
              forall f, i: nat, j: nat, x, u :: PartOf(sh, f) && VariableUse(mem, f, i, j, x, u) ==>
                u !in errors && u in bound && bound[u] == Sym(SYM_VAR, f.kids[i].p, false)
    ensures IsTree(sh) ==>
              forall f, i: nat, u :: PartOf(sh, f) && SelfUse(mem, f, i, u) ==>
                u !in errors && u in bound && bound[u] == Sym(TypeSym(mem[f.p].kind), f.p, false)
    ensures IsTree(sh) ==>
              forall x, u :: FreeUse(mem, sh, x, u) ==>
                MeansOuter(imports, symbols, Visible(old(ss.scopes)), x, u, bound, errors)
    ensures IsTree(sh) ==>
              forall f, j: nat, x :: PartOf(sh, f) && NamedIn(mem, f, j, x) ==>
                (f.kids[j].p in errors <==> Repeated(mem, f, j, x))
  {
    ghost var o := Resolve(mem, sh, Visible(ss.scopes), Out(Globals(imports, symbols), map[], []));
    if IsTree(sh) {
      NamesAreBound(mem, sh);
      RepeatsAreReported(mem, sh);
      FreeNamesMeanOuter(mem, sh, Visible(ss.scopes), imports, symbols);
      BecomesOf(mem, sh, Visible(ss.scopes), Out(Globals(imports, symbols), map[], []));
    }
    ss.PushScope();
    ghost var base := old(ss.scopes);
    ss.scopes := ss.scopes[|ss.scopes| - 1 := Globals(imports, symbols)];
    var s0 := State(mem, ss.scopes, map[], []);
    VisitResolves(mem, sh, base, Out(Globals(imports, symbols), map[], []));
    assert s0 == StateOf(mem, base, Out(Globals(imports, symbols), map[], []));
    var ok, s := Traverse(ScopeVisitor(), root, s0, sh);
    ss.scopes := s.scopes;
    ss.PopScope();
    bound, errors := s.bound, s.errors;
  }
}
