/** What inject_yield_assignments (src/cgen.c) does to a tree, a semantics for the trees it
    works on, and the proof that it keeps their meaning. */
module YieldMeaning {
  import opened Ast

  type Name = seq<byte>

  /** A tree of AST nodes: kind, token text, children in visiting order. */
  datatype Tree = Tree(kind: Kind, name: Name, kids: seq<Tree>)

  const ASSIGN: Name := [61]   // "="

  /** ast_is_expr_node. */
  predicate IsExpr(k: Kind) {
    match k
    case BINOP | UOP | NUM_LIT | STR_LIT | IDENTIF | FUNC_CALL | MEMBER | INDEX | CAST | BOOL_LIT | CHAR_LIT
       | NULL_LIT | ARRAY_LIT | ADDR_OF | DEREF | SIZEOF => true
    case _ => false
  }

  // ---------------------------------------------------------------- the transformation

  /** The statement kinds that are left alone in tail position. */
  predicate Excluded(k: Kind) {
    k.BREAK? || k.CONTINUE? || k.RET? || k.DEFER? || k.VAR_DECL?
  }

  predicate Passes(k: Kind) {
    k.BLOCK? || k.IF? || k.SWITCH? || k.CASE?
  }

  function Assignment(v: Name, t: Tree): Tree {
    Tree(BINOP, ASSIGN, [Tree(IDENTIF, v, []), t])
  }

  /** Every tail of the tree assigns its value to `v`: the last statement of a block, the
      branches of an if, the arms of a switch.  The condition of an if or switch and the
      value of a case are their first child. */
  function Inject(t: Tree, v: Name): Tree
    decreases t, 1
  {
    if Passes(t.kind) then t.(kids := InjectKids(t.kind, t.kids, v, 0))
    else if Excluded(t.kind) then t
    else Assignment(v, t)
  }

  /** Is child `i` of `n` children in tail position? */
  predicate IsTail(k: Kind, i: nat, n: nat) {
    if k.BLOCK? then i + 1 == n else i > 0
  }

  function InjectKids(k: Kind, kids: seq<Tree>, v: Name, i: nat): (r: seq<Tree>)
    ensures |r| == |kids|
    decreases kids, 0
  {
    if kids == [] then []
    else [if IsTail(k, i, i + |kids|) then Inject(kids[0], v) else kids[0]] + InjectKids(k, kids[1..], v, i + 1)
  }

  // ---------------------------------------------------------------- the semantics

  /** Local variables, and everything else a program can change. */
  datatype State = State(env: map<Name, int>, world: int)

  datatype Outcome =
    | Done(value: Option<int>)        // normal completion, with the value if there is one
    | Broke | Continued | Returned(value: Option<int>)
    | Stuck | OutOfFuel

  /** The parts of the language the transformation does not look into: literals; operators
      and calls, which are given their operand values and may change any variable, as
      `x += 1`, `x++` and a call that holds `&x` do; and the remaining statements. */
  datatype Prims = Prims(
    literal: Name -> int,
    apply: (Tree, seq<int>, State) -> (int, State),
    other: (Tree, State) -> (Outcome, State))

  type Run = (Outcome, State)

  function Exec(P: Prims, t: Tree, s: State, fuel: nat): Run
    decreases fuel, t, 2
  {
    match t.kind
    case IDENTIF => (if t.name in s.env then Done(Some(s.env[t.name])) else Stuck, s)
    case NUM_LIT => (Done(Some(P.literal(t.name))), s)
    case BINOP =>
      if t.name == ASSIGN && |t.kids| == 2 && t.kids[0].kind.IDENTIF? then
        var (o, s1) := Exec(P, t.kids[1], s, fuel);
        match o
        case Done(Some(x)) => (o, s1.(env := s1.env[t.kids[0].name := x]))
        case Done(None) => (Stuck, s1)
        case _ => (o, s1)
      else Operate(P, t, s, fuel)
    case BLOCK =>
      var (o, s1) := ExecAll(P, t.kids, s, fuel);
      (o, s1.(env := Leave(s.env, s1.env, Declared(t.kids))))
    case IF =>
      if |t.kids| < 2 then (Stuck, s) else
      var (o, s1) := Exec(P, t.kids[0], s, fuel);
      (match o
       case Done(Some(x)) =>
         if x != 0 then Exec(P, t.kids[1], s1, fuel)
         else if |t.kids| > 2 then Exec(P, t.kids[2], s1, fuel)
         else (Done(None), s1)
       case Done(None) => (Stuck, s1)
       case _ => (o, s1))
    case SWITCH =>
      if |t.kids| < 1 then (Stuck, s) else
      var (o, s1) := Exec(P, t.kids[0], s, fuel);
      (match o
       case Done(Some(x)) => CatchBreak(ExecAll(P, t.kids[ArmIndex(P, t.kids, x, 1)..], s1, fuel))
       case Done(None) => (Stuck, s1)
       case _ => (o, s1))
    case CASE => if |t.kids| < 2 then (Done(None), s) else Exec(P, t.kids[1], s, fuel)
    case WHILE =>
      if |t.kids| < 2 then (Stuck, s) else
      var (o, s1) := Exec(P, t.kids[0], s, fuel);
      (match o
       case Done(Some(x)) =>
         if x == 0 then (Done(None), s1) else
         var (o2, s2) := Exec(P, t.kids[1], s1, fuel);
         if o2.Broke? then (Done(None), s2)
         else if !o2.Done? && !o2.Continued? then (o2, s2)
         else if fuel == 0 then (OutOfFuel, s2)
         else Exec(P, t, s2, fuel - 1)
       case Done(None) => (Stuck, s1)
       case _ => (o, s1))
    case BREAK => (Broke, s)
    case CONTINUE => (Continued, s)
    case RET =>
      if t.kids == [] then (Returned(None), s) else
      var (o, s1) := Exec(P, t.kids[0], s, fuel);
      (if o.Done? then Returned(o.value) else o, s1)
    case VAR_DECL =>
      if t.kids == [] then (Done(None), s.(env := s.env[t.name := 0])) else
      var (o, s1) := Exec(P, t.kids[0], s, fuel);
      (match o
       case Done(Some(x)) => (Done(None), s1.(env := s1.env[t.name := x]))
       case Done(None) => (Stuck, s1)
       case _ => (o, s1))
    case _ => if IsExpr(t.kind) then Operate(P, t, s, fuel) else P.other(t, s)
  }

  /** An operator or call: the operands from left to right, then the operation. */
  function Operate(P: Prims, t: Tree, s: State, fuel: nat): Run
    decreases fuel, t, 1
  {
    var (o, xs, s1) := Operands(P, t.kids, s, fuel);
    if !o.Done? then (o, s1)
    else
      var (x, s2) := P.apply(t, xs, s1);
      (Done(Some(x)), s2)
  }

  function Operands(P: Prims, ts: seq<Tree>, s: State, fuel: nat): (Outcome, seq<int>, State)
    decreases fuel, ts, 0
  {
    if ts == [] then (Done(None), [], s)
    else
      var (o, s1) := Exec(P, ts[0], s, fuel);
      match o
      case Done(Some(x)) =>
        var (o2, xs, s2) := Operands(P, ts[1..], s1, fuel);
        (o2, [x] + xs, s2)
      case Done(None) => (Stuck, [], s1)
      case _ => (o, [], s1)
  }

  /** Statements in sequence; the value is the last one's. */
  function ExecAll(P: Prims, ts: seq<Tree>, s: State, fuel: nat): Run
    decreases fuel, ts, 0
  {
    if ts == [] then (Done(None), s)
    else
      var (o, s1) := Exec(P, ts[0], s, fuel);
      if o.Done? && |ts| > 1 then ExecAll(P, ts[1..], s1, fuel) else (o, s1)
  }

  /** Where a switch on `x` starts: at the first matching case, or at the default, which
      comes last.  Control then falls through to the arms that follow.  This is the meaning
      intended: the C that is generated prints no label before a default. */
  function ArmIndex(P: Prims, kids: seq<Tree>, x: int, i: nat): (r: nat)
    requires i <= |kids|
    ensures i <= r <= |kids|
    decreases |kids| - i
  {
    if i == |kids| then i
    else if kids[i].kind.CASE? && (kids[i].kids == [] || P.literal(kids[i].kids[0].name) != x)
    then ArmIndex(P, kids, x, i + 1)
    else i
  }

  function CatchBreak(r: Run): Run {
    if r.0.Broke? then (Done(None), r.1) else r
  }

  /** The variables declared by the statements of a block go out of scope with it. */
  function Declared(ts: seq<Tree>): set<Name> {
    set i | 0 <= i < |ts| && ts[i].kind.VAR_DECL? :: ts[i].name
  }

  function Leave(before: map<Name, int>, after: map<Name, int>, declared: set<Name>): map<Name, int> {
    map n | n in before :: if n in declared || n !in after then before[n] else after[n]
  }

  // ---------------------------------------------------------------- fresh variables

  predicate Fresh(t: Tree, v: Name)
    decreases t, 1
  {
    t.name != v && AllFresh(t.kids, v)
  }

  predicate AllFresh(ts: seq<Tree>, v: Name)
    decreases ts, 0
  {
    ts == [] || (Fresh(ts[0], v) && AllFresh(ts[1..], v))
  }

  /** The same state but for variable `v`, which the second one has. */
  ghost predicate Same(v: Name, s: State, t: State) {
    && s.world == t.world && v in t.env
    && (forall n :: n != v ==> (n in s.env <==> n in t.env))
    && (forall n :: n != v && n in s.env ==> s.env[n] == t.env[n])
  }

  ghost predicate Alike(v: Name, r: Run, r': Run) {
    r.0 == r'.0 && Same(v, r.1, r'.1)
  }

  /** Operations and statements outside the modelled language do not look at a variable they
      do not mention, and such statements have no value. */
  ghost predicate Blind(P: Prims, v: Name) {
    && (forall t, xs, s, s' {:trigger P.apply(t, xs, s), P.apply(t, xs, s')} ::
          Fresh(t, v) && Same(v, s, s') ==>
            P.apply(t, xs, s).0 == P.apply(t, xs, s').0 && Same(v, P.apply(t, xs, s).1, P.apply(t, xs, s').1))
    && (forall t, s, s' {:trigger P.other(t, s), P.other(t, s')} ::
          Fresh(t, v) && Same(v, s, s') ==> Alike(v, P.other(t, s), P.other(t, s')))
    && (forall t, s :: var o := P.other(t, s).0; o.Done? ==> o.value.None?)
  }

  lemma {:induction false} FreshAt(ts: seq<Tree>, v: Name, i: nat)
    requires AllFresh(ts, v) && i < |ts|
    ensures Fresh(ts[i], v)
  {
    if i > 0 { FreshAt(ts[1..], v, i - 1); }
  }

  lemma {:induction false} FreshFrom(ts: seq<Tree>, v: Name, i: nat)
    requires AllFresh(ts, v) && i <= |ts|
    ensures AllFresh(ts[i..], v)
  {
    if i > 0 {
      FreshFrom(ts[1..], v, i - 1);
      assert ts[1..][i - 1..] == ts[i..];
    } else {
      assert ts[0..] == ts;
    }
  }

  lemma {:induction false} LeaveSame(v: Name, s: State, s': State, s1: State, s1': State, ts: seq<Tree>, ts': seq<Tree>)
    requires Same(v, s, s') && Same(v, s1, s1') && AllFresh(ts, v) && Declared(ts') == Declared(ts)
    ensures Same(v, s1.(env := Leave(s.env, s1.env, Declared(ts))), s1'.(env := Leave(s'.env, s1'.env, Declared(ts'))))
    ensures Leave(s'.env, s1'.env, Declared(ts'))[v] == s1'.env[v]
  {
    forall i | 0 <= i < |ts| ensures ts[i].name != v { FreshAt(ts, v, i); }
  }

  /** Running a tree that does not mention `v` neither reads nor is changed by `v`. */
  lemma {:induction false} FreshExec(P: Prims, t: Tree, v: Name, s: State, s': State, fuel: nat)
    requires Fresh(t, v) && Same(v, s, s') && Blind(P, v)
    ensures Alike(v, Exec(P, t, s, fuel), Exec(P, t, s', fuel))
    decreases fuel, t, 2
  {
    forall i | 0 <= i < |t.kids| ensures Fresh(t.kids[i], v) { FreshAt(t.kids, v, i); }
    match t.kind
    case IDENTIF =>
    case NUM_LIT =>
    case BINOP =>
      if t.name == ASSIGN && |t.kids| == 2 && t.kids[0].kind.IDENTIF? {
        FreshExec(P, t.kids[1], v, s, s', fuel);
      } else {
        FreshOperate(P, t, v, s, s', fuel);
      }
    case BLOCK =>
      FreshExecAll(P, t.kids, v, s, s', fuel);
      LeaveSame(v, s, s', ExecAll(P, t.kids, s, fuel).1, ExecAll(P, t.kids, s', fuel).1, t.kids, t.kids);
    case IF =>
      if |t.kids| >= 2 {
        FreshExec(P, t.kids[0], v, s, s', fuel);
        var r, r' := Exec(P, t.kids[0], s, fuel), Exec(P, t.kids[0], s', fuel);
        FreshExec(P, t.kids[1], v, r.1, r'.1, fuel);
        if |t.kids| > 2 { FreshExec(P, t.kids[2], v, r.1, r'.1, fuel); }
      }
    case SWITCH =>
      if |t.kids| >= 1 { FreshSwitch(P, t, v, s, s', fuel); }
    case CASE =>
      if |t.kids| >= 2 { FreshExec(P, t.kids[1], v, s, s', fuel); }
    case WHILE =>
      if |t.kids| >= 2 { FreshWhile(P, t, v, s, s', fuel); }
    case RET =>
      if t.kids != [] { FreshExec(P, t.kids[0], v, s, s', fuel); }
    case VAR_DECL =>
      if t.kids != [] { FreshExec(P, t.kids[0], v, s, s', fuel); }
    case _ =>
      FreshOperate(P, t, v, s, s', fuel);
  }

  lemma {:induction false} FreshSwitch(P: Prims, t: Tree, v: Name, s: State, s': State, fuel: nat)
    requires t.kind.SWITCH? && |t.kids| >= 1 && Fresh(t, v) && Same(v, s, s') && Blind(P, v)
    ensures Alike(v, Exec(P, t, s, fuel), Exec(P, t, s', fuel))
    decreases fuel, t, 1
  {
    FreshAt(t.kids, v, 0);
    FreshExec(P, t.kids[0], v, s, s', fuel);
    var r, r' := Exec(P, t.kids[0], s, fuel), Exec(P, t.kids[0], s', fuel);
    if r.0.Done? && r.0.value.Some? {
      var k := ArmIndex(P, t.kids, r.0.value.value, 1);
      FreshFrom(t.kids, v, k);
      FreshExecAll(P, t.kids[k..], v, r.1, r'.1, fuel);
    }
  }

  lemma {:induction false} FreshWhile(P: Prims, t: Tree, v: Name, s: State, s': State, fuel: nat)
    requires t.kind.WHILE? && |t.kids| >= 2 && Fresh(t, v) && Same(v, s, s') && Blind(P, v)
    ensures Alike(v, Exec(P, t, s, fuel), Exec(P, t, s', fuel))
    decreases fuel, t, 1
  {
    FreshAt(t.kids, v, 0);
    FreshAt(t.kids, v, 1);
    FreshExec(P, t.kids[0], v, s, s', fuel);
    var r, r' := Exec(P, t.kids[0], s, fuel), Exec(P, t.kids[0], s', fuel);
    if r.0.Done? && r.0.value.Some? && r.0.value.value != 0 {
      FreshExec(P, t.kids[1], v, r.1, r'.1, fuel);
      var q, q' := Exec(P, t.kids[1], r.1, fuel), Exec(P, t.kids[1], r'.1, fuel);
      if (q.0.Done? || q.0.Continued?) && fuel > 0 { FreshExec(P, t, v, q.1, q'.1, fuel - 1); }
    }
  }

  lemma {:induction false} FreshOperate(P: Prims, t: Tree, v: Name, s: State, s': State, fuel: nat)
    requires Fresh(t, v) && Same(v, s, s') && Blind(P, v)
    ensures Alike(v, Operate(P, t, s, fuel), Operate(P, t, s', fuel))
    decreases fuel, t, 1
  {
    FreshOperands(P, t.kids, v, s, s', fuel);
  }

  lemma {:induction false} FreshOperands(P: Prims, ts: seq<Tree>, v: Name, s: State, s': State, fuel: nat)
    requires AllFresh(ts, v) && Same(v, s, s') && Blind(P, v)
    ensures var (o, xs, s1) := Operands(P, ts, s, fuel); var (o', xs', s1') := Operands(P, ts, s', fuel);
            o == o' && xs == xs' && Same(v, s1, s1')
    decreases fuel, ts, 0
  {
    if ts != [] {
      FreshExec(P, ts[0], v, s, s', fuel);
      FreshOperands(P, ts[1..], v, Exec(P, ts[0], s, fuel).1, Exec(P, ts[0], s', fuel).1, fuel);
    }
  }

  lemma {:induction false} FreshExecAll(P: Prims, ts: seq<Tree>, v: Name, s: State, s': State, fuel: nat)
    requires AllFresh(ts, v) && Same(v, s, s') && Blind(P, v)
    ensures Alike(v, ExecAll(P, ts, s, fuel), ExecAll(P, ts, s', fuel))
    decreases fuel, ts, 0
  {
    if ts != [] {
      FreshExec(P, ts[0], v, s, s', fuel);
      if |ts| > 1 {
        FreshExecAll(P, ts[1..], v, Exec(P, ts[0], s, fuel).1, Exec(P, ts[0], s', fuel).1, fuel);
      }
    }
  }

  // ---------------------------------------------------------------- the rewriting keeps the meaning

  /** Every tail is an expression, an excluded statement, or a block, if or switch with such
      tails: no loop or declaration of a function or type stands in tail position. */
  predicate TailOk(t: Tree)
    decreases t, 1
  {
    if Passes(t.kind) then TailsOk(t.kind, t.kids, 0) else Excluded(t.kind) || IsExpr(t.kind)
  }

  predicate TailsOk(k: Kind, kids: seq<Tree>, i: nat)
    decreases kids, 0
  {
    kids == [] || ((IsTail(k, i, i + |kids|) ==> TailOk(kids[0])) && TailsOk(k, kids[1..], i + 1))
  }

  /** `u` is the tree itself, or reached from it through the last statements of blocks and the
      children behind the first of ifs, switches and cases. */
  ghost predicate TailOf(t: Tree, u: Tree)
    decreases t
  {
    || u == t
    || (t.kind.BLOCK? && t.kids != [] && TailOf(t.kids[|t.kids| - 1], u))
    || ((t.kind.IF? || t.kind.SWITCH? || t.kind.CASE?) && exists i :: 1 <= i < |t.kids| && TailOf(t.kids[i], u))
  }

  /** The kinds that may stand in tail position: expressions, statements that yield nothing, and
      statements with tails of their own. */
  predicate MayBeTail(k: Kind) {
    match k
    case BINOP | UOP | ADDR_OF | DEREF | FUNC_CALL | MEMBER | INDEX | CAST | SIZEOF => true
    case IDENTIF | NUM_LIT | STR_LIT | CHAR_LIT | BOOL_LIT | NULL_LIT | ARRAY_LIT => true
    case BREAK | CONTINUE | RET | DEFER | VAR_DECL => true
    case BLOCK | IF | SWITCH | CASE => true
    case _ => false
  }

  /** Exactly these trees qualify. */
  lemma {:induction false} TailsThatQualify(t: Tree)
    ensures TailOk(t) <==> forall u :: TailOf(t, u) ==> MayBeTail(u.kind)
    decreases t, 1
  {
    if Passes(t.kind) {
      KidTailsThatQualify(t.kind, t.kids, 0);
      assert TailOf(t, t);
      if TailOk(t) {
        forall u | TailOf(t, u) ensures MayBeTail(u.kind) {
          if u != t { TailIsBelow(t, u); }
        }
      } else {
        var j: nat, u :| j < |t.kids| && IsTail(t.kind, j, |t.kids|) && TailOf(t.kids[j], u) && !MayBeTail(u.kind);
        assert TailOf(t, u);
      }
    } else {
      assert TailOf(t, t) && forall u :: TailOf(t, u) ==> u == t;
    }
  }

  lemma {:induction false} TailIsBelow(t: Tree, u: Tree)
    requires TailOf(t, u) && u != t
    ensures Passes(t.kind) && exists j: nat :: j < |t.kids| && IsTail(t.kind, j, |t.kids|) && TailOf(t.kids[j], u)
  {
    if t.kind.BLOCK? {
      assert IsTail(t.kind, |t.kids| - 1, |t.kids|);
    } else {
      var i :| 1 <= i < |t.kids| && TailOf(t.kids[i], u);
      assert IsTail(t.kind, i, |t.kids|);
    }
  }

  lemma {:induction false} KidTailsThatQualify(k: Kind, kids: seq<Tree>, i: nat)
    ensures TailsOk(k, kids, i) <==>
            forall j: nat, u :: j < |kids| && IsTail(k, i + j, i + |kids|) && TailOf(kids[j], u) ==> MayBeTail(u.kind)
    decreases kids, 0
  {
    if kids != [] {
      TailsThatQualify(kids[0]);
      KidTailsThatQualify(k, kids[1..], i + 1);
      assert forall j: nat :: j < |kids[1..]| ==> kids[1..][j] == kids[j + 1] && i + 1 + j == i + (j + 1);
    }
  }

  lemma {:induction false} InjectAt(k: Kind, kids: seq<Tree>, v: Name, i: nat, j: nat)
    requires j < |kids|
    ensures InjectKids(k, kids, v, i)[j] == if IsTail(k, i + j, i + |kids|) then Inject(kids[j], v) else kids[j]
    ensures TailsOk(k, kids, i) && IsTail(k, i + j, i + |kids|) ==> TailOk(kids[j])
    decreases j
  {
    if j > 0 { InjectAt(k, kids[1..], v, i + 1, j - 1); }
  }

  /** The rewritten run `r'` has the effects and the way of ending of `r`, and if `r` ends
      normally with a value, variable `v` holds it. */
  ghost predicate Yields(v: Name, r: Run, r': Run) {
    Alike(v, r, r') && (r.0.Done? && r.0.value.Some? ==> r'.1.env[v] == r.0.value.value)
  }

  /** `ts'` is `ts` with its last tree, and possibly others, rewritten. */
  ghost predicate Rewritten(ts: seq<Tree>, ts': seq<Tree>, v: Name) {
    && |ts| == |ts'|
    && (forall i :: 0 <= i < |ts| ==> ts'[i] == ts[i] || (TailOk(ts[i]) && ts'[i] == Inject(ts[i], v)))
    && (|ts| > 0 ==> TailOk(ts[|ts| - 1]) && ts'[|ts| - 1] == Inject(ts[|ts| - 1], v))
  }

  /** inject_yield_assignments preserves meaning: from states that agree but for the fresh
      variable, the rewritten tree has the same effects and ends the same way, and when the
      original yields a value the variable holds it. */
  lemma {:induction false} InjectKeepsMeaning(P: Prims, t: Tree, v: Name, s: State, s': State, fuel: nat)
    requires Fresh(t, v) && TailOk(t) && Blind(P, v) && Same(v, s, s')
    ensures Yields(v, Exec(P, t, s, fuel), Exec(P, Inject(t, v), s', fuel))
    decreases t, 1
  {
    if t.kind.BLOCK? {
      BlockKeepsMeaning(P, t, v, s, s', fuel);
    } else if t.kind.IF? {
      IfKeepsMeaning(P, t, v, s, s', fuel);
    } else if t.kind.SWITCH? {
      SwitchKeepsMeaning(P, t, v, s, s', fuel);
    } else if t.kind.CASE? {
      if |t.kids| >= 2 {
        InjectAt(CASE, t.kids, v, 0, 1);
        FreshAt(t.kids, v, 1);
        InjectKeepsMeaning(P, t.kids[1], v, s, s', fuel);
      }
    } else {
      FreshExec(P, t, v, s, s', fuel);
      if Excluded(t.kind) {
        ExcludedYieldsNothing(P, t, s, fuel);
      }
    }
  }

  lemma {:induction false} ExcludedYieldsNothing(P: Prims, t: Tree, s: State, fuel: nat)
    requires Excluded(t.kind)
    requires forall s :: var o := P.other(t, s).0; o.Done? ==> o.value.None?
    ensures var o := Exec(P, t, s, fuel).0; o.Done? ==> o.value.None?
  {
  }

  lemma {:induction false} BlockKeepsMeaning(P: Prims, t: Tree, v: Name, s: State, s': State, fuel: nat)
    requires t.kind.BLOCK? && Fresh(t, v) && TailOk(t) && Blind(P, v) && Same(v, s, s')
    ensures Yields(v, Exec(P, t, s, fuel), Exec(P, Inject(t, v), s', fuel))
    decreases t, 0
  {
    var ts, ts' := t.kids, Inject(t, v).kids;
    forall i | 0 <= i < |ts| ensures ts'[i] == (if i + 1 == |ts| then Inject(ts[i], v) else ts[i])
                                     && (i + 1 == |ts| ==> TailOk(ts[i])) {
      InjectAt(BLOCK, ts, v, 0, i);
    }
    AllKeepMeaning(P, ts, ts', v, s, s', fuel);
    assert Declared(ts') == Declared(ts) by {
      forall i | 0 <= i < |ts| ensures ts'[i].kind.VAR_DECL? == ts[i].kind.VAR_DECL?
                                       && (ts[i].kind.VAR_DECL? ==> ts'[i].name == ts[i].name) {}
    }
    LeaveSame(v, s, s', ExecAll(P, ts, s, fuel).1, ExecAll(P, ts', s', fuel).1, ts, ts');
  }

  lemma {:induction false} IfKeepsMeaning(P: Prims, t: Tree, v: Name, s: State, s': State, fuel: nat)
    requires t.kind.IF? && Fresh(t, v) && TailOk(t) && Blind(P, v) && Same(v, s, s')
    ensures Yields(v, Exec(P, t, s, fuel), Exec(P, Inject(t, v), s', fuel))
    decreases t, 0
  {
    if |t.kids| >= 2 {
      forall i | 0 <= i < |t.kids| ensures Fresh(t.kids[i], v) { FreshAt(t.kids, v, i); }
      InjectAt(IF, t.kids, v, 0, 0);
      InjectAt(IF, t.kids, v, 0, 1);
      FreshExec(P, t.kids[0], v, s, s', fuel);
      var r, r' := Exec(P, t.kids[0], s, fuel), Exec(P, t.kids[0], s', fuel);
      InjectKeepsMeaning(P, t.kids[1], v, r.1, r'.1, fuel);
      if |t.kids| > 2 {
        InjectAt(IF, t.kids, v, 0, 2);
        InjectKeepsMeaning(P, t.kids[2], v, r.1, r'.1, fuel);
      }
    }
  }

  lemma {:induction false} SwitchKeepsMeaning(P: Prims, t: Tree, v: Name, s: State, s': State, fuel: nat)
    requires t.kind.SWITCH? && Fresh(t, v) && TailOk(t) && Blind(P, v) && Same(v, s, s')
    ensures Yields(v, Exec(P, t, s, fuel), Exec(P, Inject(t, v), s', fuel))
    decreases t, 0
  {
    if |t.kids| >= 1 {
      var ts, ts' := t.kids, Inject(t, v).kids;
      forall i | 0 <= i < |ts|
        ensures Fresh(ts[i], v) && ts'[i] == (if i > 0 then Inject(ts[i], v) else ts[i]) && (i > 0 ==> TailOk(ts[i]))
      {
        FreshAt(ts, v, i);
        InjectAt(SWITCH, ts, v, 0, i);
      }
      FreshExec(P, ts[0], v, s, s', fuel);
      var r, r' := Exec(P, ts[0], s, fuel), Exec(P, ts[0], s', fuel);
      if r.0.Done? && r.0.value.Some? {
        var k := ArmIndex(P, ts, r.0.value.value, 1);
        SameArm(P, ts, ts', v, r.0.value.value, 1);
        FreshFrom(ts, v, k);
        AllKeepMeaning(P, ts[k..], ts'[k..], v, r.1, r'.1, fuel);
      }
    }
  }

  /** Rewriting its arms does not change where a switch starts. */
  lemma {:induction false} SameArm(P: Prims, ts: seq<Tree>, ts': seq<Tree>, v: Name, x: int, i: nat)
    requires 1 <= i <= |ts| == |ts'| && forall j :: i <= j < |ts| ==> ts'[j] == Inject(ts[j], v)
    ensures ArmIndex(P, ts', x, i) == ArmIndex(P, ts, x, i)
    decreases |ts| - i
  {
    if i < |ts| {
      var arm := ts[i];
      if arm.kind.CASE? && arm.kids != [] { InjectAt(CASE, arm.kids, v, 0, 0); }
      SameArm(P, ts, ts', v, x, i + 1);
    }
  }

  lemma {:induction false} AllKeepMeaning(P: Prims, ts: seq<Tree>, ts': seq<Tree>, v: Name, s: State, s': State,
                                          fuel: nat)
    requires AllFresh(ts, v) && Rewritten(ts, ts', v) && Blind(P, v) && Same(v, s, s')
    ensures Yields(v, ExecAll(P, ts, s, fuel), ExecAll(P, ts', s', fuel))
    decreases ts, 0
  {
    if ts != [] {
      if ts'[0] == ts[0] {
        FreshExec(P, ts[0], v, s, s', fuel);
      } else {
        InjectKeepsMeaning(P, ts[0], v, s, s', fuel);
      }
      if |ts| > 1 {
        AllKeepMeaning(P, ts[1..], ts'[1..], v, Exec(P, ts[0], s, fuel).1, Exec(P, ts'[0], s', fuel).1, fuel);
      } else {
        InjectKeepsMeaning(P, ts[0], v, s, s', fuel);
      }
    }
  }

  // ---------------------------------------------------------------- which trees it works for

  /** Operands are expressions, or blocks used as expressions. */
  predicate Legal(t: Tree)
    decreases t, 1
  {
    && AllLegal(t.kids)
    && (IsExpr(t.kind) ==> forall i :: 0 <= i < |t.kids| ==> IsExpr(t.kids[i].kind) || t.kids[i].kind.BLOCK?)
  }

  predicate AllLegal(ts: seq<Tree>)
    decreases ts, 0
  {
    ts == [] || (Legal(ts[0]) && AllLegal(ts[1..]))
  }

  /** The rewriting yields a legal tree exactly when every tail of the tree qualifies. */
  lemma {:induction false} LegalExactlyWhenTailsOk(t: Tree, v: Name)
    requires Legal(t)
    ensures Legal(Inject(t, v)) <==> TailOk(t)
    decreases t, 1
  {
    if Passes(t.kind) {
      LegalKids(t.kind, t.kids, v, 0);
    } else if !Excluded(t.kind) {
      var target := Tree(IDENTIF, v, []);
      assert AllLegal([t][1..]) && Legal(target);
      assert [target, t][1..] == [t];
      var a := Assignment(v, t);
      assert a.kids[0] == target && a.kids[1] == t && AllLegal(a.kids);
      assert Legal(a) <==> IsExpr(a.kids[1].kind);
    }
  }

  lemma {:induction false} LegalKids(k: Kind, kids: seq<Tree>, v: Name, i: nat)
    requires AllLegal(kids) && Passes(k)
    ensures AllLegal(InjectKids(k, kids, v, i)) <==> TailsOk(k, kids, i)
    decreases kids, 0
  {
    if kids != [] {
      LegalExactlyWhenTailsOk(kids[0], v);
      LegalKids(k, kids[1..], v, i + 1);
    }
  }

  const ZERO: Tree := Tree(NUM_LIT, [48], [])
  const ONE: Tree := Tree(NUM_LIT, [49], [])
  const LOOP: Tree := Tree(WHILE, [], [ZERO, Tree(BLOCK, [], [])])

  /** `{ if (0) { 1 } else { while (0) {} } }`, a block with the type of its first branch. */
  const LOOP_TAIL: Tree := Tree(BLOCK, [], [Tree(IF, [], [ZERO, Tree(BLOCK, [], [ONE]), Tree(BLOCK, [], [LOOP])])])

  /** A loop in tail position is where it goes wrong: the block runs to its end, but the
      rewritten block tries to assign the loop and is stuck. */
  lemma {:induction false} LoopTailIsStuck(P: Prims, v: Name, s: State)
    requires P.literal([48]) == 0
    ensures Legal(LOOP_TAIL) && !TailOk(LOOP_TAIL)
    ensures Exec(P, LOOP_TAIL, s, 1).0 == Done(None) && Exec(P, Inject(LOOP_TAIL, v), s, 1).0 == Stuck
  {
    var yes, no := Tree(BLOCK, [], [ONE]), Tree(BLOCK, [], [LOOP]);
    var choice := Tree(IF, [], [ZERO, yes, no]);
    var yes', no' := Inject(yes, v), Inject(no, v);
    LoopIsStuck(P, v, s);
    assert [ZERO, yes, no][1..] == [yes, no] && [yes, no][1..] == [no] && [no][1..] == [];
    assert InjectKids(IF, [yes, no], v, 1) == [yes', no'] by { assert InjectKids(IF, [no], v, 2) == [no']; }
    assert Inject(choice, v) == Tree(IF, [], [ZERO, yes', no']);
    assert Inject(LOOP_TAIL, v) == Tree(BLOCK, [], [Inject(choice, v)]);
    assert Exec(P, choice, s, 1) == Exec(P, no, s, 1);
    assert Exec(P, Inject(choice, v), s, 1) == Exec(P, no', s, 1);
    assert !TailOk(choice) by {
      assert !TailsOk(IF, [no], 2);
      assert !TailsOk(IF, [yes, no], 1);
    }
    assert !TailsOk(BLOCK, [choice], 0);
    assert Legal(choice) by { assert AllLegal([yes, no]) && AllLegal([ZERO, yes, no]); }
    assert AllLegal([choice]);
  }

  lemma {:induction false} LoopIsStuck(P: Prims, v: Name, s: State)
    requires P.literal([48]) == 0
    ensures var block := Tree(BLOCK, [], [LOOP]);
            && Legal(block) && !TailOk(block) && Legal(Tree(BLOCK, [], [ONE]))
            && Exec(P, block, s, 1).0 == Done(None) && Exec(P, Inject(block, v), s, 1).0 == Stuck
  {
    assert Exec(P, LOOP, s, 1) == (Done(None), s);
    assert InjectKids(BLOCK, [LOOP], v, 0) == [Assignment(v, LOOP)];
    assert Exec(P, Assignment(v, LOOP), s, 1) == (Stuck, s);
    assert AllLegal(LOOP.kids) by {
      var body := Tree(BLOCK, [], []);
      assert LOOP.kids[1..] == [body] && [body][1..] == [];
      assert Legal(body) && Legal(ZERO);
    }
    assert IsTail(BLOCK, 0, 1) && !TailOk(LOOP);
    assert !TailsOk(BLOCK, [LOOP], 0);
    assert Legal(LOOP) && Legal(ONE) && [LOOP][1..] == [] && [ONE][1..] == [];
    assert AllLegal([LOOP]) && AllLegal([ONE]);
  }
}
