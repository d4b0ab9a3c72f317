/** The two-stack operator-precedence machine of src/parser.c: parse_step in the states
    STATE_IN_EXPR and STATE_GROUPING_DONE, apply_op, push_op, push_node and pop_node. */
module ExprMachine {
  import opened Expr
  import opened ExprCasts

  /** The two states of the expression parser, and whatever state lies below them. */
  datatype PState = InExpr | GroupingDone | Other(name: string)

  /** An entry of op_stack: an open group, or an operator waiting for its operands (a cast
      is the source's operator of length 0). */
  datatype OpInfo =
    | Paren
    | CastOp(target: seq<Tok>)
    | Pending(op: Op, unary: bool, postfix: bool)
  {
    predicate Infix() { Pending? && !unary }
    predicate Postfix() { Pending? && unary && postfix }

    function Precedence(): int
      requires !Paren?
    {
      if CastOp? then 12 else GetPrecedence(op, unary, postfix)
    }

    function Build(operand: Tree): Tree
      requires !Paren? && !Infix()
    {
      if CastOp? then Cast(target, operand) else Unary(op, postfix, operand)
    }

    predicate Fine() {
      Pending? ==> !op.Dot? && (postfix ==> unary && IsStep(op)) && (!unary ==> !IsStep(op))
    }
  }

  // ---------------------------------------------------------------- what a state means

  /** The precedence a new operator competes with; `floor` is the height of what lies below
      this expression on op_stack. */
  function Bound(floor: nat, ops: seq<OpInfo>): int {
    if |ops| <= floor || ops[|ops| - 1].Paren? then OPEN else ops[|ops| - 1].Precedence()
  }

  /** The left operands that wait on node_stack, one for each infix operator. */
  function Lefts(floor: nat, ops: seq<OpInfo>): nat {
    if |ops| <= floor then 0
    else Lefts(floor, ops[..|ops| - 1]) + if ops[|ops| - 1].Infix() then 1 else 0
  }

  /** The open groups. */
  function Groups(floor: nat, ops: seq<OpInfo>): nat {
    if |ops| <= floor then 0
    else Groups(floor, ops[..|ops| - 1]) + if ops[|ops| - 1].Paren? then 1 else 0
  }

  /** What remains to be parsed when the operand on top of `nodes` is complete and the
      entries of `ops` above `floor` wait: the continuation of the reference parser. */
  function Resume(floor: nat, ops: seq<OpInfo>, nodes: seq<Tree>, toks: seq<Tok>): Parsed
    requires |nodes| > Lefts(floor, ops)
    decreases |ops|
  {
    var n := |nodes| - 1;
    var (t, rest) :- Climb(Bound(floor, ops), nodes[n], toks);
    if |ops| <= floor then Ok((t, rest)) else
    var top, below := ops[|ops| - 1], ops[..|ops| - 1];
    if top.Paren? then
      if rest != [] && rest[0].RParen? then Resume(floor, below, nodes[..n] + [t], rest[1..]) else Fail(Syntax)
    else if top.Infix() then
      Resume(floor, below, nodes[..n - 1] + [Binary(top.op, nodes[n - 1], t)], rest)
    else
      Resume(floor, below, nodes[..n] + [top.Build(t)], rest)
  }

  /** The same when the next operand is still to come. */
  function Await(floor: nat, ops: seq<OpInfo>, nodes: seq<Tree>, toks: seq<Tok>): Parsed
    requires |nodes| >= Lefts(floor, ops)
  {
    var (u, rest) :- ParseUnary(toks);
    Resume(floor, ops, nodes + [u], rest)
  }

  lemma {:induction false} Pushed(floor: nat, ops: seq<OpInfo>, top: OpInfo)
    requires floor <= |ops|
    ensures (ops + [top])[..|ops|] == ops
    ensures Lefts(floor, ops + [top]) == Lefts(floor, ops) + if top.Infix() then 1 else 0
    ensures Groups(floor, ops + [top]) == Groups(floor, ops) + if top.Paren? then 1 else 0
  {
    assert (ops + [top])[..|ops|] == ops;
  }

  /** The entry that a group, a cast or a prefix operator leaves on op_stack, and the tokens
      after it. */
  predicate Opens(toks: seq<Tok>, top: OpInfo, after: seq<Tok>) {
    && toks != []
    && match toks[0]
       case LParen =>
         if IsType(toks[1..]) then top.CastOp? && ReadCast(toks[1..]) == Ok((top.target, after))
         else top == Paren && after == toks[1..]
       case OpTok(op) => !op.Dot? && top == Pending(op, true, false) && after == toks[1..]
       case _ => false
  }

  /** Pushing a prefix operator, a cast or a group keeps the meaning. */
  lemma {:induction false} AwaitPush(floor: nat, ops: seq<OpInfo>, nodes: seq<Tree>, toks: seq<Tok>, top: OpInfo,
                                     after: seq<Tok>)
    requires floor <= |ops| && |nodes| >= Lefts(floor, ops) && Opens(toks, top, after)
    ensures Lefts(floor, ops + [top]) == Lefts(floor, ops)
    ensures Await(floor, ops, nodes, toks) == Await(floor, ops + [top], nodes, after)
  {
    Pushed(floor, ops, top);
    var bound := if top.Paren? then OPEN else PREFIX;
    assert Bound(floor, ops + [top]) == bound;
    var u := ParseUnary(after);
    if u.Ok? {
      assert (nodes + [u.value.0])[..|nodes|] == nodes;
      assert Parse(bound, after) == Climb(bound, u.value.0, u.value.1);
    } else {
      assert Parse(bound, after) == Fail(u.why);
    }
  }

  /** Applying an operator that the next token does not outbid keeps the meaning. */
  lemma {:induction false} ResumeApply(floor: nat, ops: seq<OpInfo>, nodes: seq<Tree>, toks: seq<Tok>)
    requires floor < |ops| && !ops[|ops| - 1].Paren? && |nodes| > Lefts(floor, ops)
    requires AtEnd(toks) || (toks[0].OpTok? && !toks[0].op.Dot? && !Enters(Bound(floor, ops), toks[0].op))
    ensures var top, below, n := ops[|ops| - 1], ops[..|ops| - 1], |nodes| - 1;
            Resume(floor, ops, nodes, toks) ==
              if top.Infix() then Resume(floor, below, nodes[..n - 1] + [Binary(top.op, nodes[n - 1], nodes[n])], toks)
              else Resume(floor, below, nodes[..n] + [top.Build(nodes[n])], toks)
  {
  }

  /** Pushing an infix operator that outbids what waits keeps the meaning. */
  lemma {:induction false} ResumeInfix(floor: nat, ops: seq<OpInfo>, nodes: seq<Tree>, toks: seq<Tok>)
    requires floor <= |ops| && |nodes| > Lefts(floor, ops) && toks != [] && toks[0].OpTok?
    requires var q := toks[0].op; !q.Dot? && !IsStep(q) && Enters(Bound(floor, ops), q)
    ensures var ops' := ops + [Pending(toks[0].op, false, false)];
            && Lefts(floor, ops') == Lefts(floor, ops) + 1
            && Resume(floor, ops, nodes, toks) == Await(floor, ops', nodes, toks[1..])
  {
    var q, n := toks[0].op, |nodes| - 1;
    var top := Pending(q, false, false);
    Pushed(floor, ops, top);
    assert Bound(floor, ops + [top]) == BinaryPrecedence(q);
    var u := ParseUnary(toks[1..]);
    var p := Parse(BinaryPrecedence(q), toks[1..]);
    if u.Ok? {
      assert p == Climb(BinaryPrecedence(q), u.value.0, u.value.1);
      if p.Ok? {
        var t := Binary(q, nodes[n], p.value.0);
        assert (nodes + [u.value.0])[..n] == nodes[..n];
        assert Climb(Bound(floor, ops), nodes[n], toks) == Climb(Bound(floor, ops), t, p.value.1);
        assert Resume(floor, ops + [top], nodes + [u.value.0], u.value.1) ==
               Resume(floor, ops, nodes[..n] + [t], p.value.1);
        ResumeTop(floor, ops, nodes, toks, nodes[..n] + [t], p.value.1);
      }
    }
  }

  /** Only what Climb makes of the operand on top matters. */
  lemma {:induction false} ResumeTop(floor: nat, ops: seq<OpInfo>, nodes: seq<Tree>, toks: seq<Tok>,
                                     nodes': seq<Tree>, toks': seq<Tok>)
    requires floor <= |ops| && |nodes| == |nodes'| > Lefts(floor, ops)
    requires nodes[..|nodes| - 1] == nodes'[..|nodes| - 1]
    requires Climb(Bound(floor, ops), nodes[|nodes| - 1], toks) == Climb(Bound(floor, ops), nodes'[|nodes| - 1], toks')
    ensures Resume(floor, ops, nodes, toks) == Resume(floor, ops, nodes', toks')
  {
    var n := |nodes| - 1;
    if n > 0 {
      assert nodes[..n][n - 1] == nodes'[..n][n - 1];
      assert nodes[..n - 1] == nodes[..n][..n - 1];
      assert nodes'[..n - 1] == nodes'[..n][..n - 1];
    }
  }

  /** No operator outbids a postfix operator. */
  lemma {:induction false} ClimbTight(cur: Tree, toks: seq<Tok>)
    ensures var r := Climb(13, cur, toks);
            if r.Ok? then r.value == (cur, toks)
            else forall b, t :: Climb(b, t, toks) == r
  {
  }

  /** Pushing a postfix operator keeps the meaning. */
  lemma {:induction false} ResumePostfix(floor: nat, ops: seq<OpInfo>, nodes: seq<Tree>, toks: seq<Tok>)
    requires floor <= |ops| && |nodes| > Lefts(floor, ops) && toks != [] && toks[0].OpTok?
    requires IsStep(toks[0].op) && Enters(Bound(floor, ops), toks[0].op)
    ensures var ops' := ops + [Pending(toks[0].op, true, true)];
            && Lefts(floor, ops') == Lefts(floor, ops)
            && Resume(floor, ops, nodes, toks) == Resume(floor, ops', nodes, toks[1..])
  {
    var q, n := toks[0].op, |nodes| - 1;
    var top := Pending(q, true, true);
    Pushed(floor, ops, top);
    assert Bound(floor, ops + [top]) == 13;
    ClimbTight(nodes[n], toks[1..]);
    var t := Unary(q, true, nodes[n]);
    assert Climb(Bound(floor, ops), nodes[n], toks) == Climb(Bound(floor, ops), t, toks[1..]);
    ResumeTop(floor, ops, nodes, toks, nodes[..n] + [t], toks[1..]);
  }

  // ---------------------------------------------------------------- the machine

  /** What lies on the three stacks below the expression being parsed. */
  datatype Base = Base(states: seq<PState>, nodes: seq<Tree>, ops: seq<OpInfo>)

  datatype Error = NoError | Reported(why: Failure)

  class Parser {
    var toks: seq<Tok>        // curr and what follows it
    var states: seq<PState>
    var nodes: seq<Tree>
    var ops: seq<OpInfo>
    var expectOperand: bool
    var error: Error

    /** Above the base lie only well-formed entries, the left operands they wait on, and
        `operands` more nodes. */
    ghost predicate Stacked(b: Base, operands: nat)
      reads this`nodes, this`ops
    {
      && b.nodes <= nodes && b.ops <= ops && Bound(0, b.ops) == OPEN
      && (forall i :: |b.ops| <= i < |ops| ==> ops[i].Fine())
      && |nodes| == |b.nodes| + Lefts(|b.ops|, ops) + operands
    }

    /** Above the base lie `n` states STATE_GROUPING_DONE, one for each open group. */
    ghost predicate Grouped(b: Base, n: int)
      reads this`states, this`ops
    {
      && b.states <= states && |b.states| + Groups(|b.ops|, ops) == n <= |states|
      && forall i :: |b.states| <= i < n ==> states[i] == GroupingDone
    }

    ghost predicate AwaitsOperand(b: Base)
      reads this`nodes, this`ops
    {
      Stacked(b, 0) && (|ops| == |b.ops| || !ops[|ops| - 1].Postfix())
    }

    ghost predicate AtClose(b: Base)
      reads this`nodes, this`ops, this`toks
    {
      Stacked(b, 1) && AtEnd(toks) && (|ops| == |b.ops| || ops[|ops| - 1].Paren?)
    }

    ghost predicate Running(b: Base)
      reads this`states
    {
      |states| > |b.states| && states[|states| - 1].InExpr?
    }

    /** Between steps: STATE_IN_EXPR is on top, or the expression or a group is finished. */
    ghost predicate Inside(b: Base)
      reads this
    {
      if Running(b) then
        Grouped(b, |states| - 1) && if expectOperand then AwaitsOperand(b) else Stacked(b, 1)
      else
        Grouped(b, |states|) && AtClose(b)
    }

    /** The result the reference parser reaches from here. */
    ghost function Meaning(b: Base): Parsed
      requires Inside(b)
      reads this
    {
      if Running(b) && expectOperand
      then Await(|b.ops|, ops, nodes, toks)
      else Resume(|b.ops|, ops, nodes, toks)
    }

    method PopNode() returns (n: Tree)
      requires nodes != []
      modifies this`nodes
      ensures n == old(nodes)[|old(nodes)| - 1] && nodes == old(nodes)[..|old(nodes)| - 1]
    {
      n := nodes[|nodes| - 1];
      nodes := nodes[..|nodes| - 1];
    }

    /** apply_op: the top operator takes its operands from node_stack and leaves its node. */
    method ApplyOp()
      requires ops != [] && !ops[|ops| - 1].Paren?
      modifies this`ops, this`nodes, this`error
      ensures ops == old(ops)[..|old(ops)| - 1]
      ensures var top, n := old(ops)[|old(ops)| - 1], |old(nodes)|;
              if n < (if top.Infix() then 2 else 1) then error == Reported(Syntax) && nodes == old(nodes)
              else
                && error == old(error)
                && nodes ==
                     if top.Infix() then old(nodes)[..n - 2] + [Binary(top.op, old(nodes)[n - 2], old(nodes)[n - 1])]
                     else old(nodes)[..n - 1] + [top.Build(old(nodes)[n - 1])]
    {
      var info := ops[|ops| - 1];
      ops := ops[..|ops| - 1];
      if !info.Infix() {
        if |nodes| < 1 { error := Reported(Syntax); return; }
        var operand := PopNode();
        nodes := nodes + [info.Build(operand)];
      } else {
        if |nodes| < 2 { error := Reported(Syntax); return; }
        var right := PopNode();
        var left := PopNode();
        nodes := nodes + [Binary(info.op, left, right)];
      }
    }

    /** One apply_op in the middle of an expression. */
    method Apply(ghost b: Base)
      requires Stacked(b, 1) && |ops| > |b.ops| && !ops[|ops| - 1].Paren?
      requires AtEnd(toks) || (toks[0].OpTok? && !toks[0].op.Dot? && !Enters(ops[|ops| - 1].Precedence(), toks[0].op))
      modifies this`ops, this`nodes, this`error
      ensures Stacked(b, 1) && error == old(error) && |ops| < old(|ops|)
      ensures Resume(|b.ops|, ops, nodes, toks) == old(Resume(|b.ops|, ops, nodes, toks))
      ensures Groups(|b.ops|, ops) == old(Groups(|b.ops|, ops))
    {
      ResumeApply(|b.ops|, ops, nodes, toks);
      ApplyOp();
    }

    /** The loop at the end of an expression: apply everything down to the group or base. */
    method Reduce(ghost b: Base)
      requires Stacked(b, 1) && AtEnd(toks)
      modifies this`ops, this`nodes, this`error
      ensures AtClose(b) && error == old(error)
      ensures Resume(|b.ops|, ops, nodes, toks) == old(Resume(|b.ops|, ops, nodes, toks))
      ensures Groups(|b.ops|, ops) == old(Groups(|b.ops|, ops))
    {
      while ops != []
        invariant Stacked(b, 1) && error == old(error)
        invariant Resume(|b.ops|, ops, nodes, toks) == old(Resume(|b.ops|, ops, nodes, toks))
        invariant Groups(|b.ops|, ops) == old(Groups(|b.ops|, ops))
        decreases |ops|
      {
        if ops[|ops| - 1].Paren? { break; }
        assert |ops| == |b.ops| ==> ops == b.ops;
        Apply(b);
      }
    }

    /** The loop before an operator is pushed: apply what it does not outbid.  A prefix
        operator outbids everything. */
    method Outbid(q: Op, unary: bool, postfix: bool, ghost b: Base)
      requires toks != [] && toks[0] == OpTok(q) && !q.Dot?
      requires if unary && !postfix then AwaitsOperand(b)
               else Stacked(b, 1) && unary == postfix == IsStep(q)
      modifies this`ops, this`nodes, this`error
      ensures error == old(error)
      ensures if unary && !postfix then ops == old(ops) && nodes == old(nodes)
              else Stacked(b, 1) && Enters(Bound(|b.ops|, ops), q)
                   && Resume(|b.ops|, ops, nodes, toks) == old(Resume(|b.ops|, ops, nodes, toks))
                   && Groups(|b.ops|, ops) == old(Groups(|b.ops|, ops))
    {
      var precedence := GetPrecedence(q, unary, postfix);
      var leftAssoc := !(unary && !postfix) && !q.Assign?;
      while ops != [] && !ops[|ops| - 1].Paren?
        invariant error == old(error)
        invariant if unary && !postfix then ops == old(ops) && nodes == old(nodes)
                  else Stacked(b, 1) && Groups(|b.ops|, ops) == old(Groups(|b.ops|, ops))
                       && Resume(|b.ops|, ops, nodes, toks) == old(Resume(|b.ops|, ops, nodes, toks))
        decreases |ops|
      {
        var top := ops[|ops| - 1].Precedence();
        assert |ops| == |b.ops| ==> ops == b.ops;
        if (leftAssoc && top >= precedence) || (!leftAssoc && top > precedence) {
          Apply(b);
        } else {
          break;
        }
      }
    }

    /** push_op, then move on to the next token in STATE_IN_EXPR again. */
    method PushAndGoOn(info: OpInfo, after: seq<Tok>, ghost b: Base)
      requires |after| < |toks| && |b.ops| <= |ops| && Grouped(b, |states|)
      modifies this`ops, this`toks, this`states
      ensures ops == old(ops) + [info] && toks == after
      ensures Grouped(b, |states| - 1) && states[|states| - 1] == InExpr
      ensures |states| == old(|states|) + if info.Paren? then 2 else 1
    {
      Pushed(|b.ops|, ops, info);
      ops := ops + [info];
      toks := after;
      if info.Paren? {
        states := states + [GroupingDone];
      }
      states := states + [InExpr];
    }

    /** In the middle of a step in STATE_IN_EXPR, its own state popped. */
    ghost predicate Entered(b: Base)
      reads this
    {
      && (if expectOperand then AwaitsOperand(b) else Stacked(b, 1))
      && Grouped(b, |states|) && error == NoError
    }

    ghost function Sought(b: Base): Parsed
      requires Entered(b)
      reads this
    {
      if expectOperand then Await(|b.ops|, ops, nodes, toks) else Resume(|b.ops|, ops, nodes, toks)
    }

    /** What the branch of a step must achieve. */
    twostate predicate Achieved(b: Base)
      requires old(Entered(b))
      reads this
    {
      if error == NoError then
        Inside(b) && Meaning(b) == old(Sought(b)) && 2 * |toks| + |states| <= old(2 * |toks| + |states|)
      else old(Sought(b)) == Fail(error.why)
    }

    method EndExpression(ghost b: Base)
      requires Entered(b) && AtEnd(toks)
      modifies this
      ensures Achieved(b)
    {
      if expectOperand { error := Reported(Syntax); return; }
      expectOperand := true;
      Reduce(b);
    }

    /** A group, a cast or a prefix operator: push it and go on expecting an operand. */
    method OpenOperand(info: OpInfo, after: seq<Tok>, ghost b: Base)
      requires Entered(b) && expectOperand && Opens(toks, info, after)
      modifies this
      ensures Achieved(b) && error == NoError
    {
      AwaitPush(|b.ops|, ops, nodes, toks, info, after);
      PushAndGoOn(info, after, b);
      assert AwaitsOperand(b);
    }

    method TakeOperand(word: Word, text: string, ghost b: Base)
      requires Entered(b) && toks != [] && toks[0] == Operand(word, text)
      modifies this
      ensures Achieved(b)
    {
      if !expectOperand { error := Reported(Syntax); return; }
      expectOperand := false;
      nodes := nodes + [Leaf(word, text)];
      toks := toks[1..];
      states := states + [InExpr];
    }

    method PushPostfix(op: Op, ghost b: Base)
      requires Entered(b) && !expectOperand && toks != [] && toks[0] == OpTok(op)
      requires IsStep(op) && Enters(Bound(|b.ops|, ops), op)
      modifies this
      ensures Achieved(b)
    {
      ResumePostfix(|b.ops|, ops, nodes, toks);
      PushAndGoOn(Pending(op, true, true), toks[1..], b);
      assert Stacked(b, 1);
    }

    method PushInfix(op: Op, ghost b: Base)
      requires Entered(b) && !expectOperand && toks != [] && toks[0] == OpTok(op)
      requires !op.Dot? && !IsStep(op) && Enters(Bound(|b.ops|, ops), op)
      modifies this
      ensures Achieved(b)
    {
      ResumeInfix(|b.ops|, ops, nodes, toks);
      PushAndGoOn(Pending(op, false, false), toks[1..], b);
      expectOperand := true;
      assert AwaitsOperand(b);
    }

    method TakeOperator(op: Op, ghost b: Base)
      requires Entered(b) && toks != [] && toks[0] == OpTok(op)
      modifies this
      ensures Achieved(b)
    {
      if op.Dot? { error := Reported(Outside); return; }
      if expectOperand {
        Outbid(op, true, false, b);
        OpenOperand(Pending(op, true, false), toks[1..], b);
      } else if IsStep(op) {
        Outbid(op, true, true, b);
        PushPostfix(op, b);
      } else {
        Outbid(op, false, false, b);
        PushInfix(op, b);
      }
    }

    /** A cast when what follows looks like a type, and a group otherwise. */
    method TakeParenthesis(ghost b: Base)
      requires Entered(b) && toks != [] && toks[0].LParen?
      modifies this
      ensures Achieved(b)
    {
      if !expectOperand { error := Reported(Outside); return; }
      if IsType(toks[1..]) {
        var cast := ReadCast(toks[1..]);
        if cast.Fail? { error := Reported(Syntax); return; }
        OpenOperand(CastOp(cast.value.0), cast.value.1, b);
      } else {
        OpenOperand(Paren, toks[1..], b);
      }
    }

    /** STATE_GROUPING_DONE. */
    method CloseGroup(ghost b: Base)
      requires Grouped(b, |states|) && AtClose(b) && |states| > |b.states| && error == NoError
      modifies this
      ensures error == NoError ==> Inside(b) && Meaning(b) == old(Resume(|b.ops|, ops, nodes, toks))
      ensures error == NoError ==> 2 * |toks| + |states| < old(2 * |toks| + |states|)
      ensures error != NoError ==> old(Resume(|b.ops|, ops, nodes, toks)) == Fail(error.why)
    {
      states := states[..|states| - 1];
      if ops != [] && ops[|ops| - 1].Paren? {
        ops := ops[..|ops| - 1];
      }
      if toks != [] && toks[0].RParen? {
        toks := toks[1..];
        expectOperand := false;
        states := states + [InExpr];
        assert nodes == nodes[..|nodes| - 1] + [nodes[|nodes| - 1]];
      } else {
        error := Reported(Syntax);
      }
    }

    /** parse_step for the states STATE_IN_EXPR and STATE_GROUPING_DONE: a step that
        succeeds keeps what the reference parser would return from here, and a step that
        reports an error does so exactly where the reference parser fails. */
    method ParseStep(ghost b: Base)
      requires Inside(b) && error == NoError && |states| > |b.states|
      modifies this
      ensures error == NoError ==> Inside(b) && Meaning(b) == old(Meaning(b))
      ensures error == NoError ==> 2 * |toks| + |states| < old(2 * |toks| + |states|)
      ensures error != NoError ==> old(Meaning(b)) == Fail(error.why)
    {
      if !states[|states| - 1].InExpr? {
        CloseGroup(b);
        return;
      }
      states := states[..|states| - 1];
      if AtEnd(toks) {
        EndExpression(b);
        return;
      }
      match toks[0] {
        case LParen => TakeParenthesis(b);
        case Operand(word, text) => TakeOperand(word, text, b);
        case OpTok(op) => TakeOperator(op, b);
        case Qualifier(_) => error := Reported(Syntax);
        case _ => assert false;
      }
    }

    /** Parsing one expression on top of any stacks whose operator stack is empty or ends in
        a group: the machine returns exactly what the reference parser returns, leaves the
        node on top of what was there, and restores everything below; it reports an error
        exactly when the reference parser fails.  Every cast of the tree is to the text that
        stands in its parentheses. */
    method ParseExpression()
      requires error == NoError && Bound(0, ops) == OPEN
      requires expectOperand && states != [] && states[|states| - 1] == InExpr
      modifies this
      ensures var r := Parse(OPEN, old(toks));
              if r.Ok? then
                && error == NoError && toks == r.value.1 && AtEnd(toks)
                && nodes == old(nodes) + [r.value.0] && ops == old(ops)
                && states == old(states)[..|old(states)| - 1]
              else error == Reported(r.why)
      ensures error == NoError ==> nodes != [] && CastsStand(nodes[|nodes| - 1], old(toks))
    {
      ParsedCasts(OPEN, toks);
      var floor := |states| - 1;
      ghost var b := Base(states[..floor], nodes, ops);
      ghost var start := Meaning(b);
      while error == NoError && |states| > floor
        invariant error == NoError ==> |states| >= floor
        invariant if error == NoError then Inside(b) && Meaning(b) == start else start == Fail(error.why)
        decreases error == NoError, 2 * |toks| + |states|
      {
        ParseStep(b);
      }
    }
  }
}
