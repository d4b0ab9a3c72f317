/** The code generator on expressions (src/cgen.c, gen_enter and gen_exit): visitor callbacks
    that print a tree in memory while it is traversed. */
module CodeGen {
  import opened Ast
  import opened Visitor
  import opened Expr
  import opened ExprMachine
  import opened ExprPrinter

  /** The pass state: the memory, the tokens printed so far, and parent_stack. */
  datatype State = State(mem: Memory, out: seq<Tok>, parents: seq<Ptr>)

  // ---------------------------------------------------------------- spelling

  function Chars(bs: seq<byte>): (r: string)
    ensures |r| == |bs| && forall i :: 0 <= i < |r| ==> r[i] == bs[i] as char
  {
    seq(|bs|, i requires 0 <= i < |bs| => bs[i] as char)
  }

  /** The builtin type keywords. */
  const TYPE_WORDS: seq<string> := [
    "u8", "u16", "u32", "u64", "u128", "usize", "i8", "i16", "i32", "i64", "i128", "isize",
    "f8", "f16", "f32", "f64", "f128", "fsize", "size", "bool", "str", "void", "char", "auto", "any"]

  function OpNamed(text: string): Option<Op> {
    match text
    case "^" => Some(Caret) case "&" => Some(Amp) case "|" => Some(Bar) case "!" => Some(Bang)
    case "<<" => Some(Shl) case ">>" => Some(Shr) case "+" => Some(Plus) case "-" => Some(Minus)
    case "/" => Some(Slash) case "*" => Some(Star) case "%" => Some(Percent) case "+=" => Some(PlusEq)
    case "-=" => Some(MinusEq) case "/=" => Some(SlashEq) case "*=" => Some(StarEq) case "%=" => Some(PercentEq)
    case "^=" => Some(CaretEq) case "<<=" => Some(ShlEq) case ">>=" => Some(ShrEq) case "++" => Some(PlusPlus)
    case "--" => Some(MinusMinus) case "&&" => Some(AndAnd) case "||" => Some(OrOr) case "." => Some(Dot)
    case "==" => Some(EqEq) case "!=" => Some(NotEq) case "<=" => Some(LessEq) case ">=" => Some(GreaterEq)
    case "<" => Some(Less) case ">" => Some(Greater) case "=" => Some(Assign)
    case _ => None
  }

  lemma {:induction false} OpNamedText(op: Op)
    ensures OpNamed(op.Text()) == Some(op)
  {
  }

  function OpOf(c: Cell): Option<Op> {
    match c.kind
    case ADDR_OF => Some(Amp)
    case DEREF => Some(Star)
    case _ => OpNamed(Chars(c.tok.text))
  }

  function OpToks(c: Cell): seq<Tok> {
    match OpOf(c)
    case None => []
    case Some(op) => [OpTok(op)]
  }

  /** How the lexer reads the text of a leaf; `inside` says whether it is read inside a
      struct, union or enum. */
  function WordOf(c: Cell, inside: bool): Word {
    match c.kind
    case NULL_LIT => Null
    case IDENTIF =>
      var text := Chars(c.tok.text);
      if text == "self" && inside then SelfName else if text in TYPE_WORDS then TypeName else Name
    case _ => Literal
  }

  predicate IsLeaf(k: Kind) {
    k.NUM_LIT? || k.IDENTIF? || k.STR_LIT? || k.BOOL_LIT? || k.CHAR_LIT? || k.NULL_LIT?
  }

  predicate IsUnary(k: Kind) {
    k.UOP? || k.ADDR_OF? || k.DEREF?
  }

  // ---------------------------------------------------------------- the callbacks

  function Top(parents: seq<Ptr>): Ptr {
    if parents == [] then NULL else parents[|parents| - 1]
  }

  /** The right operand prints the operator of its parent. */
  function Before(mem: Memory, parent: Ptr, n: Ptr): seq<Tok> {
    if parent in mem && mem[parent].kind.BINOP? && n == Kid(mem[parent], 1) then OpToks(mem[parent]) else []
  }

  function Opening(c: Cell, inside: bool): seq<Tok> {
    match c.kind
    case BINOP => [LParen]
    case ADDR_OF | DEREF => OpToks(c) + [LParen]
    case UOP => (if Flag(c, 0) then [] else OpToks(c)) + [LParen]
    case NUM_LIT | IDENTIF | STR_LIT | BOOL_LIT | CHAR_LIT | NULL_LIT =>
      [Printed(WordOf(c, inside), Chars(c.tok.text))]
    case _ => []
  }

  function Closing(c: Cell): seq<Tok> {
    match c.kind
    case BINOP | ADDR_OF | DEREF => [RParen]
    case UOP => [RParen] + if Flag(c, 0) then OpToks(c) else []
    case _ => []
  }

  /** Some statements get their semicolon when they are left. */
  function After(mem: Memory, parent: Ptr, k: Kind): seq<Tok> {
    if && parent in mem && (mem[parent].kind.BLOCK? || mem[parent].kind.PROGRAM? || mem[parent].kind.EXTERN?)
       && (k.BINOP? || k.UOP? || k.IDENTIF? || k.NUM_LIT? || k.STR_LIT?)
    then [Stop] else []
  }

  function GenEnter(s: State, n: Ptr, inside: bool): (State, VisitResult) {
    var before := Before(s.mem, Top(s.parents), n);
    var opening := if n in s.mem then Opening(s.mem[n], inside) else [];
    (s.(parents := s.parents + [n], out := s.out + before + opening), Continue)
  }

  function GenExit(s: State, n: Ptr): State {
    var count := |s.parents|;
    var parent := if count > 1 then s.parents[count - 2] else NULL;
    var closing := if n in s.mem then Closing(s.mem[n]) + After(s.mem, parent, s.mem[n].kind) else [];
    s.(out := s.out + closing, parents := if count > 0 then s.parents[..count - 1] else [])
  }

  function GenVisitor(inside: bool): Visitor<State> {
    Visitor((s: State) => s.mem, (s: State, n: Ptr) => GenEnter(s, n, inside), None,
            Some((s: State, n: Ptr) => GenExit(s, n)))
  }

  // ---------------------------------------------------------------- the tree that is printed

  /** The memory shows an expression of operators and leaves, as the parser builds them. */
  predicate IsExpression(mem: Memory, sh: Shape)
    decreases sh
  {
    && sh.p in mem
    && (forall i :: 0 <= i < |sh.kids| ==> IsExpression(mem, sh.kids[i]))
    && var c := mem[sh.p];
       if c.kind.BINOP? then
         && |sh.kids| == 2 && sh.kids[0].p == Kid(c, 0) && sh.kids[1].p == Kid(c, 1)
         && OpOf(c).Some? && Infix(OpOf(c).value)
       else if IsUnary(c.kind) then
         && |sh.kids| == 1 && OpOf(c).Some? && !OpOf(c).value.Dot?
         && (c.kind.UOP? && Flag(c, 0) ==> IsStep(OpOf(c).value))
       else IsLeaf(c.kind) && sh.kids == []
  }

  function TreeOf(mem: Memory, sh: Shape, inside: bool): Tree
    requires IsExpression(mem, sh)
    decreases sh
  {
    var c := mem[sh.p];
    if c.kind.BINOP? then
      Binary(OpOf(c).value, TreeOf(mem, sh.kids[0], inside), TreeOf(mem, sh.kids[1], inside))
    else if IsUnary(c.kind) then
      Unary(OpOf(c).value, c.kind.UOP? && Flag(c, 0), TreeOf(mem, sh.kids[0], inside))
    else Leaf(WordOf(c, inside), Chars(c.tok.text))
  }

  lemma {:induction false} TreeIsCanonical(mem: Memory, sh: Shape, inside: bool)
    requires IsExpression(mem, sh)
    ensures NoCast(TreeOf(mem, sh, inside)) && Canonical(TreeOf(mem, sh, inside))
    decreases sh
  {
    forall i | 0 <= i < |sh.kids|
      ensures NoCast(TreeOf(mem, sh.kids[i], inside)) && Canonical(TreeOf(mem, sh.kids[i], inside))
    {
      TreeIsCanonical(mem, sh.kids[i], inside);
    }
  }

  /** The callbacks print an expression wherever it stands: the operator before it if it is a
      right operand, its text, and a semicolon if it is a statement. */
  lemma {:induction false} VisitPrints(mem: Memory, sh: Shape, inside: bool, out: seq<Tok>, parents: seq<Ptr>)
    requires Shows(mem, sh) && IsTree(sh) && IsExpression(mem, sh)
    ensures NoCast(TreeOf(mem, sh, inside))
    ensures Visit(GenVisitor(inside), sh, State(mem, out, parents)) ==
              Some((true, State(mem, out + Statement(mem, sh, inside, Top(parents)), parents)))
    decreases sh
  {
    TreeIsCanonical(mem, sh, inside);
    var c, v := mem[sh.p], GenVisitor(inside);
    var parents1 := parents + [sh.p];
    var out1 := out + Before(mem, Top(parents), sh.p) + Opening(c, inside);
    assert parents1[..|parents|] == parents;
    assert Top(parents1) == sh.p;
    var inner := Inner(mem, sh, inside);
    assert Entered(v, sh, State(mem, out1, parents1)) ==
             Some((true, GenExit(State(mem, out1 + inner, parents1), sh.p))) by {
      if c.kind.BINOP? {
        BinaryPrints(mem, sh, inside, out1, parents1);
      } else if IsUnary(c.kind) {
        UnaryPrints(mem, sh, inside, out1, parents1);
      } else {
        LeafPrints(mem, sh, inside, out1, parents1);
      }
    }
    Pieces(mem, sh, inside, out, parents);
  }

  /** What is printed between entering and leaving a node. */
  function Inner(mem: Memory, sh: Shape, inside: bool): seq<Tok>
    requires IsExpression(mem, sh) && NoCast(TreeOf(mem, sh, inside))
  {
    match TreeOf(mem, sh, inside)
    case Leaf(_, _) => []
    case Unary(_, _, x) => Print(x)
    case Binary(op, l, r) => Print(l) + ([OpTok(op)] + Print(r))
  }

  function Statement(mem: Memory, sh: Shape, inside: bool, parent: Ptr): seq<Tok>
    requires IsExpression(mem, sh) && NoCast(TreeOf(mem, sh, inside))
  {
    Before(mem, parent, sh.p) + Print(TreeOf(mem, sh, inside)) + After(mem, parent, mem[sh.p].kind)
  }

  lemma {:induction false} Pieces(mem: Memory, sh: Shape, inside: bool, out: seq<Tok>, parents: seq<Ptr>)
    requires IsExpression(mem, sh) && NoCast(TreeOf(mem, sh, inside))
    ensures var c := mem[sh.p];
            (out + Before(mem, Top(parents), sh.p) + Opening(c, inside)) + Inner(mem, sh, inside)
              + (Closing(c) + After(mem, Top(parents), c.kind)) ==
            out + Statement(mem, sh, inside, Top(parents))
  {
    var c := mem[sh.p];
    PrintIsPieces(mem, sh, inside);
    Regroup(out, Before(mem, Top(parents), sh.p), Opening(c, inside), Inner(mem, sh, inside), Closing(c),
            After(mem, Top(parents), c.kind));
  }

  lemma {:induction false} Regroup<T>(out: seq<T>, a: seq<T>, b: seq<T>, c: seq<T>, d: seq<T>, e: seq<T>)
    ensures (out + a + b) + c + (d + e) == out + (a + (b + c + d) + e)
  {
  }

  lemma {:induction false} PrintIsPieces(mem: Memory, sh: Shape, inside: bool)
    requires IsExpression(mem, sh) && NoCast(TreeOf(mem, sh, inside))
    ensures Print(TreeOf(mem, sh, inside)) == Opening(mem[sh.p], inside) + Inner(mem, sh, inside) + Closing(mem[sh.p])
  {
    var c := mem[sh.p];
    if c.kind.BINOP? {
      var t := TreeOf(mem, sh, inside);
      BinaryPieces([LParen], Print(t.left), OpTok(t.op), Print(t.right), [RParen]);
    } else if IsUnary(c.kind) {
      var t := TreeOf(mem, sh, inside);
      assert OpToks(c) == [OpTok(t.op)];
      if t.postfix {
        UnaryPieces([], [LParen], Print(t.operand), [RParen], OpToks(c));
      } else {
        UnaryPieces(OpToks(c), [LParen], Print(t.operand), [RParen], []);
      }
    }
  }

  lemma {:induction false} BinaryPieces<T>(open: seq<T>, l: seq<T>, op: T, r: seq<T>, close: seq<T>)
    ensures open + l + [op] + r + close == open + (l + ([op] + r)) + close
  {
  }

  lemma {:induction false} UnaryPieces<T>(pre: seq<T>, open: seq<T>, x: seq<T>, close: seq<T>, post: seq<T>)
    ensures pre + (open + x + close) + post == (pre + open) + x + (close + post)
    ensures pre == [] ==> pre + (open + x + close) == open + x + close && pre + open == open
    ensures post == [] ==> pre + (open + x + close) + post == pre + (open + x + close) && close + post == close
  {
  }

  lemma {:induction false} LeafPrints(mem: Memory, sh: Shape, inside: bool, out: seq<Tok>, parents: seq<Ptr>)
    requires Shows(mem, sh) && IsExpression(mem, sh) && IsLeaf(mem[sh.p].kind)
    ensures Entered(GenVisitor(inside), sh, State(mem, out, parents)) ==
              Some((true, GenExit(State(mem, out + [], parents), sh.p)))
  {
    assert out + [] == out;
    assert Fields(mem[sh.p]) == [];
    assert Items(mem, sh.p) == Some([]);
  }

  // ---------------------------------------------------------------- the children of operators

  lemma {:induction false} OneItems(n: Ptr, p: Ptr)
    ensures Children(One(n, p)) == if p == NULL || p == n then [] else [p]
  {
    if p != NULL && p != n { assert [Child(p)][1..] == []; }
  }

  lemma {:induction false} UnaryItems(mem: Memory, sh: Shape)
    requires Shows(mem, sh) && IsExpression(mem, sh) && IsUnary(mem[sh.p].kind)
    ensures Items(mem, sh.p) == Some([Child(sh.kids[0].p)])
  {
    var n, p := sh.p, Kid(mem[sh.p], 0);
    var fs := [Single(p)];
    assert Fields(mem[n]) == fs && fs[1..] == [];
    assert AllItems(mem, n, fs) == Some(One(n, p) + []);
    assert One(n, p) + [] == One(n, p);
    OneItems(n, p);
    assert Roots(sh.kids)[0] == sh.kids[0].p;
  }

  lemma {:induction false} BinaryItems(mem: Memory, sh: Shape)
    requires Shows(mem, sh) && IsExpression(mem, sh) && mem[sh.p].kind.BINOP?
    ensures Items(mem, sh.p) == Some([Child(sh.kids[0].p), Gap(0), Child(sh.kids[1].p)])
  {
    var n, p, q := sh.p, Kid(mem[sh.p], 0), Kid(mem[sh.p], 1);
    var fs := [Single(p), Mark(0), Single(q)];
    assert Fields(mem[n]) == fs && fs[1..] == [Mark(0), Single(q)] && fs[1..][1..] == [Single(q)];
    assert fs[1..][1..][1..] == [];
    var items := One(n, p) + ([Gap(0)] + (One(n, q) + []));
    assert AllItems(mem, n, fs[1..][1..]) == Some(One(n, q) + []);
    assert AllItems(mem, n, fs[1..]) == Some([Gap(0)] + (One(n, q) + []));
    assert AllItems(mem, n, fs) == Some(items);
    OneItems(n, p);
    OneItems(n, q);
    ChildrenConcat(One(n, p), [Gap(0)] + (One(n, q) + []));
    ChildrenConcat([Gap(0)], One(n, q) + []);
    assert One(n, q) + [] == One(n, q);
    assert |Roots(sh.kids)| == 2 && Roots(sh.kids)[0] == p && Roots(sh.kids)[1] == q;
    assert items == [Child(p), Gap(0), Child(q)];
  }

  lemma {:induction false} VisitOne<S>(v: Visitor<S>, n: Ptr, kid: Shape, s: S, t: S)
    requires Visit(v, kid, s) == Some((true, t))
    ensures Children([Child(kid.p)]) == Roots([kid])
    ensures VisitItems(v, n, [Child(kid.p)], [kid], s) == Some((true, t))
  {
    var items := [Child(kid.p)];
    assert items[1..] == [] && [kid][1..] == [];
  }

  lemma {:induction false} VisitTwo<S>(v: Visitor<S>, n: Ptr, l: Shape, r: Shape, s: S, t: S, u: S)
    requires v.interleave.None? && Visit(v, l, s) == Some((true, t)) && Visit(v, r, t) == Some((true, u))
    ensures Children([Child(l.p), Gap(0), Child(r.p)]) == Roots([l, r])
    ensures VisitItems(v, n, [Child(l.p), Gap(0), Child(r.p)], [l, r], s) == Some((true, u))
  {
    var items := [Child(l.p), Gap(0), Child(r.p)];
    VisitOne(v, n, r, t, u);
    assert items[1..] == [Gap(0), Child(r.p)] && items[1..][1..] == [Child(r.p)] && [l, r][1..] == [r];
    assert VisitItems(v, n, items[1..], [r], t) == Some((true, u));
  }

  lemma {:induction false} UnaryPrints(mem: Memory, sh: Shape, inside: bool, out: seq<Tok>, parents: seq<Ptr>)
    requires Shows(mem, sh) && IsTree(sh) && IsExpression(mem, sh) && IsUnary(mem[sh.p].kind)
    requires Top(parents) == sh.p && parents != []
    ensures NoCast(TreeOf(mem, sh, inside))
    ensures Entered(GenVisitor(inside), sh, State(mem, out, parents)) ==
              Some((true, GenExit(State(mem, out + Inner(mem, sh, inside), parents), sh.p)))
    decreases sh, 0
  {
    var kid := sh.kids[0];
    TreeIsCanonical(mem, sh, inside);
    VisitPrints(mem, kid, inside, out, parents);
    UnaryItems(mem, sh);
    assert Statement(mem, kid, inside, sh.p) == Print(TreeOf(mem, kid, inside));
    var s, t := State(mem, out, parents), State(mem, out + Inner(mem, sh, inside), parents);
    VisitOne(GenVisitor(inside), sh.p, kid, s, t);
    assert [kid] == sh.kids;
  }

  lemma {:induction false} BinaryPrints(mem: Memory, sh: Shape, inside: bool, out: seq<Tok>, parents: seq<Ptr>)
    requires Shows(mem, sh) && IsTree(sh) && IsExpression(mem, sh) && mem[sh.p].kind.BINOP?
    requires Top(parents) == sh.p && parents != []
    ensures NoCast(TreeOf(mem, sh, inside))
    ensures Entered(GenVisitor(inside), sh, State(mem, out, parents)) ==
              Some((true, GenExit(State(mem, out + Inner(mem, sh, inside), parents), sh.p)))
    decreases sh, 1
  {
    TreeIsCanonical(mem, sh, inside);
    RootsDiffer(sh.kids, 0, 1);
    AllAreTrees(sh.kids, 0);
    AllAreTrees(sh.kids, 1);
    var left := Print(TreeOf(mem, sh.kids[0], inside));
    OperandPrints(mem, sh, 0, inside, out, parents);
    OperandPrints(mem, sh, 1, inside, out + left, parents);
    InnerIs(mem, sh, inside);
    Assoc(out, left, OpToks(mem[sh.p]) + Print(TreeOf(mem, sh.kids[1], inside)));
    BinaryItems(mem, sh);
    VisitTwo(GenVisitor(inside), sh.p, sh.kids[0], sh.kids[1], State(mem, out, parents),
             State(mem, out + left, parents), State(mem, out + Inner(mem, sh, inside), parents));
    assert [sh.kids[0], sh.kids[1]] == sh.kids;
  }

  lemma {:induction false} InnerIs(mem: Memory, sh: Shape, inside: bool)
    requires IsExpression(mem, sh) && mem[sh.p].kind.BINOP?
    ensures NoCast(TreeOf(mem, sh, inside))
    ensures Inner(mem, sh, inside) ==
              Print(TreeOf(mem, sh.kids[0], inside)) + (OpToks(mem[sh.p]) + Print(TreeOf(mem, sh.kids[1], inside)))
  {
    TreeIsCanonical(mem, sh, inside);
    assert OpToks(mem[sh.p]) == [OpTok(OpOf(mem[sh.p]).value)];
  }

  lemma {:induction false} OperandPrints(mem: Memory, sh: Shape, i: nat, inside: bool, out: seq<Tok>, parents: seq<Ptr>)
    requires Shows(mem, sh) && IsExpression(mem, sh) && mem[sh.p].kind.BINOP? && i < 2
    requires IsTree(sh.kids[i]) && sh.kids[0].p != sh.kids[1].p && Top(parents) == sh.p
    ensures NoCast(TreeOf(mem, sh.kids[i], inside))
    ensures var own := Print(TreeOf(mem, sh.kids[i], inside));
            var text := if i == 0 then own else OpToks(mem[sh.p]) + own;
            Visit(GenVisitor(inside), sh.kids[i], State(mem, out, parents)) ==
              Some((true, State(mem, out + text, parents)))
    decreases sh, 0
  {
    VisitPrints(mem, sh.kids[i], inside, out, parents);
    var before := if i == 0 then [] else OpToks(mem[sh.p]);
    assert Before(mem, sh.p, sh.kids[i].p) == before && After(mem, sh.p, mem[sh.kids[i].p].kind) == [];
    var own := Print(TreeOf(mem, sh.kids[i], inside));
    assert Statement(mem, sh.kids[i], inside, sh.p) == before + own;
    assert [] + own == own;
  }

  // ---------------------------------------------------------------- printing and parsing

  /** generate_c_code on an expression that no other node holds. */
  method PrintExpression(mem: Memory, root: Ptr, inside: bool, ghost sh: Shape) returns (out: seq<Tok>)
    requires root != NULL && sh.p == root && root in mem && NULL !in mem
    requires Shows(mem, sh) && IsTree(sh) && IsExpression(mem, sh)
    ensures NoCast(TreeOf(mem, sh, inside)) && out == Print(TreeOf(mem, sh, inside))
  {
    VisitPrints(mem, sh, inside, [], []);
    var ok, s := Traverse(GenVisitor(inside), root, State(mem, [], []), sh);
    ghost var text := Print(TreeOf(mem, sh, inside));
    assert Statement(mem, sh, inside, NULL) == text && [] + text == text;
    return s.out;
  }

  /** The whole way round: an expression in memory is printed by the traversal, and the text
      parsed by the machine on top of any stacks.  The machine pushes the very tree and
      touches nothing below, if and only if the tree is readable and has no null literal. */
  method PrintAndParse(mem: Memory, root: Ptr, inside: bool, rest: seq<Tok>, parser: Parser, ghost sh: Shape)
    requires root != NULL && sh.p == root && root in mem && NULL !in mem
    requires Shows(mem, sh) && IsTree(sh) && IsExpression(mem, sh) && AtEnd(rest)
    requires parser.error == NoError && Bound(0, parser.ops) == OPEN
    requires parser.states != [] && parser.states[|parser.states| - 1] == InExpr
    modifies parser
    ensures var t := TreeOf(mem, sh, inside);
            if Readable(t) && NoNull(t) then
              && parser.error == NoError && parser.toks == rest
              && parser.nodes == old(parser.nodes) + [t] && parser.ops == old(parser.ops)
              && parser.states == old(parser.states)[..|old(parser.states)| - 1]
            else parser.error != NoError || parser.toks != rest || parser.nodes != old(parser.nodes) + [t]
  {
    var out := PrintExpression(mem, root, inside, sh);
    TreeIsCanonical(mem, sh, inside);
    RoundTrip(TreeOf(mem, sh, inside), rest);
    parser.toks, parser.expectOperand := out + rest, true;
    parser.ParseExpression();
    ghost var r := Parse(OPEN, out + rest);
    if r.Ok? && parser.nodes == old(parser.nodes) + [TreeOf(mem, sh, inside)] {
      assert parser.nodes[|old(parser.nodes)|] == r.value.0;
    }
  }

  // ---------------------------------------------------------------- what each node prints

  lemma {:induction false} NamedOp(text: string, op: Op)
    requires OpNamed(text) == Some(op)
    ensures op.Text() == text
  {
  }

  /** The text of an expression, by the kind of its root: an operation in parentheses with its
      operator between its operands, before or behind them, and other kinds as one token. */
  lemma {:induction false} PrintedByKind(mem: Memory, sh: Shape, inside: bool)
    requires IsExpression(mem, sh)
    ensures NoCast(TreeOf(mem, sh, inside))
    ensures forall i :: 0 <= i < |sh.kids| ==> NoCast(TreeOf(mem, sh.kids[i], inside))
    ensures var c, out := mem[sh.p], Print(TreeOf(mem, sh, inside));
            && (c.kind.ADDR_OF? ==>
                  out == [OpTok(Amp)] + ([LParen] + Print(TreeOf(mem, sh.kids[0], inside)) + [RParen]))
            && (c.kind.DEREF? ==>
                  out == [OpTok(Star)] + ([LParen] + Print(TreeOf(mem, sh.kids[0], inside)) + [RParen]))
            && (c.kind.UOP? ==>
                  exists op: Op :: op.Text() == Chars(c.tok.text) &&
                    var inner := [LParen] + Print(TreeOf(mem, sh.kids[0], inside)) + [RParen];
                    out == if Flag(c, 0) then inner + [OpTok(op)] else [OpTok(op)] + inner)
            && (c.kind.BINOP? ==>
                  exists op: Op :: op.Text() == Chars(c.tok.text) &&
                    out == [LParen] + Print(TreeOf(mem, sh.kids[0], inside)) + [OpTok(op)]
                           + Print(TreeOf(mem, sh.kids[1], inside)) + [RParen])
            && (c.kind.NULL_LIT? ==> out == [Operand(Name, "NULL")])
            && (c.kind.NUM_LIT? || c.kind.STR_LIT? || c.kind.BOOL_LIT? || c.kind.CHAR_LIT? ==>
                  out == [Operand(Literal, Chars(c.tok.text))])
            && (c.kind.IDENTIF? ==>
                  var text := Chars(c.tok.text);
                  && (text == "self" && inside ==> out == [Operand(SelfName, text)])
                  && (text in TYPE_WORDS ==> out == [Operand(TypeName, text)])
                  && (text !in TYPE_WORDS && !(text == "self" && inside) ==> out == [Operand(Name, text)]))
  {
    var c := mem[sh.p];
    TreeIsCanonical(mem, sh, inside);
    forall i | 0 <= i < |sh.kids| ensures NoCast(TreeOf(mem, sh.kids[i], inside)) {
      TreeIsCanonical(mem, sh.kids[i], inside);
    }
    if c.kind.BINOP? || c.kind.UOP? { NamedOp(Chars(c.tok.text), OpOf(c).value); }
  }

  /** In a block, a program or an extern block, operations that are spelled as such, names, numbers and
      strings end in a semicolon; other expressions do not, and none does elsewhere. */
  lemma {:induction false} StatementEnds(mem: Memory, sh: Shape, inside: bool, parent: Ptr)
    requires IsExpression(mem, sh)
    ensures NoCast(TreeOf(mem, sh, inside))
    ensures var k, out := mem[sh.p].kind, Statement(mem, sh, inside, parent);
            && out != []
            && (out[|out| - 1].Stop? <==>
                  && (k.BINOP? || k.UOP? || k.IDENTIF? || k.NUM_LIT? || k.STR_LIT?)
                  && parent in mem
                  && (mem[parent].kind.BLOCK? || mem[parent].kind.PROGRAM? || mem[parent].kind.EXTERN?))
  {
    TreeIsCanonical(mem, sh, inside);
    PrintEnds(TreeOf(mem, sh, inside));
  }

  /** Printed text does not end in a semicolon. */
  lemma {:induction false} PrintEnds(t: Tree)
    requires NoCast(t)
    ensures Print(t) != [] && !Print(t)[|Print(t)| - 1].Stop?
  {
  }
}
