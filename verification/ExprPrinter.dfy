/** Printing expressions fully parenthesised (src/cgen.c, gen_enter and gen_exit) and
    parsing the text back: for which trees, and before what, that gives the tree again. */
module ExprPrinter {
  import opened Expr
  import opened ExprMachine

  predicate NoCast(t: Tree) {
    match t
    case Leaf(_, _) => true
    case Cast(_, _) => false
    case Unary(_, _, x) => NoCast(x)
    case Binary(_, l, r) => NoCast(l) && NoCast(r)
  }

  /** The trees a parser can build: postfix operators are `++` and `--`, which are never
      infix, and `.` is never an operator of these nodes. */
  predicate Canonical(t: Tree) {
    match t
    case Leaf(_, _) => true
    case Cast(_, x) => Canonical(x)
    case Unary(op, postfix, x) => Canonical(x) && !op.Dot? && (postfix ==> IsStep(op))
    case Binary(op, l, r) => Canonical(l) && Canonical(r) && !op.Dot? && !IsStep(op)
  }

  /** A null literal is printed as the identifier NULL. */
  function Printed(word: Word, text: string): Tok {
    if word.Null? then Operand(Name, "NULL") else Operand(word, text)
  }

  /** The tokens printed for a tree. */
  function Print(t: Tree): seq<Tok>
    requires NoCast(t)
  {
    match t
    case Leaf(word, text) => [Printed(word, text)]
    case Unary(op, postfix, x) =>
      var inner := [LParen] + Print(x) + [RParen];
      if postfix then inner + [OpTok(op)] else [OpTok(op)] + inner
    case Binary(op, l, r) => [LParen] + Print(l) + [OpTok(op)] + Print(r) + [RParen]
  }

  // ---------------------------------------------------------------- what can be read back

  predicate TypeLike(t: Tree) {
    t.Leaf? && (t.word.SelfName? || t.word.TypeName?)
  }

  predicate IsNameLeaf(t: Tree) {
    t.Leaf? && t.word.Identifier()
  }

  /** Nothing in the printed text looks like a type behind its parenthesis: neither a type
      keyword, nor `self` inside a type, nor a product or conjunction of two names. */
  predicate Readable(t: Tree) {
    match t
    case Leaf(_, _) => true
    case Cast(_, x) => Readable(x)
    case Unary(_, _, x) => Readable(x) && !TypeLike(x)
    case Binary(op, l, r) =>
      Readable(l) && Readable(r) && !TypeLike(l) && !(IsMark(OpTok(op)) && IsNameLeaf(l) && IsNameLeaf(r))
  }

  predicate NoNull(t: Tree) {
    match t
    case Leaf(word, _) => !word.Null?
    case Cast(_, x) => NoNull(x)
    case Unary(_, _, x) => NoNull(x)
    case Binary(_, l, r) => NoNull(l) && NoNull(r)
  }

  /** The tree with its null literals as they are printed. */
  function Respelled(t: Tree): Tree {
    match t
    case Leaf(word, text) => LeafOf(Printed(word, text))
    case Cast(target, x) => Cast(target, Respelled(x))
    case Unary(op, postfix, x) => Unary(op, postfix, Respelled(x))
    case Binary(op, l, r) => Binary(op, Respelled(l), Respelled(r))
  }

  lemma {:induction false} RespelledPrints(t: Tree)
    requires NoCast(t)
    ensures NoCast(Respelled(t)) && Print(Respelled(t)) == Print(t) && NoNull(Respelled(t))
    ensures Canonical(t) ==> Canonical(Respelled(t))
    ensures NoNull(t) <==> Respelled(t) == t
  {
    match t
    case Leaf(_, _) =>
    case Unary(_, _, x) => RespelledPrints(x);
    case Binary(_, l, r) =>
      RespelledPrints(l);
      RespelledPrints(r);
  }

  // ---------------------------------------------------------------- types behind parentheses

  /** The printed text of an operation begins with a parenthesis, marks apart. */
  lemma {:induction false} OperationIsNoType(t: Tree, follow: seq<Tok>)
    requires NoCast(t) && Canonical(t) && !t.Leaf?
    ensures !IsType(Print(t) + follow)
  {
    var toks := Print(t) + follow;
    if t.Unary? && !t.postfix {
      assert toks[0] == OpTok(t.op) && toks[1] == LParen;
      if IsMark(OpTok(t.op)) {
        assert SkipMarks(toks) == SkipMarks(toks[1..]) == toks[1..];
      }
    } else {
      assert toks[0] == LParen;
    }
  }

  lemma {:induction false} LeafIsType(word: Word, text: string, follow: seq<Tok>)
    requires !word.Null?
    ensures var toks := [Operand(word, text)] + follow;
            && (word.TypeName? ==> IsType(toks))
            && (word.SelfName? && follow != [] && !IsDot(follow) ==> IsType(toks))
            && (word.Literal? ==> !IsType(toks))
            && (word.Name? && !IsDot(follow) ==> (IsType(toks) <==> IsName(SkipMarks(follow))))
  {
    var toks := [Operand(word, text)] + follow;
    assert toks[1..] == follow;
    assert SkipMarks(toks) == toks;
  }

  /** The operand of a parenthesised unary operation. */
  lemma {:induction false} GroupIsType(x: Tree, rest: seq<Tok>)
    requires NoCast(x) && Canonical(x) && NoNull(x)
    ensures IsType(Print(x) + ([RParen] + rest)) <==> TypeLike(x)
  {
    var follow := [RParen] + rest;
    assert SkipMarks(follow) == follow;
    if x.Leaf? { LeafIsType(x.word, x.text, follow); } else { OperationIsNoType(x, follow); }
  }

  /** The left operand of a parenthesised binary operation, and what comes after it. */
  lemma {:induction false} BinaryIsType(op: Op, l: Tree, r: Tree, tail: seq<Tok>)
    requires var t := Binary(op, l, r); NoCast(t) && Canonical(t) && NoNull(t)
    ensures IsType(Print(l) + ([OpTok(op)] + (Print(r) + tail))) <==>
            TypeLike(l) || (IsMark(OpTok(op)) && IsNameLeaf(l) && IsNameLeaf(r))
  {
    var right := Print(r) + tail;
    var follow := [OpTok(op)] + right;
    assert follow[1..] == right;
    if l.Leaf? {
      LeafIsType(l.word, l.text, follow);
      if IsMark(OpTok(op)) { NameIsFirst(r, tail); }
    } else {
      OperationIsNoType(l, follow);
    }
  }

  /** Marks apart, printed text begins with a name only if it is one. */
  lemma {:induction false} NameIsFirst(r: Tree, tail: seq<Tok>)
    requires NoCast(r) && Canonical(r) && NoNull(r)
    ensures IsName(SkipMarks(Print(r) + tail)) <==> IsNameLeaf(r)
  {
    var toks := Print(r) + tail;
    if r.Unary? && !r.postfix {
      assert toks[0] == OpTok(r.op) && toks[1] == LParen;
      assert SkipMarks(toks[1..]) == toks[1..];
    } else if r.Leaf? {
      assert toks[0] == Operand(r.word, r.text);
    } else {
      assert toks[0] == LParen;
    }
  }

  // ---------------------------------------------------------------- reading printed text

  predicate StartsWithStep(toks: seq<Tok>) {
    toks != [] && toks[0].OpTok? && IsStep(toks[0].op)
  }

  /** What follows captures the printed text: a prefix operation before a postfix operator. */
  predicate Captured(t: Tree, rest: seq<Tok>) {
    t.Unary? && !t.postfix && StartsWithStep(rest)
  }

  predicate Plain(t: Tree) {
    NoCast(t) && Canonical(t) && NoNull(t)
  }

  /** Reading printed text with any operator of precedence at most 12 to the left is
      reading the tree itself. */
  lemma {:induction false} PrintThenParse(bound: int, t: Tree, rest: seq<Tok>)
    requires Plain(t) && Readable(t) && bound <= PREFIX && !Captured(t, rest)
    ensures Parse(bound, Print(t) + rest) == Climb(bound, t, rest)
    decreases t, 0
  {
    match t
    case Leaf(word, text) =>
      assert (Print(t) + rest)[1..] == rest;
    case Unary(op, postfix, x) =>
      if postfix {
        PrintGroup(x, [OpTok(op)] + rest);
        PrintPostfix(bound, op, x, rest);
      } else {
        PrintGroup(x, rest);
        PrintPrefix(bound, op, x, rest);
      }
    case Binary(op, l, r) =>
      var tail := [RParen] + rest;
      PrintThenParse(OPEN, l, [OpTok(op)] + (Print(r) + tail));
      PrintThenParse(BinaryPrecedence(op), r, tail);
      PrintBinary(bound, op, l, r, rest);
  }

  lemma {:induction false} ReadGroup(inner: seq<Tok>, t: Tree, rest: seq<Tok>)
    requires !IsType(inner) && Parse(OPEN, inner) == Ok((t, [RParen] + rest))
    ensures ParseUnary([LParen] + inner) == Ok((t, rest))
  {
    assert ([LParen] + inner)[1..] == inner && ([RParen] + rest)[1..] == rest;
  }

  lemma {:induction false} ReadPrefix(op: Op, inner: seq<Tok>)
    requires !op.Dot?
    ensures var p := Parse(PREFIX, inner);
            ParseUnary([OpTok(op)] + inner) == if p.Ok? then Ok((Unary(op, false, p.value.0), p.value.1)) else p
  {
    assert ([OpTok(op)] + inner)[1..] == inner;
  }

  lemma {:induction false} ReadInfix(op: Op, l: Tree, afterOp: seq<Tok>)
    requires !op.Dot? && !IsStep(op)
    ensures var p := Parse(BinaryPrecedence(op), afterOp);
            Climb(OPEN, l, [OpTok(op)] + afterOp) ==
              if p.Ok? then Climb(OPEN, Binary(op, l, p.value.0), p.value.1) else p
  {
    assert ([OpTok(op)] + afterOp)[1..] == afterOp;
  }

  lemma {:induction false} ReadPostfix(bound: int, op: Op, l: Tree, rest: seq<Tok>)
    requires IsStep(op) && bound <= PREFIX
    ensures Climb(bound, l, [OpTok(op)] + rest) == Climb(bound, Unary(op, true, l), rest)
  {
    assert ([OpTok(op)] + rest)[1..] == rest;
  }

  function Grouped(x: Tree, follow: seq<Tok>): seq<Tok>
    requires NoCast(x)
  {
    [LParen] + Print(x) + [RParen] + follow
  }

  lemma {:induction false} PrintPostfix(bound: int, op: Op, x: Tree, rest: seq<Tok>)
    requires NoCast(x) && IsStep(op) && bound <= PREFIX
    requires ParseUnary(Grouped(x, [OpTok(op)] + rest)) == Ok((x, [OpTok(op)] + rest))
    ensures Parse(bound, Print(Unary(op, true, x)) + rest) == Climb(bound, Unary(op, true, x), rest)
  {
    ReadPostfix(bound, op, x, rest);
    assert Print(Unary(op, true, x)) + rest == Grouped(x, [OpTok(op)] + rest);
  }

  /** What reading a prefix operation comes to: the operand takes all that binds tightly. */
  lemma {:induction false} PrefixReads(bound: int, op: Op, x: Tree, rest: seq<Tok>)
    requires NoCast(x) && !op.Dot? && ParseUnary(Grouped(x, rest)) == Ok((x, rest))
    ensures var p := Climb(PREFIX, x, rest);
            Parse(bound, Print(Unary(op, false, x)) + rest) ==
              if p.Ok? then Climb(bound, Unary(op, false, p.value.0), p.value.1) else p
  {
    assert Print(Unary(op, false, x)) + rest == [OpTok(op)] + Grouped(x, rest);
    assert Parse(PREFIX, Grouped(x, rest)) == Climb(PREFIX, x, rest);
    ReadPrefix(op, Grouped(x, rest));
  }

  lemma {:induction false} PrintPrefix(bound: int, op: Op, x: Tree, rest: seq<Tok>)
    requires NoCast(x) && !op.Dot? && bound <= PREFIX && !StartsWithStep(rest)
    requires ParseUnary(Grouped(x, rest)) == Ok((x, rest))
    ensures Parse(bound, Print(Unary(op, false, x)) + rest) == Climb(bound, Unary(op, false, x), rest)
  {
    PrefixReads(bound, op, x, rest);
  }

  lemma {:induction false} PrintBinary(bound: int, op: Op, l: Tree, r: Tree, rest: seq<Tok>)
    requires var t := Binary(op, l, r); Plain(t) && Readable(t)
    requires var tail := [RParen] + rest;
             var afterL := [OpTok(op)] + (Print(r) + tail);
             && Parse(OPEN, Print(l) + afterL) == Climb(OPEN, l, afterL)
             && Parse(BinaryPrecedence(op), Print(r) + tail) == Climb(BinaryPrecedence(op), r, tail)
    ensures Parse(bound, Print(Binary(op, l, r)) + rest) == Climb(bound, Binary(op, l, r), rest)
  {
    var t, tail := Binary(op, l, r), [RParen] + rest;
    var afterL := [OpTok(op)] + (Print(r) + tail);
    assert Climb(BinaryPrecedence(op), r, tail) == Ok((r, tail));
    ReadInfix(op, l, Print(r) + tail);
    assert Climb(OPEN, t, tail) == Ok((t, tail));
    BinaryIsType(op, l, r, tail);
    ReadGroup(Print(l) + afterL, t, rest);
    Parenthesised(Print(l), OpTok(op), Print(r), rest);
  }

  lemma {:induction false} Parenthesised(l: seq<Tok>, op: Tok, r: seq<Tok>, rest: seq<Tok>)
    ensures [LParen] + l + [op] + r + [RParen] + rest == [LParen] + (l + ([op] + (r + ([RParen] + rest))))
  {
  }

  /** A printed operand in parentheses is read as that operand. */
  lemma {:induction false} PrintGroup(x: Tree, rest: seq<Tok>)
    requires Plain(x) && Readable(x) && !TypeLike(x)
    ensures ParseUnary(Grouped(x, rest)) == Ok((x, rest))
    decreases x, 1
  {
    var tail := [RParen] + rest;
    PrintThenParse(OPEN, x, tail);
    GroupIsType(x, rest);
    ReadGroup(Print(x) + tail, x, rest);
    Enclosed(Print(x), rest);
  }

  lemma {:induction false} Enclosed(x: seq<Tok>, rest: seq<Tok>)
    ensures [LParen] + x + [RParen] + rest == [LParen] + (x + ([RParen] + rest))
  {
  }

  // ---------------------------------------------------------------- capture

  /** What Climb makes of the same tokens behind two different operands differs in those
      operands and nowhere else. */
  lemma {:induction false} ClimbInjective(bound: int, s: Tree, t: Tree, toks: seq<Tok>)
    ensures var p, q := Climb(bound, s, toks), Climb(bound, t, toks);
            if p.Ok? then q.Ok? && q.value.1 == p.value.1 && (q.value.0 == p.value.0 <==> s == t) else q == p
    decreases |toks|
  {
    if toks != [] && toks[0].OpTok? && !toks[0].op.Dot? && Enters(bound, toks[0].op) {
      var op := toks[0].op;
      if IsStep(op) {
        ClimbInjective(bound, Unary(op, true, s), Unary(op, true, t), toks[1..]);
      } else {
        var p := Parse(BinaryPrecedence(op), toks[1..]);
        if p.Ok? { ClimbInjective(bound, Binary(op, s, p.value.0), Binary(op, t, p.value.0), p.value.1); }
      }
    }
  }

  /** A tree with the postfix operators that `toks` begins with, and what is left. */
  function Stepped(t: Tree, toks: seq<Tok>): (Tree, seq<Tok>)
    decreases |toks|
  {
    if StartsWithStep(toks) then Stepped(Unary(toks[0].op, true, t), toks[1..]) else (t, toks)
  }

  lemma {:induction false} ClimbSteps(bound: int, t: Tree, toks: seq<Tok>)
    requires bound <= PREFIX
    ensures Climb(bound, t, toks) == Climb(bound, Stepped(t, toks).0, Stepped(t, toks).1)
    ensures !StartsWithStep(Stepped(t, toks).1)
    decreases |toks|
  {
    if StartsWithStep(toks) { ClimbSteps(bound, Unary(toks[0].op, true, t), toks[1..]); }
  }

  /** Every operation but the innermost is a postfix one. */
  predicate Postfixed(t: Tree, inner: Tree) {
    t == inner || (t.Unary? && t.postfix && Postfixed(t.operand, inner))
  }

  lemma {:induction false} SteppedIsPostfixed(t: Tree, toks: seq<Tok>)
    ensures Postfixed(Stepped(t, toks).0, t)
    ensures StartsWithStep(toks) ==> Stepped(t, toks).0.Unary? && Stepped(t, toks).0.postfix
    ensures forall s :: Stepped(s, toks).1 == Stepped(t, toks).1
    decreases |toks|
  {
    if StartsWithStep(toks) {
      var t1 := Unary(toks[0].op, true, t);
      SteppedIsPostfixed(t1, toks[1..]);
      PostfixedThrough(Stepped(t, toks).0, t1, t);
      forall s ensures Stepped(s, toks).1 == Stepped(t, toks).1 {
        assert Stepped(Unary(toks[0].op, true, s), toks[1..]).1 == Stepped(t1, toks[1..]).1;
      }
    }
  }

  lemma {:induction false} PostfixedThrough(t: Tree, s: Tree, inner: Tree)
    requires Postfixed(t, s) && s.Unary? && s.postfix && s.operand == inner
    ensures Postfixed(t, inner)
  {
    if t != s { PostfixedThrough(t.operand, s, inner); }
  }

  /** Behind the postfix operators an operand of a prefix operator ends, or parsing fails as
      it would without the operator. */
  lemma {:induction false} PrefixStops(bound: int, t: Tree, toks: seq<Tok>)
    requires !StartsWithStep(toks)
    ensures var p := Climb(PREFIX, t, toks);
            if p.Ok? then p.value == (t, toks) else forall s :: Climb(bound, s, toks) == p
  {
  }

  /** In any context, what is read back is the tree itself if and only if no postfix operator
      follows a prefix operation; or nothing can be read there at all. */
  lemma {:induction false} ReadsUnlessCaptured(bound: int, t: Tree, rest: seq<Tok>)
    requires Plain(t) && Readable(t) && bound <= PREFIX
    ensures Parse(bound, Print(t) + rest) == Climb(bound, t, rest) <==>
            !Captured(t, rest) || Climb(bound, t, rest).Fail?
  {
    if !Captured(t, rest) {
      PrintThenParse(bound, t, rest);
    } else {
      PrintGroup(t.operand, rest);
      PrefixReads(bound, t.op, t.operand, rest);
      CaptureDiffers(bound, t.op, t.operand, rest);
    }
  }

  lemma {:induction false} CaptureDiffers(bound: int, op: Op, x: Tree, rest: seq<Tok>)
    requires bound <= PREFIX && StartsWithStep(rest)
    ensures var p, q := Climb(PREFIX, x, rest), Climb(bound, Unary(op, false, x), rest);
            var read := if p.Ok? then Climb(bound, Unary(op, false, p.value.0), p.value.1) else p;
            read == q <==> q.Fail?
  {
    var t := Unary(op, false, x);
    ClimbSteps(PREFIX, x, rest);
    ClimbSteps(bound, t, rest);
    SteppedIsPostfixed(x, rest);
    SteppedIsPostfixed(t, rest);
    var (x', left) := Stepped(x, rest);
    var (t', left') := Stepped(t, rest);
    assert left == left';
    PrefixStops(bound, x', left);
    ClimbInjective(bound, Unary(op, false, x'), t', left);
  }

  // ---------------------------------------------------------------- casts by mistake

  /** Parsing failed, or a cast was read. */
  predicate Odd(p: Parsed) {
    p.Ok? ==> !NoCast(p.value.0)
  }

  lemma {:induction false} ClimbStaysOdd(bound: int, t: Tree, toks: seq<Tok>)
    requires !NoCast(t)
    ensures Odd(Climb(bound, t, toks))
    decreases |toks|
  {
    if toks != [] && toks[0].OpTok? && !toks[0].op.Dot? && Enters(bound, toks[0].op) {
      var op := toks[0].op;
      if IsStep(op) {
        ClimbStaysOdd(bound, Unary(op, true, t), toks[1..]);
      } else {
        var p := Parse(BinaryPrecedence(op), toks[1..]);
        if p.Ok? { ClimbStaysOdd(bound, Binary(op, t, p.value.0), p.value.1); }
      }
    }
  }

  lemma {:induction false} OddOperand(bound: int, toks: seq<Tok>)
    requires Odd(ParseUnary(toks))
    ensures Odd(Parse(bound, toks))
  {
    var u := ParseUnary(toks);
    if u.Ok? { ClimbStaysOdd(bound, u.value.0, u.value.1); }
  }

  lemma {:induction false} OddGroup(inner: seq<Tok>)
    requires IsType(inner) || Odd(Parse(OPEN, inner))
    ensures Odd(ParseUnary([LParen] + inner))
  {
    assert ([LParen] + inner)[1..] == inner;
  }

  /** The text of an unreadable tree is never read as a tree without casts. */
  lemma {:induction false} UnreadableIsOdd(bound: int, t: Tree, rest: seq<Tok>)
    requires Plain(t) && !Readable(t)
    ensures Odd(Parse(bound, Print(t) + rest))
    decreases t
  {
    match t
    case Unary(op, postfix, x) =>
      var follow := if postfix then [OpTok(op)] + rest else rest;
      GroupIsType(x, follow);
      if !TypeLike(x) { UnreadableIsOdd(OPEN, x, [RParen] + follow); }
      OddGroup(Print(x) + ([RParen] + follow));
      Enclosed(Print(x), follow);
      if postfix {
        assert Print(t) + rest == Grouped(x, follow);
      } else {
        assert Print(t) + rest == [OpTok(op)] + Grouped(x, follow);
        OddOperand(PREFIX, Grouped(x, follow));
        ReadPrefix(op, Grouped(x, follow));
      }
      OddOperand(bound, Print(t) + rest);
    case Binary(op, l, r) =>
      OddBinary(op, l, r, rest);
      OddOperand(bound, Print(t) + rest);
    case _ => assert false;
  }

  lemma {:induction false} OddBinary(op: Op, l: Tree, r: Tree, rest: seq<Tok>)
    requires var t := Binary(op, l, r); Plain(t) && !Readable(t)
    ensures Odd(ParseUnary(Print(Binary(op, l, r)) + rest))
    decreases Binary(op, l, r), 0
  {
    var tail := [RParen] + rest;
    var right := Print(r) + tail;
    BinaryIsType(op, l, r, tail);
    if !IsType(Print(l) + ([OpTok(op)] + right)) {
      if !Readable(l) {
        UnreadableIsOdd(OPEN, l, [OpTok(op)] + right);
      } else {
        UnreadableIsOdd(BinaryPrecedence(op), r, tail);
        PrintThenParse(OPEN, l, [OpTok(op)] + right);
        ReadInfix(op, l, right);
        var p := Parse(BinaryPrecedence(op), right);
        if p.Ok? { ClimbStaysOdd(OPEN, Binary(op, l, p.value.0), p.value.1); }
      }
    }
    OddGroup(Print(l) + ([OpTok(op)] + right));
    Parenthesised(Print(l), OpTok(op), Print(r), rest);
  }

  // ---------------------------------------------------------------- the round trip

  /** Round trip: of all trees without casts that a parser can build, exactly those whose text
      holds no type behind a parenthesis and no null literal are read back as themselves. */
  lemma {:induction false} RoundTrip(t: Tree, rest: seq<Tok>)
    requires NoCast(t) && Canonical(t) && AtEnd(rest)
    ensures Parse(OPEN, Print(t) + rest) == Ok((t, rest)) <==> Readable(t) && NoNull(t)
    ensures Readable(Respelled(t)) ==> Parse(OPEN, Print(t) + rest) == Ok((Respelled(t), rest))
    ensures !Readable(Respelled(t)) ==> Odd(Parse(OPEN, Print(t) + rest))
  {
    var t' := Respelled(t);
    RespelledPrints(t);
    if Readable(t') { PrintThenParse(OPEN, t', rest); } else { UnreadableIsOdd(OPEN, t', rest); }
  }

  /** In the middle of any parse: with any operators and operands waiting on the machine's
      stacks, reading printed text where an operand is expected amounts to finding the tree
      on node_stack, all else untouched. */
  lemma {:induction false} PrintedOperand(floor: nat, ops: seq<OpInfo>, nodes: seq<Tree>, t: Tree, rest: seq<Tok>)
    requires floor <= |ops| && |nodes| >= Lefts(floor, ops) && Bound(floor, ops) <= PREFIX
    requires Plain(t) && Readable(t) && !Captured(t, rest)
    ensures Await(floor, ops, nodes, Print(t) + rest) == Resume(floor, ops, nodes + [t], rest)
  {
    var toks := Print(t) + rest;
    PrintThenParse(Bound(floor, ops), t, rest);
    var u := ParseUnary(toks);
    if u.Ok? {
      ResumeTop(floor, ops, nodes + [u.value.0], u.value.1, nodes + [t], rest);
    }
  }

  /** Printing a prefix operation before `++` is such a case: the postfix operator is read
      into the operand. */
  lemma {:induction false} PrefixThenStepIsCaptured()
    ensures var one := Leaf(Literal, "1");
            var t, follow := Unary(Minus, false, one), [OpTok(PlusPlus), Stop];
            && Plain(t) && Readable(t) && Captured(t, follow)
            && Parse(OPEN, Print(t) + follow) == Ok((Unary(Minus, false, Unary(PlusPlus, true, one)), [Stop]))
            && Climb(OPEN, t, follow) == Ok((Unary(PlusPlus, true, t), [Stop]))
  {
    var one := Leaf(Literal, "1");
    var follow := [OpTok(PlusPlus), Stop];
    PrintGroup(one, follow);
    PrefixReads(OPEN, Minus, one, follow);
    assert follow[1..] == [Stop];
    assert Climb(PREFIX, one, follow) == Climb(PREFIX, Unary(PlusPlus, true, one), [Stop]);
  }

  /** The product of two names is read as a cast, and that fails. */
  lemma {:induction false} ProductOfNamesIsNoCast()
    ensures var t := Binary(Star, Leaf(Name, "a"), Leaf(Name, "b"));
            Plain(t) && !Readable(t) && Parse(OPEN, Print(t) + [Stop]) == Fail(Syntax)
  {
    var a, b := Leaf(Name, "a"), Leaf(Name, "b");
    var toks := Print(Binary(Star, a, b)) + [Stop];
    BinaryIsType(Star, a, b, [RParen, Stop]);
    var inner := [Operand(Name, "a"), OpTok(Star), Operand(Name, "b"), RParen, Stop];
    assert toks[1..] == inner == Print(a) + ([OpTok(Star)] + (Print(b) + [RParen, Stop]));
    assert SkipQualifiers(inner) == inner && !IsDot(inner[1..]);
    assert ReadType(inner) == Ok(inner[1..]);
  }

  /** Every tree that parsing yields is canonical. */
  lemma {:induction false} ParsedIsCanonical(bound: int, toks: seq<Tok>)
    ensures Parse(bound, toks).Ok? ==> Canonical(Parse(bound, toks).value.0)
    decreases |toks|, 2
  {
    UnaryIsCanonical(toks);
    var u := ParseUnary(toks);
    if u.Ok? { ClimbIsCanonical(bound, u.value.0, u.value.1); }
  }

  lemma {:induction false} UnaryIsCanonical(toks: seq<Tok>)
    ensures ParseUnary(toks).Ok? ==> Canonical(ParseUnary(toks).value.0)
    decreases |toks|, 1
  {
    if toks != [] {
      ParsedIsCanonical(OPEN, toks[1..]);
      ParsedIsCanonical(PREFIX, toks[1..]);
      var cast := ReadCast(toks[1..]);
      if cast.Ok? { ParsedIsCanonical(PREFIX, cast.value.1); }
    }
  }

  lemma {:induction false} ClimbIsCanonical(bound: int, lhs: Tree, toks: seq<Tok>)
    requires Canonical(lhs)
    ensures Climb(bound, lhs, toks).Ok? ==> Canonical(Climb(bound, lhs, toks).value.0)
    decreases |toks|, 0
  {
    if toks != [] && toks[0].OpTok? && !toks[0].op.Dot? && Enters(bound, toks[0].op) {
      var op := toks[0].op;
      if IsStep(op) {
        ClimbIsCanonical(bound, Unary(op, true, lhs), toks[1..]);
      } else {
        ParsedIsCanonical(BinaryPrecedence(op), toks[1..]);
        var p := Parse(BinaryPrecedence(op), toks[1..]);
        if p.Ok? { ClimbIsCanonical(bound, Binary(op, lhs, p.value.0), p.value.1); }
      }
    }
  }

  /** Parse, print, parse again: for trees without casts the second parse returns the tree of
      the first exactly when that is readable and has no null literal. */
  lemma {:induction false} Reparse(toks: seq<Tok>, rest: seq<Tok>)
    requires Parse(OPEN, toks).Ok? && NoCast(Parse(OPEN, toks).value.0) && AtEnd(rest)
    ensures var t := Parse(OPEN, toks).value.0;
            Parse(OPEN, Print(t) + rest) == Ok((t, rest)) <==> Readable(t) && NoNull(t)
  {
    ParsedIsCanonical(OPEN, toks);
    RoundTrip(Parse(OPEN, toks).value.0, rest);
  }
}
