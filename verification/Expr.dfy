/** Expressions, their tokens and operator precedences (src/parser.c, src/cgen.c), and the
    recursive precedence-climbing parser that serves as the reference for the two-stack
    machine of module ExprMachine. */
module Expr {

  /** The operators the lexer knows: its operator list, its comparisons, and `=`. */
  datatype Op =
    | Caret | Amp | Bar | Bang | Shl | Shr | Plus | Minus | Slash | Star | Percent
    | PlusEq | MinusEq | SlashEq | StarEq | PercentEq | CaretEq | ShlEq | ShrEq
    | PlusPlus | MinusMinus | AndAnd | OrOr | Dot
    | EqEq | NotEq | LessEq | GreaterEq | Less | Greater
    | Assign
  {
    function Text(): string {
      match this
      case Caret => "^" case Amp => "&" case Bar => "|" case Bang => "!" case Shl => "<<" case Shr => ">>"
      case Plus => "+" case Minus => "-" case Slash => "/" case Star => "*" case Percent => "%"
      case PlusEq => "+=" case MinusEq => "-=" case SlashEq => "/=" case StarEq => "*=" case PercentEq => "%="
      case CaretEq => "^=" case ShlEq => "<<=" case ShrEq => ">>=" case PlusPlus => "++" case MinusMinus => "--"
      case AndAnd => "&&" case OrOr => "||" case Dot => "." case EqEq => "==" case NotEq => "!=" case LessEq => "<="
      case GreaterEq => ">=" case Less => "<" case Greater => ">" case Assign => "="
    }
  }

  /** What an operand token is: an identifier (SelfName for `self` inside a struct, union or
      enum), the keyword of a builtin type, a literal, or `null`. */
  datatype Word = Name | SelfName | TypeName | Literal | Null
  {
    predicate Identifier() { Name? || SelfName? }
  }

  /** The keywords that can stand in front of a type. */
  datatype Keyword = Static | Mut | Threadlocal | Extern | Async | Inline

  /** Tokens of the expression fragment; `Stop` is a closing token other than a parenthesis. */
  datatype Tok =
    | Operand(word: Word, text: string)
    | Qualifier(keyword: Keyword)
    | OpTok(op: Op)
    | LParen
    | RParen
    | Stop

  datatype Tree =
    | Leaf(word: Word, text: string)
    | Unary(op: Op, postfix: bool, operand: Tree)
    | Cast(target: seq<Tok>, operand: Tree)
    | Binary(op: Op, left: Tree, right: Tree)

  /** Why parsing stopped: a syntax error is reported, or the input leaves the fragment (a
      call, or member access). */
  datatype Failure = Syntax | Outside

  datatype Result<+T> = Ok(value: T) | Fail(why: Failure)
  {
    predicate IsFailure() { Fail? }
    function PropagateFailure<U>(): Result<U> requires Fail? { Fail(why) }
    function Extract(): T requires Ok? { value }
  }

  type Parsed = Result<(Tree, seq<Tok>)>

  /** get_precedence, on the text of an operator. */
  function PrecedenceOf(t: string, assign: bool, unary: bool, postfix: bool): int {
    if t == "." then 14
    else if postfix then 13
    else if unary then 12
    else if assign then 1
    else if |t| == 1 then
      if t[0] in "*/%" then 11
      else if t[0] in "+-" then 10
      else if t[0] in "<>" then 8
      else if t[0] == '&' then 6
      else if t[0] == '^' then 5
      else if t[0] == '|' then 4
      else 0
    else if |t| == 2 then
      if t == "<<" || t == ">>" then 9
      else if t == "<=" || t == ">=" then 8
      else if t == "==" || t == "!=" then 7
      else if t == "&&" then 3
      else if t == "||" then 2
      else if t[0] in "*/%+-^" && t[1] == '=' then 1
      else 0
    else if t == "<<=" || t == ">>=" then 1
    else 0
  }

  function GetPrecedence(op: Op, unary: bool, postfix: bool): int {
    if op.Dot? then 14 else if postfix then 13 else if unary then 12
    else match op
      case Star | Slash | Percent => 11
      case Plus | Minus => 10
      case Shl | Shr => 9
      case Less | Greater | LessEq | GreaterEq => 8
      case EqEq | NotEq => 7
      case Amp => 6
      case Caret => 5
      case Bar => 4
      case AndAnd => 3
      case OrOr => 2
      case Assign | StarEq | SlashEq | PercentEq | PlusEq | MinusEq | CaretEq | ShlEq | ShrEq => 1
      case _ => 0
  }

  /** The table by operator is what get_precedence computes from the text. */
  lemma {:induction false} TableIsCode(op: Op, unary: bool, postfix: bool)
    ensures GetPrecedence(op, unary, postfix) == PrecedenceOf(op.Text(), op.Assign?, unary, postfix)
  {
    var t := op.Text();
    assert |t| == 1 || |t| == 2 || |t| == 3;
  }

  predicate IsStep(op: Op) {
    op.PlusPlus? || op.MinusMinus?
  }

  function BinaryPrecedence(op: Op): int {
    GetPrecedence(op, false, false)
  }

  /** Does operator `q`, met after an operand, bind that operand more tightly than an
      operator of precedence `bound` to its left?  `=` is the only right-associative one. */
  predicate Enters(bound: int, q: Op) {
    if IsStep(q) then 13 > bound
    else if q.Assign? then BinaryPrecedence(q) >= bound
    else BinaryPrecedence(q) > bound
  }

  /** An expression ends at the end of the input and at a closing token. */
  predicate AtEnd(toks: seq<Tok>) {
    toks == [] || toks[0].RParen? || toks[0].Stop?
  }

  // ---------------------------------------------------------------- casts

  predicate IsDot(toks: seq<Tok>) {
    toks != [] && toks[0].OpTok? && toks[0].op.Dot?
  }

  predicate IsMark(tok: Tok) {
    tok.OpTok? && (tok.op.Star? || tok.op.Amp?)
  }

  function SkipMarks(toks: seq<Tok>): (r: seq<Tok>)
    ensures |r| <= |toks|
  {
    if toks != [] && IsMark(toks[0]) then SkipMarks(toks[1..]) else toks
  }

  /** is_type: does what follows a parenthesis look like a type?  A name does when another
      name follows it, pointer marks apart; `async` and `inline` do not, though parse_type reads
      them. */
  predicate IsType(toks: seq<Tok>) {
    var r := SkipMarks(toks);
    r != [] &&
    match r[0]
    case Qualifier(keyword) => !keyword.Async? && !keyword.Inline?
    case Operand(word, _) =>
      (match word
       case TypeName => true
       case SelfName => |r| > 1 && !IsDot(r[1..])
       case Name =>
         if IsDot(r[1..]) then |r| > 2 && IsName(r[2..]) && IsName(SkipMarks(r[3..])) else IsName(SkipMarks(r[1..]))
       case _ => false)
    case _ => false
  }

  predicate IsName(toks: seq<Tok>) {
    toks != [] && toks[0].Operand? && toks[0].word.Identifier()
  }

  function SkipQualifiers(toks: seq<Tok>): (r: seq<Tok>)
    ensures |r| <= |toks|
  {
    if toks != [] && (toks[0].Qualifier? || IsMark(toks[0])) then SkipQualifiers(toks[1..]) else toks
  }

  /** parse_type, without array dimensions: what is left after the type. */
  function ReadType(toks: seq<Tok>): (r: Result<seq<Tok>>)
    ensures r.Ok? ==> |r.value| < |toks|
  {
    var r := SkipQualifiers(toks);
    if r == [] || !r[0].Operand? then Fail(Syntax)
    else match r[0].word
      case SelfName => Ok(r[1..])
      case TypeName => Ok(r[1..])
      case Name =>
        if r[0].text == "self" then Fail(Syntax)
        else if !IsDot(r[1..]) then Ok(r[1..])
        else if IsName(r[2..]) then Ok(r[3..]) else Fail(Syntax)
      case _ => Fail(Syntax)
  }

  /** A type and the parenthesis that closes it: the tokens of the type, and what is left. */
  function ReadCast(toks: seq<Tok>): (r: Result<(seq<Tok>, seq<Tok>)>)
    ensures r.Ok? ==> |r.value.1| < |toks|
  {
    var rest :- ReadType(toks);
    if rest != [] && rest[0].RParen? then Ok((toks[..|toks| - |rest|], rest[1..])) else Fail(Syntax)
  }

  // ---------------------------------------------------------------- the reference parser

  const OPEN: int := -1       // nothing to the left
  const PREFIX: int := 12     // a prefix operator or cast to the left

  /** Parse an operand and everything to its right that binds more tightly than `bound`. */
  function Parse(bound: int, toks: seq<Tok>): (r: Parsed)
    ensures r.Ok? ==> |r.value.1| < |toks|
    decreases |toks|, 2
  {
    var (u, rest) :- ParseUnary(toks);
    Climb(bound, u, rest)
  }

  function ParseUnary(toks: seq<Tok>): (r: Parsed)
    ensures r.Ok? ==> |r.value.1| < |toks|
    decreases |toks|, 1
  {
    if toks == [] then Fail(Syntax)
    else match toks[0]
      case Operand(word, text) => Ok((Leaf(word, text), toks[1..]))
      case LParen =>
        if IsType(toks[1..]) then
          var (target, after) :- ReadCast(toks[1..]);
          var (t, rest) :- Parse(PREFIX, after);
          Ok((Cast(target, t), rest))
        else
          var (t, rest) :- Parse(OPEN, toks[1..]);
          if rest != [] && rest[0].RParen? then Ok((t, rest[1..])) else Fail(Syntax)
      case OpTok(op) =>
        if op.Dot? then Fail(Outside) else
        var (t, rest) :- Parse(PREFIX, toks[1..]);
        Ok((Unary(op, false, t), rest))
      case _ => Fail(Syntax)
  }

  function Climb(bound: int, lhs: Tree, toks: seq<Tok>): (r: Parsed)
    ensures r.Ok? ==> |r.value.1| <= |toks|
    decreases |toks|, 0
  {
    if toks == [] then Ok((lhs, toks))
    else match toks[0]
      case OpTok(op) =>
        if op.Dot? then Fail(Outside)
        else if !Enters(bound, op) then Ok((lhs, toks))
        else if IsStep(op) then Climb(bound, Unary(op, true, lhs), toks[1..])
        else
          var (rhs, rest) :- Parse(BinaryPrecedence(op), toks[1..]);
          Climb(bound, Binary(op, lhs, rhs), rest)
      case RParen => Ok((lhs, toks))
      case Stop => Ok((lhs, toks))
      case LParen => Fail(Outside)
      case _ => Fail(Syntax)
  }

  // ---------------------------------------------------------------- what the precedences mean

  /** The binary operators of C from the tightest to the loosest; `&=` and `|=` are no
      operators here. */
  const LEVELS: seq<seq<Op>> := [
    [Star, Slash, Percent], [Plus, Minus], [Shl, Shr], [Less, Greater, LessEq, GreaterEq], [EqEq, NotEq],
    [Amp], [Caret], [Bar], [AndAnd], [OrOr],
    [Assign, StarEq, SlashEq, PercentEq, PlusEq, MinusEq, CaretEq, ShlEq, ShrEq]]

  /** The table gives exactly the order of the levels: nothing else has a precedence above 0. */
  lemma {:induction false} LevelsAreC(op: Op, i: nat)
    requires !op.Dot? && i < |LEVELS|
    ensures op in LEVELS[i] <==> BinaryPrecedence(op) == 11 - i
  {
    if i < 5 { TightLevels(op, i); } else { LooseLevels(op, i); }
  }

  lemma {:induction false} TightLevels(op: Op, i: nat)
    requires !op.Dot? && i < 5
    ensures op in LEVELS[i] <==> BinaryPrecedence(op) == 11 - i
  {
  }

  lemma {:induction false} LooseLevels(op: Op, i: nat)
    requires !op.Dot? && 5 <= i < |LEVELS|
    ensures op in LEVELS[i] <==> BinaryPrecedence(op) == 11 - i
  {
  }

  function LeafOf(tok: Tok): Tree
    requires tok.Operand?
  {
    Leaf(tok.word, tok.text)
  }

  predicate Infix(op: Op) {
    !op.Dot? && !op.PlusPlus? && !op.MinusMinus?
  }

  /** Three operands: the second operator takes the middle one exactly when it binds it more
      tightly; of one precedence only `=` groups to the right, so `a += b += c` does not. */
  lemma {:induction false} TwoOperators(a: Tok, p: Op, b: Tok, q: Op, c: Tok, rest: seq<Tok>)
    requires a.Operand? && b.Operand? && c.Operand? && Infix(p) && Infix(q) && AtEnd(rest)
    ensures Parse(OPEN, [a, OpTok(p), b, OpTok(q), c] + rest) ==
              Ok((if BinaryPrecedence(q) > BinaryPrecedence(p)
                     || (BinaryPrecedence(q) == BinaryPrecedence(p) && q.Assign?)
                  then Binary(p, LeafOf(a), Binary(q, LeafOf(b), LeafOf(c)))
                  else Binary(q, Binary(p, LeafOf(a), LeafOf(b)), LeafOf(c)), rest))
  {
    var last := [OpTok(q), c] + rest;
    var all := [OpTok(p), b] + last;
    assert [a, OpTok(p), b, OpTok(q), c] + rest == [a] + all;
    assert last[1..] == [c] + rest && all[1..] == [b] + last;
    ReadOperand(OPEN, a, all);
    ReadOperand(BinaryPrecedence(p), b, last);
    ReadOperand(BinaryPrecedence(q), c, rest);
    BothOperators(LeafOf(a), p, LeafOf(b), q, LeafOf(c), all, last, rest);
  }

  lemma {:induction false} BothOperators(a: Tree, p: Op, b: Tree, q: Op, c: Tree, all: seq<Tok>, last: seq<Tok>,
                                         rest: seq<Tok>)
    requires all != [] && all[0] == OpTok(p) && last != [] && last[0] == OpTok(q) && Infix(p) && Infix(q) && AtEnd(rest)
    requires Parse(BinaryPrecedence(p), all[1..]) == Climb(BinaryPrecedence(p), b, last)
    requires Parse(BinaryPrecedence(q), last[1..]) == Ok((c, rest))
    ensures Climb(OPEN, a, all) ==
              Ok((if Enters(BinaryPrecedence(p), q) then Binary(p, a, Binary(q, b, c))
                  else Binary(q, Binary(p, a, b), c), rest))
  {
    SecondOperator(p, b, q, c, last, rest);
    if Enters(BinaryPrecedence(p), q) {
      LastOperator(OPEN, a, p, Binary(q, b, c), all, rest);
    } else {
      assert Climb(OPEN, a, all) == Climb(OPEN, Binary(p, a, b), last);
      LastOperator(OPEN, Binary(p, a, b), q, c, last, rest);
    }
  }

  /** An operator whose right operand is the last. */
  lemma {:induction false} LastOperator(bound: int, lhs: Tree, q: Op, c: Tree, toks: seq<Tok>, rest: seq<Tok>)
    requires toks != [] && toks[0] == OpTok(q) && Infix(q) && Enters(bound, q) && AtEnd(rest)
    requires Parse(BinaryPrecedence(q), toks[1..]) == Ok((c, rest))
    ensures Climb(bound, lhs, toks) == Ok((Binary(q, lhs, c), rest))
  {
    assert Climb(bound, lhs, toks) == Climb(bound, Binary(q, lhs, c), rest);
  }

  /** The middle operand takes the second operator, or leaves it. */
  lemma {:induction false} SecondOperator(p: Op, b: Tree, q: Op, c: Tree, toks: seq<Tok>, rest: seq<Tok>)
    requires toks != [] && toks[0] == OpTok(q) && Infix(q) && AtEnd(rest)
    requires Parse(BinaryPrecedence(q), toks[1..]) == Ok((c, rest))
    ensures Climb(BinaryPrecedence(p), b, toks) ==
              if Enters(BinaryPrecedence(p), q) then Ok((Binary(q, b, c), rest)) else Ok((b, toks))
  {
    if Enters(BinaryPrecedence(p), q) { LastOperator(BinaryPrecedence(p), b, q, c, toks, rest); }
  }

  lemma {:induction false} ReadOperand(bound: int, tok: Tok, rest: seq<Tok>)
    requires tok.Operand?
    ensures Parse(bound, [tok] + rest) == Climb(bound, LeafOf(tok), rest)
  {
    assert ([tok] + rest)[1..] == rest;
  }
}
