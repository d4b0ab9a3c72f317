/** Which parentheses are casts, and to what (src/parser.c, is_type, parse_type and the cast branch
    of parse_step): the type of a cast is the text between its parentheses. */
module ExprCasts {
  import opened Expr

  // ---------------------------------------------------------------- the text of a type

  /** A keyword or a pointer mark in front of a type. */
  predicate IsPrefix(tok: Tok) {
    tok.Qualifier? || tok == OpTok(Star) || tok == OpTok(Amp)
  }

  /** One word that names a type: a builtin type, `self` inside a type, or another name. */
  predicate IsTypeWord(tok: Tok) {
    tok.Operand? && (tok.word.TypeName? || tok.word.SelfName? || (tok.word.Name? && tok.text != "self"))
  }

  /** A name of a module, a dot, and a name. */
  predicate IsModuleType(toks: seq<Tok>) {
    && |toks| == 3 && toks[0].Operand? && toks[0].word.Name? && toks[0].text != "self"
    && toks[1] == OpTok(Dot) && toks[2].Operand? && (toks[2].word.Name? || toks[2].word.SelfName?)
  }

  /** `n` keywords and marks, and then the name of a type. */
  predicate TypeFrom(ty: seq<Tok>, n: nat) {
    && n < |ty| && (forall i :: 0 <= i < n ==> IsPrefix(ty[i]))
    && ((n + 1 == |ty| && IsTypeWord(ty[n])) || IsModuleType(ty[n..]))
  }

  ghost predicate IsTypeText(ty: seq<Tok>) {
    exists n: nat :: TypeFrom(ty, n)
  }

  /** Its first token, marks apart, is a keyword that can stand in front of a declaration, or
      names a builtin type or `self`. */
  ghost predicate Announced(ty: seq<Tok>) {
    exists n: nat ::
      n < |ty| && (forall i :: 0 <= i < n ==> ty[i] == OpTok(Star) || ty[i] == OpTok(Amp)) && Announces(ty[n])
  }

  predicate Announces(tok: Tok) {
    || (tok.Qualifier? && (tok.keyword.Static? || tok.keyword.Mut? || tok.keyword.Threadlocal? || tok.keyword.Extern?))
    || (tok.Operand? && (tok.word.TypeName? || tok.word.SelfName?))
  }

  // ---------------------------------------------------------------- reading a type

  lemma {:induction false} SkipsPrefixes(toks: seq<Tok>) returns (n: nat)
    ensures n <= |toks| && SkipQualifiers(toks) == toks[n..]
    ensures (forall i :: 0 <= i < n ==> IsPrefix(toks[i])) && (n < |toks| ==> !IsPrefix(toks[n]))
    decreases |toks|
  {
    if toks != [] && (toks[0].Qualifier? || IsMark(toks[0])) {
      var k := SkipsPrefixes(toks[1..]);
      n := k + 1;
      assert forall i :: 1 <= i < |toks| ==> toks[i] == toks[1..][i - 1];
    } else {
      n := 0;
    }
  }

  /** What is read as a type is the text of one, and the rest follows it. */
  lemma {:induction false} ReadsTypeText(toks: seq<Tok>) returns (ty: seq<Tok>, rest: seq<Tok>)
    requires ReadType(toks).Ok?
    ensures toks == ty + rest && rest == ReadType(toks).value && IsTypeText(ty)
  {
    var n := SkipsPrefixes(toks);
    rest := ReadType(toks).value;
    var m := |toks| - |rest|;
    ty := toks[..m];
    assert rest == toks[m..];
    var word := toks[n..];
    if m == n + 1 {
      assert ty[n] == word[0];
    } else {
      assert ty[n..] == [word[0], word[1], word[2]];
    }
    assert TypeFrom(ty, n);
  }

  lemma {:induction false} CastReads(toks: seq<Tok>) returns (ty: seq<Tok>, after: seq<Tok>)
    requires ReadCast(toks).Ok?
    ensures ReadCast(toks) == Ok((ty, after)) && IsTypeText(ty) && toks == ty + ([RParen] + after)
  {
    var rest: seq<Tok>;
    ty, rest := ReadsTypeText(toks);
    after := rest[1..];
    assert rest == [RParen] + after;
    assert toks[..|toks| - |rest|] == ty;
  }

  /** The type of a cast is what stands between its parentheses, and it is the text of a type. */
  lemma {:induction false} CastIsItsText(toks: seq<Tok>) returns (ty: seq<Tok>, after: seq<Tok>)
    requires toks != [] && toks[0].LParen? && IsType(toks[1..]) && ParseUnary(toks).Ok?
    ensures IsTypeText(ty) && toks == [LParen] + (ty + ([RParen] + after)) && Parse(PREFIX, after).Ok?
    ensures var (t, rest) := Parse(PREFIX, after).value; ParseUnary(toks) == Ok((Cast(ty, t), rest))
  {
    ty, after := CastReads(toks[1..]);
    assert toks == [LParen] + toks[1..];
  }

  // ---------------------------------------------------------------- every cast of a tree

  /** Somewhere in `toks` stands the type `ty` in parentheses. */
  ghost predicate Stands(ty: seq<Tok>, toks: seq<Tok>) {
    IsTypeText(ty) && exists before, after :: toks == before + ([LParen] + (ty + ([RParen] + after)))
  }

  /** So does the type of every cast in the tree. */
  ghost predicate CastsStand(t: Tree, toks: seq<Tok>) {
    match t
    case Leaf(_, _) => true
    case Cast(ty, x) => Stands(ty, toks) && CastsStand(x, toks)
    case Unary(_, _, x) => CastsStand(x, toks)
    case Binary(_, l, r) => CastsStand(l, toks) && CastsStand(r, toks)
  }

  ghost predicate IsSuffix(rest: seq<Tok>, toks: seq<Tok>) {
    |rest| <= |toks| && rest == toks[|toks| - |rest|..]
  }

  lemma {:induction false} StandLonger(t: Tree, rest: seq<Tok>, toks: seq<Tok>)
    requires CastsStand(t, rest) && IsSuffix(rest, toks)
    ensures CastsStand(t, toks)
  {
    match t
    case Leaf(_, _) =>
    case Unary(_, _, x) => StandLonger(x, rest, toks);
    case Binary(_, l, r) =>
      StandLonger(l, rest, toks);
      StandLonger(r, rest, toks);
    case Cast(ty, x) =>
      StandLonger(x, rest, toks);
      var before, after :| rest == before + ([LParen] + (ty + ([RParen] + after)));
      var first := toks[..|toks| - |rest|];
      assert toks == (first + before) + ([LParen] + (ty + ([RParen] + after)));
  }

  ghost predicate ReadsCasts(r: Parsed, toks: seq<Tok>) {
    r.Ok? ==> IsSuffix(r.value.1, toks) && CastsStand(r.value.0, toks)
  }

  /** Every cast of a parsed tree is to the text of a type that stands in parentheses. */
  lemma {:induction false} ParsedCasts(bound: int, toks: seq<Tok>)
    ensures ReadsCasts(Parse(bound, toks), toks)
    decreases |toks|, 2
  {
    UnaryCasts(toks);
    if ParseUnary(toks).Ok? {
      var (u, rest) := ParseUnary(toks).value;
      ClimbCasts(bound, u, rest, toks);
    }
  }

  lemma {:induction false} UnaryCasts(toks: seq<Tok>)
    ensures ReadsCasts(ParseUnary(toks), toks)
    decreases |toks|, 1
  {
    if toks != [] && toks[0].LParen? && IsType(toks[1..]) {
      if ParseUnary(toks).Ok? { CastCasts(toks); }
    } else if toks != [] && toks[0].LParen? {
      ParsedCasts(OPEN, toks[1..]);
      if ParseUnary(toks).Ok? { StandLonger(ParseUnary(toks).value.0, toks[1..], toks); }
    } else if toks != [] && toks[0].OpTok? && !toks[0].op.Dot? {
      ParsedCasts(PREFIX, toks[1..]);
      if ParseUnary(toks).Ok? { StandLonger(ParseUnary(toks).value.0, toks[1..], toks); }
    }
  }

  lemma {:induction false} CastCasts(toks: seq<Tok>)
    requires toks != [] && toks[0].LParen? && IsType(toks[1..]) && ParseUnary(toks).Ok?
    ensures ReadsCasts(ParseUnary(toks), toks)
    decreases |toks|, 0
  {
    var ty, after := CastIsItsText(toks);
    ParsedCasts(PREFIX, after);
    var (t, rest) := Parse(PREFIX, after).value;
    assert IsSuffix(after, toks);
    StandLonger(t, after, toks);
    assert toks == [] + ([LParen] + (ty + ([RParen] + after)));
  }

  lemma {:induction false} ClimbCasts(bound: int, lhs: Tree, rest: seq<Tok>, toks: seq<Tok>)
    requires IsSuffix(rest, toks) && CastsStand(lhs, toks)
    ensures ReadsCasts(Climb(bound, lhs, rest), toks)
    decreases |rest|, 0
  {
    if rest != [] && rest[0].OpTok? && !rest[0].op.Dot? && Enters(bound, rest[0].op) {
      var op := rest[0].op;
      if IsStep(op) {
        ClimbCasts(bound, Unary(op, true, lhs), rest[1..], toks);
      } else {
        ParsedCasts(BinaryPrecedence(op), rest[1..]);
        if Parse(BinaryPrecedence(op), rest[1..]).Ok? {
          var (rhs, after) := Parse(BinaryPrecedence(op), rest[1..]).value;
          StandLonger(rhs, rest[1..], toks);
          ClimbCasts(bound, Binary(op, lhs, rhs), after, toks);
        }
      }
    }
  }

  // ---------------------------------------------------------------- which parentheses are casts

  lemma {:induction false} MarksSkipped(toks: seq<Tok>, n: nat)
    requires n < |toks| && (forall i :: 0 <= i < n ==> toks[i] == OpTok(Star) || toks[i] == OpTok(Amp))
    requires toks[n] != OpTok(Star) && toks[n] != OpTok(Amp)
    ensures SkipMarks(toks) == toks[n..]
    decreases n
  {
    if n > 0 { MarksSkipped(toks[1..], n - 1); }
  }

  lemma {:induction false} PrefixesSkipped(toks: seq<Tok>, n: nat)
    requires n < |toks| && (forall i :: 0 <= i < n ==> IsPrefix(toks[i])) && !IsPrefix(toks[n])
    ensures SkipQualifiers(toks) == toks[n..]
    decreases n
  {
    if n > 0 { PrefixesSkipped(toks[1..], n - 1); }
  }

  /** The number of marks in front of a type. */
  lemma {:induction false} MarksOf(ty: seq<Tok>, n: nat) returns (m: nat)
    requires TypeFrom(ty, n)
    ensures m <= n && (forall i :: 0 <= i < m ==> ty[i] == OpTok(Star) || ty[i] == OpTok(Amp))
    ensures ty[m] != OpTok(Star) && ty[m] != OpTok(Amp)
    ensures Announced(ty) <==> Announces(ty[m])
  {
    assert !IsPrefix(ty[n]) by { assert ty[n..][0] == ty[n]; }
    m := 0;
    while ty[m] == OpTok(Star) || ty[m] == OpTok(Amp)
      invariant m <= n && forall i :: 0 <= i < m ==> ty[i] == OpTok(Star) || ty[i] == OpTok(Amp)
      decreases n - m
    {
      m := m + 1;
    }
  }

  /** A type in front of a closing parenthesis looks like one exactly when it is announced. */
  lemma {:induction false} LooksLikeType(ty: seq<Tok>, after: seq<Tok>)
    requires IsTypeText(ty)
    ensures IsType(ty + ([RParen] + after)) <==> Announced(ty)
  {
    var n: nat :| TypeFrom(ty, n);
    var m := MarksOf(ty, n);
    var toks := ty + ([RParen] + after);
    MarksSkipped(toks, m);
    var r := toks[m..];
    assert r[0] == ty[m] && r == ty[m..] + ([RParen] + after);
    if m == n {
      if n + 1 == |ty| {
        assert r[1..] == [RParen] + after;
        assert SkipMarks(r[1..]) == r[1..];
      } else {
        var last := ty[n..];
        assert r[1] == last[1] && r[2] == last[2] && r[3..] == [RParen] + after;
        assert SkipMarks(r[3..]) == r[3..];
      }
    }
  }

  lemma {:induction false} TypeIsRead(ty: seq<Tok>, after: seq<Tok>)
    requires IsTypeText(ty)
    ensures ReadCast(ty + ([RParen] + after)) == Ok((ty, after))
  {
    var n: nat :| TypeFrom(ty, n);
    var toks := ty + ([RParen] + after);
    assert !IsPrefix(ty[n]) by { assert ty[n..][0] == ty[n]; }
    PrefixesSkipped(toks, n);
    var r := toks[n..];
    if n + 1 == |ty| {
      assert r[1..] == [RParen] + after;
    } else {
      var last := ty[n..];
      assert r[0] == last[0] && r[1] == last[1] && r[2] == last[2] && r[3..] == [RParen] + after;
    }
    assert ReadType(toks) == Ok([RParen] + after);
    assert toks[..|toks| - |[RParen] + after|] == ty;
  }

  /** Parentheses around the text of a type are a cast to it exactly when the type is announced:
      a plain name in parentheses never is one. */
  lemma {:induction false} CastExactly(ty: seq<Tok>, after: seq<Tok>)
    requires IsTypeText(ty)
    ensures var read, x := ParseUnary([LParen] + (ty + ([RParen] + after))), Parse(PREFIX, after);
            && (Announced(ty) ==> read == if x.Ok? then Ok((Cast(ty, x.value.0), x.value.1)) else x)
            && (!Announced(ty) && read.Ok? ==> !read.value.0.Cast?)
  {
    var inner := ty + ([RParen] + after);
    var toks := [LParen] + inner;
    assert toks[1..] == inner;
    LooksLikeType(ty, after);
    TypeIsRead(ty, after);
    if !Announced(ty) {
      var n: nat :| TypeFrom(ty, n);
      NotOpening(ty, n);
      assert inner[0] == ty[0];
      NoCastAhead(OPEN, inner);
    }
  }

  lemma {:induction false} NotOpening(ty: seq<Tok>, n: nat)
    requires TypeFrom(ty, n)
    ensures ty != [] && !ty[0].LParen?
  {
    if n > 0 { assert IsPrefix(ty[0]); } else { assert ty[n..] == ty; }
  }

  /** Only an opening parenthesis begins a cast. */
  lemma {:induction false} NoCastAhead(bound: int, toks: seq<Tok>)
    requires toks != [] && !toks[0].LParen?
    ensures Parse(bound, toks).Ok? ==> !Parse(bound, toks).value.0.Cast?
  {
    if ParseUnary(toks).Ok? {
      var (u, rest) := ParseUnary(toks).value;
      ClimbMakesNoCast(bound, u, rest);
    }
  }

  lemma {:induction false} ClimbMakesNoCast(bound: int, lhs: Tree, toks: seq<Tok>)
    requires !lhs.Cast?
    ensures Climb(bound, lhs, toks).Ok? ==> !Climb(bound, lhs, toks).value.0.Cast?
    decreases |toks|
  {
    if toks != [] && toks[0].OpTok? && !toks[0].op.Dot? && Enters(bound, toks[0].op) {
      var op := toks[0].op;
      if IsStep(op) {
        ClimbMakesNoCast(bound, Unary(op, true, lhs), toks[1..]);
      } else if Parse(BinaryPrecedence(op), toks[1..]).Ok? {
        var (rhs, after) := Parse(BinaryPrecedence(op), toks[1..]).value;
        ClimbMakesNoCast(bound, Binary(op, lhs, rhs), after);
      }
    }
  }

  lemma {:induction false} InfixIsLooser(q: Op)
    requires Infix(q)
    ensures !Enters(PREFIX, q) && Enters(OPEN, q)
  {
  }

  /** A cast binds more tightly than every infix operator. */
  lemma {:induction false} CastBindsTightly(ty: seq<Tok>, a: Tok, q: Op, b: Tok, rest: seq<Tok>)
    requires IsTypeText(ty) && Announced(ty) && a.Operand? && b.Operand? && Infix(q) && AtEnd(rest)
    ensures Parse(OPEN, [LParen] + (ty + ([RParen] + ([a] + ([OpTok(q), b] + rest))))) ==
              Ok((Binary(q, Cast(ty, LeafOf(a)), LeafOf(b)), rest))
  {
    var last := [OpTok(q), b] + rest;
    assert last[1..] == [b] + rest;
    CastExactly(ty, [a] + last);
    ReadOperand(PREFIX, a, last);
    InfixIsLooser(q);
    assert Climb(PREFIX, LeafOf(a), last) == Ok((LeafOf(a), last));
    ReadOperand(BinaryPrecedence(q), b, rest);
    LastOperator(OPEN, Cast(ty, LeafOf(a)), q, LeafOf(b), last, rest);
  }

  /** And less tightly than a postfix operator. */
  lemma {:induction false} PostfixBindsTighter(ty: seq<Tok>, a: Tok, q: Op, rest: seq<Tok>)
    requires IsTypeText(ty) && Announced(ty) && a.Operand? && (q.PlusPlus? || q.MinusMinus?) && AtEnd(rest)
    ensures Parse(OPEN, [LParen] + (ty + ([RParen] + ([a] + ([OpTok(q)] + rest))))) ==
              Ok((Cast(ty, Unary(q, true, LeafOf(a))), rest))
  {
    var last := [OpTok(q)] + rest;
    assert last[1..] == rest;
    CastExactly(ty, [a] + last);
    ReadOperand(PREFIX, a, last);
    assert Climb(PREFIX, LeafOf(a), last) == Climb(PREFIX, Unary(q, true, LeafOf(a)), rest);
  }
}
