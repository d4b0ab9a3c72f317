/** The struct of an AST node as the compiler lays it out (src/private/ast_types.h and
    src/private/types_core.h), and that the cache finds every child pointer in it. */
module AstLayout {
  import opened Ast
  import opened Visitor
  import opened Stream
  import opened Clone
  import opened StructEqual
  import opened AstGather
  import opened AstCache
  import NodeHash

  // ---------------------------------------------------------------- struct members

  /** The members of the structs: an enumeration value, a boolean, a number or a pointer that leads
      to no node, a token, a data type, and a pointer to a node. */
  datatype Member = Enum | Bool | Word | Tok | Type | Link

  const WORD_BYTES: nat := 8
  const TOKEN_BYTES: nat := 8 + 4 + 4 + 4 + 4         // start, len, type, line, col
  const COUNT_IN_TYPE: nat := 8 * 1 + 8 + TOKEN_BYTES // behind the flags, ptr_depth and the name
  const TYPE_BYTES: nat := COUNT_IN_TYPE + 8 + 8      // array_dimens with its padding, dim_sizes

  function Bytes(m: Member): nat {
    match m
    case Enum => 4
    case Bool => 1
    case Word => WORD_BYTES
    case Tok => TOKEN_BYTES
    case Type => TYPE_BYTES
    case Link => WORD_BYTES
  }

  /** Where a member stands that comes behind `at` bytes: all but the small ones are aligned to
      words. */
  function Start(m: Member, at: nat): nat {
    if m.Bool? then at else if m.Enum? then (at + 3) / 4 * 4 else (at + 7) / 8 * 8
  }

  /** The members `ms`, behind `at` bytes, stand at the places `bs`. */
  ghost predicate Starts(ms: seq<Member>, at: nat, bs: seq<nat>) {
    |bs| == |ms| && (ms != [] ==> bs[0] == Start(ms[0], at)) && forall i :: 0 < i < |ms| ==> StartsBehind(ms, bs, i)
  }

  ghost predicate StartsBehind(ms: seq<Member>, bs: seq<nat>, i: nat)
    requires 0 < i < |ms| == |bs|
  {
    bs[i] == Start(ms[i], bs[i - 1] + Bytes(ms[i - 1]))
  }

  lemma {:induction false} StartsExist(ms: seq<Member>, at: nat) returns (bs: seq<nat>)
    ensures Starts(ms, at, bs)
    decreases |ms|
  {
    if ms == [] {
      bs := [];
    } else {
      var n := |ms| - 1;
      var first := StartsExist(ms[..n], at);
      bs := first + [Start(ms[n], if n == 0 then at else first[n - 1] + Bytes(ms[n - 1]))];
      forall i | 0 < i < n ensures StartsBehind(ms, bs, i) { assert StartsBehind(ms[..n], first, i); }
    }
  }

  lemma {:induction false} StartsFirst(ms: seq<Member>, at: nat, bs: seq<nat>, m: Member)
    requires Starts(ms, at, bs) && ms != [] && ms[0] == m
    ensures bs[0] == Start(m, at)
  {
  }

  lemma {:induction false} StartsNext(ms: seq<Member>, at: nat, bs: seq<nat>, i: nat, l: Member, m: Member)
    requires Starts(ms, at, bs) && i + 1 < |ms| && ms[i] == l && ms[i + 1] == m
    ensures bs[i + 1] == Start(m, bs[i] + Bytes(l))
  {
    assert StartsBehind(ms, bs, i + 1);
  }

  /** The places of the node pointers among the members. */
  function LinkPlaces(ms: seq<Member>, bs: seq<nat>): seq<nat>
    requires |bs| == |ms|
    decreases |ms|
  {
    if ms == [] then [] else (if ms[0] == Link then [bs[0]] else []) + LinkPlaces(ms[1..], bs[1..])
  }

  /** type, next, src_start, src_end, node_hash, eval_type, is_nested_sue, is_dirty. */
  const HEADER: seq<Member> := [Enum, Link, Word, Word, Word, Type, Bool, Bool]

  /** The union begins at the next word. */
  const UNION_AT: nat := 104

  /** The struct of the union that a kind uses. */
  function Members(k: Kind): seq<Member> {
    match k
    case NUM_LIT | STR_LIT | CHAR_LIT | BOOL_LIT | NULL_LIT | BREAK | CONTINUE => [Tok]
    case ARRAY_LIT | EXTERN => [Link]                         // elements; contents
    case IDENTIF => [Tok, Word]                               // val, res_sm
    case BINOP => [Tok, Link, Link]                           // op, left, right
    case UOP | ADDR_OF | DEREF => [Tok, Link, Bool]           // op, operand, is_postfix
    case VAR_DECL => [Tok, Type, Link]                        // id, type, init
    case IF => [Tok, Link, Link, Link]                        // if_stmt, check, action, elseAct
    case STRUCT | UNION => [Tok, Link, Bool]                  // name, contents, is_extern
    case ENUM | ENUM_MEMBER | DEFER | RET => [Tok, Link]      // name or keyword, contents or value
    case FOR => [Tok, Link, Link, Link, Link]                 // for_stmt, init, check, inc, action
    case WHILE => [Tok, Link, Link]                           // while_stmt, check, action
    case PARAM => [Type, Tok]                                 // type, id
    case FUNC => [Tok, Type, Bool, Bool, Bool, Link, Link]    // fn_name, ret_type, flags, params, block
    case BLOCK | PROGRAM => [Link, Bool]                      // first_stmt, is_async
    case FUNC_CALL | INDEX | CASE => [Link, Link]             // caller, args; base, index; val, action
    case MEMBER => [Link, Tok, Tok]                           // base, name, type
    case SWITCH => [Link, Link, Link]                         // check, cases, default_case
    case USE => [Tok, Tok, Tok, Tok]                          // path, alias, use_kw, semicln
    case CAST => [Type, Link]                                 // target, op
    case SIZEOF => [Bool, Type, Link]                         // is_type, target_type, target_expr
    case ERROR => []
  }

  // ---------------------------------------------------------------- the tables are the layout

  /** The header ends where the union begins, and the sibling and the number of dimensions are where
      the cache looks for them. */
  lemma {:induction false} HeaderLayout(bs: seq<nat>)
    requires Starts(HEADER, 0, bs)
    ensures HEADER[1] == Link && bs[1] == WORD_BYTES * NEXT_WORD
    ensures HEADER[5] == Type && bs[5] + COUNT_IN_TYPE == WORD_BYTES * DIMS1_WORD
    ensures Start(Word, bs[7] + Bytes(HEADER[7])) == UNION_AT
  {
    StartsFirst(HEADER, 0, bs, Enum);
    StartsNext(HEADER, 0, bs, 0, Enum, Link);
    StartsNext(HEADER, 0, bs, 1, Link, Word);
    StartsNext(HEADER, 0, bs, 2, Word, Word);
    StartsNext(HEADER, 0, bs, 3, Word, Word);
    StartsNext(HEADER, 0, bs, 4, Word, Type);
    StartsNext(HEADER, 0, bs, 5, Type, Bool);
    StartsNext(HEADER, 0, bs, 6, Bool, Bool);
  }

  /** The node pointers are the `n` members from the `f`th on. */
  ghost predicate LinksAre(ms: seq<Member>, f: nat, n: nat) {
    f + n <= |ms| && forall i :: 0 <= i < |ms| ==> (ms[i] == Link <==> f <= i < f + n)
  }

  lemma {:induction false} PlacesOfRun(ms: seq<Member>, bs: seq<nat>, f: nat, n: nat)
    requires |bs| == |ms| && LinksAre(ms, f, n)
    ensures LinkPlaces(ms, bs) == bs[f..f + n]
    decreases |ms|
  {
    if ms != [] {
      if f > 0 {
        PlacesOfRun(ms[1..], bs[1..], f - 1, n);
      } else if n > 0 {
        assert forall i :: 0 <= i < |ms[1..]| ==> ms[1..][i] == ms[i + 1];
        PlacesOfRun(ms[1..], bs[1..], 0, n - 1);
      } else {
        PlacesOfRun(ms[1..], bs[1..], 0, 0);
      }
    }
  }

  /** The node pointers from the `f`th member on stand in the words `ws`. */
  ghost predicate LinksStand(ms: seq<Member>, bs: seq<nat>, f: nat, ws: seq<nat>) {
    |bs| == |ms| && LinksAre(ms, f, |ws|) && forall j :: f <= j < f + |ws| ==> bs[j] == WORD_BYTES * ws[j - f]
  }

  /** Node pointers in a row stand in words in a row. */
  lemma {:induction false} RunOf(ms: seq<Member>, bs: seq<nat>, f: nat, n: nat, w: nat)
    requires Starts(ms, UNION_AT, bs) && 0 < n && LinksAre(ms, f, n) && bs[f] == WORD_BYTES * w
    ensures forall j :: f <= j < f + n ==> bs[j] == WORD_BYTES * (w + j - f)
    decreases n
  {
    if n > 1 {
      RunOn(ms, bs, f, n - 1, w);
    }
  }

  lemma {:induction false} RunOn(ms: seq<Member>, bs: seq<nat>, f: nat, n: nat, w: nat)
    requires Starts(ms, UNION_AT, bs) && f + n < |ms| && (forall j :: f <= j <= f + n ==> ms[j] == Link)
    requires bs[f] == WORD_BYTES * w
    ensures forall j :: f <= j <= f + n ==> bs[j] == WORD_BYTES * (w + j - f)
    decreases n
  {
    if n > 0 {
      RunOn(ms, bs, f, n - 1, w);
      StartsNext(ms, UNION_AT, bs, f + n - 1, Link, Link);
    }
  }

  lemma {:induction false} RunStands(ms: seq<Member>, bs: seq<nat>, f: nat, ws: seq<nat>, w: nat)
    requires Starts(ms, UNION_AT, bs) && ws != [] && LinksAre(ms, f, |ws|) && bs[f] == WORD_BYTES * w
    requires forall i :: 0 <= i < |ws| ==> ws[i] == w + i
    ensures LinksStand(ms, bs, f, ws)
  {
    RunOf(ms, bs, f, |ws|, w);
  }

  /** The unions that begin with node pointers. */
  lemma {:induction false} PlainLinks(k: Kind, bs: seq<nat>)
    requires Starts(Members(k), UNION_AT, bs)
    requires match k
             case PROGRAM | BLOCK | ARRAY_LIT | EXTERN | MEMBER | FUNC_CALL | INDEX | CASE | SWITCH => true
             case _ => false
    ensures LinksStand(Members(k), bs, 0, KidWords(k))
  {
    StartsFirst(Members(k), UNION_AT, bs, Link);
    RunStands(Members(k), bs, 0, KidWords(k), 13);
  }

  /** Those that begin with a token and go on with node pointers. */
  lemma {:induction false} TokenLinks(k: Kind, bs: seq<nat>)
    requires Starts(Members(k), UNION_AT, bs)
    requires match k
             case UOP | ADDR_OF | DEREF | STRUCT | UNION | ENUM | ENUM_MEMBER | DEFER | RET => true
             case BINOP | WHILE | IF | FOR => true
             case _ => false
    ensures LinksStand(Members(k), bs, 1, KidWords(k))
  {
    StartsFirst(Members(k), UNION_AT, bs, Tok);
    StartsNext(Members(k), UNION_AT, bs, 0, Tok, Link);
    RunStands(Members(k), bs, 1, KidWords(k), 16);
  }

  /** And those with a type before the node pointers. */
  lemma {:induction false} TypeLinks(k: Kind, bs: seq<nat>) returns (f: nat)
    requires Starts(Members(k), UNION_AT, bs) && (k.CAST? || k.VAR_DECL? || k.SIZEOF? || k.FUNC?)
    ensures LinksStand(Members(k), bs, f, KidWords(k))
  {
    var ms := Members(k);
    StartsFirst(ms, UNION_AT, bs, ms[0]);
    match k
    case CAST =>
      f := 1;
      StartsNext(ms, UNION_AT, bs, 0, Type, Link);
      RunStands(ms, bs, f, [20], 20);
    case VAR_DECL =>
      f := 2;
      StartsNext(ms, UNION_AT, bs, 0, Tok, Type);
      StartsNext(ms, UNION_AT, bs, 1, Type, Link);
      RunStands(ms, bs, f, [23], 23);
    case SIZEOF =>
      f := 2;
      StartsNext(ms, UNION_AT, bs, 0, Bool, Type);
      StartsNext(ms, UNION_AT, bs, 1, Type, Link);
      RunStands(ms, bs, f, [21], 21);
    case FUNC =>
      f := 5;
      FuncLinks(bs);
  }

  /** The three flags of a function share a word. */
  lemma {:induction false} FuncLinks(bs: seq<nat>)
    requires Starts(Members(FUNC), UNION_AT, bs)
    ensures LinksStand(Members(FUNC), bs, 5, KidWords(FUNC))
  {
    var ms := Members(FUNC);
    StartsFirst(ms, UNION_AT, bs, Tok);
    StartsNext(ms, UNION_AT, bs, 0, Tok, Type);
    StartsNext(ms, UNION_AT, bs, 1, Type, Bool);
    StartsNext(ms, UNION_AT, bs, 2, Bool, Bool);
    StartsNext(ms, UNION_AT, bs, 3, Bool, Bool);
    StartsNext(ms, UNION_AT, bs, 4, Bool, Link);
    RunStands(ms, bs, 5, [24, 25], 24);
  }

  lemma {:induction false} StandingPlaces(ms: seq<Member>, bs: seq<nat>, f: nat, ws: seq<nat>)
    requires LinksStand(ms, bs, f, ws)
    ensures |LinkPlaces(ms, bs)| == |ws|
    ensures forall i :: 0 <= i < |ws| ==> LinkPlaces(ms, bs)[i] == WORD_BYTES * ws[i]
  {
    PlacesOfRun(ms, bs, f, |ws|);
    forall i | 0 <= i < |ws| ensures bs[f..f + |ws|][i] == WORD_BYTES * ws[i] {
      assert bs[f + i] == WORD_BYTES * ws[f + i - f];
    }
  }

  /** The words of the child pointers are those of the node pointers of the struct, in order. */
  lemma {:induction false} KidWordsAreLinks(k: Kind, bs: seq<nat>)
    requires Starts(Members(k), UNION_AT, bs)
    ensures |LinkPlaces(Members(k), bs)| == |KidWords(k)|
    ensures forall i :: 0 <= i < |KidWords(k)| ==> LinkPlaces(Members(k), bs)[i] == WORD_BYTES * KidWords(k)[i]
  {
    var f := 0;
    match k {
      case PROGRAM | BLOCK | ARRAY_LIT | EXTERN | MEMBER | FUNC_CALL | INDEX | CASE | SWITCH => PlainLinks(k, bs);
      case UOP | ADDR_OF | DEREF | STRUCT | UNION | ENUM | ENUM_MEMBER | DEFER | RET | BINOP | WHILE | IF | FOR =>
        TokenLinks(k, bs);
        f := 1;
      case CAST | VAR_DECL | SIZEOF | FUNC => f := TypeLinks(k, bs);
      case _ =>
        assert LinksAre(Members(k), 0, 0);
    }
    StandingPlaces(Members(k), bs, f, KidWords(k));
  }

  /** As many child pointers as the deep copy follows, each in a word of its own, inside the node. */
  lemma {:induction false} KidWordsAreAll(k: Kind)
    ensures |KidWords(k)| == Arity(k)
    ensures forall i, j :: 0 <= i < j < |KidWords(k)| ==> 13 <= KidWords(k)[i] < KidWords(k)[j] < NODE_WORDS
  {
  }

  /** A declared type, when the kind has one, counts its dimensions where the cache looks. */
  lemma {:induction false} DeclaredTypeWord(k: Kind, bs: seq<nat>)
    requires Starts(Members(k), UNION_AT, bs)
    ensures Type !in Members(k) ==> Dims2Word(NodeHash.KindCode(k)) == 0
    ensures forall i :: 0 <= i < |bs| && Members(k)[i] == Type ==>
              bs[i] + COUNT_IN_TYPE == WORD_BYTES * Dims2Word(NodeHash.KindCode(k))
  {
    var ms := Members(k);
    if ms != [] { StartsFirst(ms, UNION_AT, bs, ms[0]); }
    if |ms| > 1 { StartsNext(ms, UNION_AT, bs, 0, ms[0], ms[1]); }
  }

  ghost predicate EndsAt(k: Kind, bs: seq<nat>, end: nat) {
    && Starts(Members(k), UNION_AT, bs) && Members(k) != []
    && var n := |Members(k)| - 1; end == Start(Word, bs[n] + Bytes(Members(k)[n]))
  }

  /** A node has room for the struct of every kind, and no more than a function needs. */
  lemma {:induction false} NodeSize(k: Kind, bs: seq<nat>, end: nat)
    requires EndsAt(k, bs, end)
    ensures NODE_SIZE == WORD_BYTES * NODE_WORDS
    ensures if k.FUNC? then end == NODE_SIZE else end < NODE_SIZE
  {
    if k.FUNC? {
      FunctionSize(Members(k), bs);
    } else {
      OtherSize(k, bs, end);
    }
  }

  lemma {:induction false} FunctionSize(ms: seq<Member>, bs: seq<nat>)
    requires ms == [Tok, Type, Bool, Bool, Bool, Link, Link] && Starts(ms, UNION_AT, bs)
    ensures bs[6] == 200
  {
    StartsFirst(ms, UNION_AT, bs, Tok);
    StartsNext(ms, UNION_AT, bs, 0, Tok, Type);
    StartsNext(ms, UNION_AT, bs, 1, Type, Bool);
    StartsNext(ms, UNION_AT, bs, 2, Bool, Bool);
    StartsNext(ms, UNION_AT, bs, 3, Bool, Bool);
    StartsNext(ms, UNION_AT, bs, 4, Bool, Link);
    StartsNext(ms, UNION_AT, bs, 5, Link, Link);
  }

  lemma {:induction false} OtherSize(k: Kind, bs: seq<nat>, end: nat)
    requires EndsAt(k, bs, end) && !k.FUNC?
    ensures end < NODE_SIZE
  {
    var ms := Members(k);
    StartsFirst(ms, UNION_AT, bs, ms[0]);
    if |ms| > 1 { StartsNext(ms, UNION_AT, bs, 0, ms[0], ms[1]); }
    if |ms| > 2 { StartsNext(ms, UNION_AT, bs, 1, ms[1], ms[2]); }
    if |ms| > 3 { StartsNext(ms, UNION_AT, bs, 2, ms[2], ms[3]); }
    if |ms| > 4 { StartsNext(ms, UNION_AT, bs, 3, ms[3], ms[4]); }
  }

  // ---------------------------------------------------------------- nodes laid out as structs

  /** The words are a node of kind `k` with these children. */
  ghost predicate LaidOut(words: seq<nat>, k: Kind, kids: seq<Ptr>) {
    && WordAt(words, 0) % U32 == NodeHash.KindCode(k)
    && exists bs :: Starts(Members(k), UNION_AT, bs) && Holds(words, LinkPlaces(Members(k), bs), kids)
  }

  /** The words at the places `bs` are `kids`, in order. */
  predicate Holds(words: seq<nat>, bs: seq<nat>, kids: seq<Ptr>) {
    |kids| == |bs| && forall i :: 0 <= i < |bs| ==> WordAt(words, bs[i] / WORD_BYTES) == kids[i]
  }

  lemma {:induction false} KindComesBack(k: Kind)
    ensures KindOf(NodeHash.KindCode(k)) == k
  {
    if NodeHash.KindCode(k) < 19 { EarlyKindComesBack(k); } else { LateKindComesBack(k); }
  }

  lemma {:induction false} EarlyKindComesBack(k: Kind)
    requires NodeHash.KindCode(k) < 19
    ensures KindOf(NodeHash.KindCode(k)) == k
  {
  }

  lemma {:induction false} LateKindComesBack(k: Kind)
    requires NodeHash.KindCode(k) >= 19
    ensures KindOf(NodeHash.KindCode(k)) == k
  {
  }

  /** What a traversal sees in a node is its kind and all its children. */
  lemma {:induction false} ChildrenAreSeen(words: seq<nat>, k: Kind, kids: seq<Ptr>)
    requires LaidOut(words, k, kids)
    ensures |kids| == Arity(k) && CellOf(words).kind == k && CellOf(words).kids == kids
  {
    KindComesBack(k);
    KidWordsAreAll(k);
    var bs :| Starts(Members(k), UNION_AT, bs) && Holds(words, LinkPlaces(Members(k), bs), kids);
    KidWordsAreLinks(k, bs);
    forall i | 0 <= i < |kids| ensures CellOf(words).kids[i] == kids[i] {
      assert LinkPlaces(Members(k), bs)[i] / WORD_BYTES == KidWords(k)[i];
    }
  }

  /** Every node pointer in the struct of a node that is reached from the root leads to a node that
      the cache writes, but for the expression of a sizeof of a type. */
  lemma {:induction false} EveryPointerIsGathered(h: Heap, root: Ptr, p: Ptr, k: Kind, kids: seq<Ptr>, i: nat)
    requires AllEnd(h, GraphOf(h), root) && Reached(GraphOf(h), root, p) && p in h
    requires LaidOut(h[p].words, k, kids) && i < |kids|
    requires k.SIZEOF? ==> WordAt(h[p].words, 13) % 0x100 == 0
    ensures kids[i] == NULL || Reached(GraphOf(h), root, kids[i])
  {
    ChildrenAreSeen(h[p].words, k, kids);
    ChildrenAreGathered(h, root, p, ToKid(i));
  }

  /** The addresses of the reader's copies. */
  function Copies(r: Reader, s: Gathered, kids: seq<Ptr>): (r': seq<Ptr>)
    ensures |r'| == |kids|
    ensures forall i :: 0 <= i < |kids| ==> r'[i] == if kids[i] in s.index then NodeAt(r, s.index[kids[i]]) else NULL
  {
    seq(|kids|, i requires 0 <= i < |kids| => if kids[i] in s.index then NodeAt(r, s.index[kids[i]]) else NULL)
  }

  /** A child pointer of the writer that leads to a gathered node, or nowhere, is restored. */
  lemma {:induction false} PointerReturns(w: Writer, r: Reader, n: Node, m: Restored, i: nat)
    requires Fits(w, r) && Laid(n) && Restores(w, r, n, m) && i < |KidWords(KindOf(n.words[0] % U32))|
    requires var at := KidWords(KindOf(n.words[0] % U32))[i]; n.words[at] == NULL || n.words[at] in w.index
    ensures var at := KidWords(KindOf(n.words[0] % U32))[i];
            m.words[at] == if n.words[at] in w.index then NodeAt(r, w.index[n.words[at]]) else NULL
  {
    KidsAreKept(n.words, i);
  }

  /** The places `at` of the child words hold these pointers. */
  ghost predicate Points(words: seq<nat>, k: Kind, kids: seq<Ptr>) {
    |KidWords(k)| == |kids| && forall i :: 0 <= i < |kids| ==> WordAt(words, KidWords(k)[i]) == kids[i]
  }

  lemma {:induction false} PointsAreHeld(words: seq<nat>, k: Kind, kids: seq<Ptr>, bs: seq<nat>)
    requires Starts(Members(k), UNION_AT, bs)
    ensures Holds(words, LinkPlaces(Members(k), bs), kids) <==> Points(words, k, kids)
  {
    KidWordsAreLinks(k, bs);
    var places := LinkPlaces(Members(k), bs);
    assert forall i :: 0 <= i < |places| ==> places[i] / WORD_BYTES == KidWords(k)[i];
  }

  lemma {:induction false} CopyPoints(w: Writer, r: Reader, s: Gathered, n: Node, m: Restored, k: Kind, kids: seq<Ptr>)
    requires Fits(w, r) && w.index == s.index && Laid(n) && Restores(w, r, n, m) && KindOf(n.words[0] % U32) == k
    requires Points(n.words, k, kids) && forall i :: 0 <= i < |kids| ==> kids[i] == NULL || kids[i] in s.index
    ensures Points(m.words, k, Copies(r, s, kids))
  {
    forall i | 0 <= i < |kids| ensures WordAt(m.words, KidWords(k)[i]) == Copies(r, s, kids)[i] {
      assert WordAt(n.words, KidWords(k)[i]) == kids[i];
      PointerReturns(w, r, n, m, i);
    }
  }

  lemma {:induction false} CopyIsLaidOut(w: Writer, r: Reader, s: Gathered, n: Node, m: Restored, k: Kind,
                                         kids: seq<Ptr>)
    requires Fits(w, r) && w.index == s.index && Laid(n) && Restores(w, r, n, m) && LaidOut(n.words, k, kids)
    requires forall i :: 0 <= i < |kids| ==> kids[i] == NULL || kids[i] in s.index
    ensures LaidOut(m.words, k, Copies(r, s, kids))
  {
    KindComesBack(k);
    var bs :| Starts(Members(k), UNION_AT, bs) && Holds(n.words, LinkPlaces(Members(k), bs), kids);
    PointsAreHeld(n.words, k, kids, bs);
    CopyPoints(w, r, s, n, m, k, kids);
    PointsAreHeld(m.words, k, Copies(r, s, kids), bs);
    CodeReturns(w, r, n, m);
  }

  lemma {:induction false} CodeReturns(w: Writer, r: Reader, n: Node, m: Restored)
    requires Fits(w, r) && Laid(n) && Restores(w, r, n, m)
    ensures WordAt(m.words, 0) == WordAt(n.words, 0)
  {
    KindReturns(w, r, n, m);
    assert m.words[0] == Moved(w, r, Flat(n.words)[0]) == n.words[0];
  }

  /** The copy that is read back of a node reached from the root has the same kind, and each pointer
      of its struct leads to the copy of the child that it led to. */
  lemma {:induction false} PointersComeBack(h: Heap, root: Ptr, s: Gathered, w: Writer, r: Reader,
                                            nodes: seq<Restored>, p: Ptr, k: Kind, kids: seq<Ptr>)
    requires Cached(h, root, s, w, r) && AllEnd(h, GraphOf(h), root)
    requires nodes == Loaded(r, FileBytes(RawNodes(w, NodesOf(h, s.queue))))
    requires p in s.index && LaidOut(h[p].words, k, kids)
    requires k.SIZEOF? ==> WordAt(h[p].words, 13) % 0x100 == 0
    ensures s.index[p] < |nodes| && LaidOut(nodes[s.index[p]].words, k, Copies(r, s, kids))
  {
    CacheRestores(h, root, s, w, r);
    PointersReturn(h, root, s, w, r, nodes, p, k, kids);
  }

  lemma {:induction false} PointersReturn(h: Heap, root: Ptr, s: Gathered, w: Writer, r: Reader,
                                          nodes: seq<Restored>, p: Ptr, k: Kind, kids: seq<Ptr>)
    requires Cached(h, root, s, w, r) && AllEnd(h, GraphOf(h), root) && AllRestored(h, s, w, r, nodes)
    requires p in s.index && LaidOut(h[p].words, k, kids)
    requires k.SIZEOF? ==> WordAt(h[p].words, 13) % 0x100 == 0
    ensures LaidOut(nodes[s.index[p]].words, k, Copies(r, s, kids))
  {
    forall i | 0 <= i < |kids| ensures kids[i] == NULL || kids[i] in s.index {
      EveryPointerIsGathered(h, root, p, k, kids, i);
    }
    CopyIsLaidOut(w, r, s, h[p], nodes[s.index[p]], k, kids);
  }
}
