/** The memoised Merkle hash of AST nodes (src/ast_serde.c, compute_node_hash), on the FNV-1a
    mixing of src/data_structures/hashmap/hashutils.c. */
module NodeHash {
  import opened Ast
  import opened Visitor

  const FNV_OFFSET: u32 := 2166136261
  const FNV_PRIME: u32 := 16777619

  /** Bitwise exclusive or. */
  function Xor(a: nat, b: nat): nat
    decreases a + b
  {
    if a == 0 && b == 0 then 0 else (a + b) % 2 + 2 * Xor(a / 2, b / 2)
  }

  /** One FNV-1a step on 32 bits: exclusive or with a byte, then multiply and wrap around. */
  function MixByte(hash: u32, b: byte): u32 {
    Xor(hash, b) * FNV_PRIME % 0x1_0000_0000
  }

  /** FNV-1a over bytes, the last byte mixed in last. */
  function HashBytes(key: seq<byte>): u32 {
    if key == [] then FNV_OFFSET
    else MixByte(HashBytes(key[..|key| - 1]), key[|key| - 1])
  }

  method HashString(key: seq<byte>) returns (hash: u32)
    ensures hash == HashBytes(key)
  {
    hash := FNV_OFFSET;
    var i := 0;
    while i < |key|
      invariant 0 <= i <= |key|
      invariant hash == HashBytes(key[..i])
    {
      assert key[..i + 1][..i] == key[..i];
      hash := MixByte(hash, key[i]);
      i := i + 1;
    }
    assert key[..|key|] == key;
  }

  lemma {:induction false} XorZero(a: nat)
    ensures Xor(a, 0) == a
  {
    if a > 0 { XorZero(a / 2); }
  }

  /** Two of the values published for 32-bit FNV-1a: of nothing, and of `a`. */
  lemma {:induction false} KnownHashes()
    ensures HashBytes([]) == 0x811C_9DC5 && HashBytes([0x61]) == 0xE40C_292C
  {
    XorZero(16922939);
    assert Xor(33845879, 1) == 33845878;
    assert Xor(67691758, 3) == 67691757;
    assert Xor(135383516, 6) == 135383514;
    assert Xor(270767032, 12) == 270767028;
    assert Xor(541534065, 24) == 541534057;
    assert Xor(1083068130, 48) == 1083068114;
    assert Xor(2166136261, 97) == 2166136228;
    assert HashBytes([0x61]) == MixByte(HashBytes([]), 0x61);
  }

  /** combine_hash mixes in the four bytes of a word, low byte first. */
  function CombineHash(hash: u32, value: u32): u32 {
    MixByte(MixByte(MixByte(MixByte(hash, value % 0x100), value / 0x100 % 0x100), value / 0x1_0000 % 0x100),
            value / 0x100_0000 % 0x100)
  }

  function Word(n: nat): u32 {
    n % 0x1_0000_0000
  }

  // ---------------------------------------------------------------- what is hashed

  /** What compute_hash_exit mixes in: words, and the hashes of children. */
  datatype Part = Value(word: u32) | HashOf(p: Ptr)

  function KindCode(k: Kind): nat {
    match k
    case ERROR => 0 case BINOP => 1 case UOP => 2 case ADDR_OF => 3 case DEREF => 4 case IDENTIF => 5
    case VAR_DECL => 6 case NUM_LIT => 7 case STR_LIT => 8 case CHAR_LIT => 9 case BOOL_LIT => 10
    case ARRAY_LIT => 11 case IF => 12 case BLOCK => 13 case STRUCT => 14 case UNION => 15 case ENUM => 16
    case ENUM_MEMBER => 17 case DEFER => 18 case FOR => 19 case WHILE => 20 case FUNC => 21
    case FUNC_CALL => 22 case PARAM => 23 case RET => 24 case INDEX => 25 case MEMBER => 26
    case SWITCH => 27 case CASE => 28 case EXTERN => 29 case USE => 30 case NULL_LIT => 31
    case BREAK => 32 case CONTINUE => 33 case CAST => 34 case SIZEOF => 35 case PROGRAM => 36
  }

  function TokenWords(t: Token): seq<u32> {
    [Word(t.ty)] + if t.text == [] then [] else [HashBytes(t.text)]
  }

  function BoolWord(b: bool): u32 {
    if b then 1 else 0
  }

  function TypeWords(d: DataType): seq<u32> {
    TokenWords(d.name) + [Word(d.ptrDepth), Word(d.arrayDimens), BoolWord(d.isStatic),
      BoolWord(d.isMut), BoolWord(d.isThreadlocal), BoolWord(d.isExtern)]
  }

  /** The words of a node's own, in the order in which they are mixed in. */
  function OwnWords(c: Cell): seq<u32> {
    match c.kind
    case BINOP | ENUM | ENUM_MEMBER | MEMBER | IDENTIF | NUM_LIT | STR_LIT | CHAR_LIT | BOOL_LIT | NULL_LIT
       | BREAK | CONTINUE => TokenWords(c.tok)
    case UOP | ADDR_OF | DEREF | STRUCT | UNION => TokenWords(c.tok) + [BoolWord(Flag(c, 0))]
    case VAR_DECL | PARAM => TokenWords(c.tok) + TypeWords(c.dtype)
    case FUNC =>
      TokenWords(c.tok) + TypeWords(c.dtype)
      + [BoolWord(Flag(c, 2)), BoolWord(Flag(c, 0)), BoolWord(Flag(c, 1))]
    case USE => TokenWords(c.tok) + if c.alias.text == [] then [] else TokenWords(c.alias)
    case CAST => TypeWords(c.dtype)
    case SIZEOF => if Flag(c, 0) then TypeWords(c.dtype) else []
    case _ => []
  }

  function OwnParts(c: Cell): (r: seq<Part>)
    ensures |r| == |OwnWords(c)| && forall i :: 0 <= i < |r| ==> r[i] == Value(OwnWords(c)[i])
  {
    var ws := OwnWords(c);
    seq(|ws|, i requires 0 <= i < |ws| => Value(ws[i]))
  }

  /** The children mixed in after them: a child, or all nodes of a list. */
  datatype Hashed = Node(i: nat) | List(i: nat)

  /** A for loop mixes in only the first node of its init and inc lists. */
  function HashedKids(c: Cell): seq<Hashed> {
    match c.kind
    case BINOP | WHILE | INDEX | CASE => [Node(0), Node(1)]
    case UOP | ADDR_OF | DEREF | VAR_DECL | ENUM_MEMBER | MEMBER | DEFER | RET | CAST => [Node(0)]
    case ARRAY_LIT | BLOCK | PROGRAM | EXTERN | STRUCT | UNION | ENUM => [List(0)]
    case IF => [Node(0), Node(1), Node(2)]
    case FOR => [Node(0), Node(1), Node(2), Node(3)]
    case FUNC => [List(0), Node(1)]
    case FUNC_CALL => [Node(0), List(1)]
    case SWITCH => [Node(0), List(1), Node(2)]
    case SIZEOF => if Flag(c, 0) then [] else [Node(0)]
    case _ => []
  }

  function HashedList(mem: Memory, c: Cell, h: Hashed): seq<Ptr> {
    match h
    case Node(i) => if Kid(c, i) == NULL then [] else [Kid(c, i)]
    case List(i) => if ListAt(mem, Kid(c, i)).Some? then ListAt(mem, Kid(c, i)).value else []
  }

  function HashParts(ps: seq<Ptr>): seq<Part> {
    seq(|ps|, i requires 0 <= i < |ps| => HashOf(ps[i]))
  }

  function KidParts(mem: Memory, c: Cell, hs: seq<Hashed>): seq<Part> {
    if hs == [] then [] else HashParts(HashedList(mem, c, hs[0])) + KidParts(mem, c, hs[1..])
  }

  /** The switch of compute_hash_exit. */
  function Recipe(mem: Memory, c: Cell): seq<Part> {
    OwnParts(c) + KidParts(mem, c, HashedKids(c))
  }

  /** Mix the parts into `hash`, children by the hashes in `hs`. */
  function Mix(hash: u32, parts: seq<Part>, hs: map<Ptr, u32>): u32
    decreases |parts|
  {
    if parts == [] then hash
    else
      Mix(CombineHash(hash, PartWord(parts[0], hs)), parts[1..], hs)
  }

  function PartWord(part: Part, hs: map<Ptr, u32>): u32 {
    match part
    case Value(w) => w
    case HashOf(p) => if p in hs then hs[p] else 0
  }

  function Seed(k: Kind): u32 {
    CombineHash(FNV_OFFSET, Word(KindCode(k)))
  }

  // ---------------------------------------------------------------- the structural hash

  /** The hash of a tree, computed from the hashes of its subtrees; stored hashes play no
      part. */
  function StructHash(mem: Memory, sh: Shape): u32
    decreases sh, 0
  {
    if sh.p !in mem then 0
    else Mix(Seed(mem[sh.p].kind), Recipe(mem, mem[sh.p]), KidHashes(mem, sh.kids))
  }

  function KidHashes(mem: Memory, shs: seq<Shape>): (r: map<Ptr, u32>)
    ensures forall p :: p in r <==> p in Roots(shs)
    decreases shs
  {
    if shs == [] then map[]
    else
      assert Roots(shs) == [shs[0].p] + Roots(shs[1..]);
      KidHashes(mem, shs[1..])[shs[0].p := StructHash(mem, shs[0])]
  }

  // ---------------------------------------------------------------- the pass

  function StoredHashes(mem: Memory): map<Ptr, u32> {
    map p | p in mem :: mem[p].hash
  }

  function HashEnter(mem: Memory, n: Ptr): (Memory, VisitResult) {
    (mem, if n in mem && mem[n].hash != 0 then SkipChildren else Continue)
  }

  function HashExit(mem: Memory, n: Ptr): Memory {
    if n !in mem || mem[n].hash != 0 then mem
    else mem[n := mem[n].(hash := Mix(Seed(mem[n].kind), Recipe(mem, mem[n]), StoredHashes(mem)))]
  }

  function HashVisitor(): Visitor<Memory> {
    Visitor((m: Memory) => m, (m: Memory, n: Ptr) => HashEnter(m, n), None, Some((m: Memory, n: Ptr) => HashExit(m, n)))
  }

  // ---------------------------------------------------------------- the two agree

  /** Every hash already stored in the tree is right. */
  predicate StoredRight(mem: Memory, sh: Shape)
    decreases sh, 0
  {
    && sh.p in mem && (mem[sh.p].hash == 0 || mem[sh.p].hash == StructHash(mem, sh))
    && AllStoredRight(mem, sh.kids)
  }

  predicate AllStoredRight(mem: Memory, shs: seq<Shape>)
    decreases shs
  {
    shs == [] || (StoredRight(mem, shs[0]) && AllStoredRight(mem, shs[1..]))
  }

  /** The same nodes, stored hashes apart. */
  ghost predicate SameNodes(a: Memory, b: Memory) {
    a.Keys == b.Keys && forall p :: p in a ==> a[p].(hash := 0) == b[p].(hash := 0)
  }

  /** Only hashes of nodes in `ps` differ. */
  ghost predicate OnlyIn(a: Memory, b: Memory, ps: set<Ptr>) {
    SameNodes(a, b) && forall p :: p in a && p !in ps ==> b[p] == a[p]
  }

  lemma {:induction false} SameChain(a: Memory, b: Memory, head: Ptr, fuel: nat)
    requires SameNodes(a, b)
    ensures Chain(a, head, fuel) == Chain(b, head, fuel)
    decreases fuel
  {
    if head != NULL && fuel > 0 && head in a {
      assert a[head].(hash := 0).next == b[head].(hash := 0).next;
      SameChain(a, b, a[head].next, fuel - 1);
    }
  }

  lemma {:induction false} SameFieldItems(a: Memory, b: Memory, n: Ptr, fs: seq<Field>)
    requires SameNodes(a, b)
    ensures AllItems(a, n, fs) == AllItems(b, n, fs)
  {
    if fs != [] {
      SameFieldItems(a, b, n, fs[1..]);
      if fs[0].Listed? {
        SameSize(a, b);
        SameChain(a, b, fs[0].head, |a|);
      }
    }
  }

  lemma {:induction false} SameSize(a: Memory, b: Memory)
    requires SameNodes(a, b)
    ensures |a| == |b|
  {
    assert |a| == |a.Keys| && |b| == |b.Keys|;
  }

  lemma {:induction false} SameKidParts(a: Memory, b: Memory, c: Cell, hs: seq<Hashed>)
    requires SameNodes(a, b)
    ensures KidParts(a, c, hs) == KidParts(b, c, hs)
  {
    if hs != [] {
      SameKidParts(a, b, c, hs[1..]);
      if hs[0].List? {
        SameSize(a, b);
        SameChain(a, b, Kid(c, hs[0].i), |a|);
      }
    }
  }

  /** Stored hashes change neither what is visited nor what is hashed. */
  lemma {:induction false} SameNode(a: Memory, b: Memory, n: Ptr)
    requires SameNodes(a, b) && n in a
    ensures Items(a, n) == Items(b, n)
    ensures a[n].kind == b[n].kind && Recipe(a, a[n]) == Recipe(b, b[n])
  {
    assert a[n] == b[n].(hash := a[n].hash) by { assert a[n].(hash := 0) == b[n].(hash := 0); }
    var c := a[n];
    assert Fields(b[n]) == Fields(c) && OwnWords(b[n]) == OwnWords(c) && HashedKids(b[n]) == HashedKids(c) by {
      SameHashApart(c, b[n]);
    }
    SameFieldItems(a, b, n, Fields(c));
    SameKidParts(a, b, c, HashedKids(c));
    KidsOnly(b, c, b[n], HashedKids(c));
  }

  lemma {:induction false} SameHashApart(c: Cell, d: Cell)
    requires c == d.(hash := c.hash)
    ensures Fields(d) == Fields(c) && OwnWords(d) == OwnWords(c) && HashedKids(d) == HashedKids(c)
  {
    assert Kid(d, 0) == Kid(c, 0) && Kid(d, 1) == Kid(c, 1) && Kid(d, 2) == Kid(c, 2) && Kid(d, 3) == Kid(c, 3);
  }

  lemma {:induction false} KidsOnly(mem: Memory, c: Cell, d: Cell, hs: seq<Hashed>)
    requires c.kids == d.kids
    ensures KidParts(mem, c, hs) == KidParts(mem, d, hs)
  {
    if hs != [] { KidsOnly(mem, c, d, hs[1..]); }
  }

  lemma {:induction false} SameTree(a: Memory, b: Memory, sh: Shape)
    requires SameNodes(a, b)
    ensures StructHash(a, sh) == StructHash(b, sh)
    ensures Shows(a, sh) ==> Shows(b, sh)
    decreases sh, 1
  {
    SameTrees(a, b, sh.kids);
    if sh.p in a { SameNode(a, b, sh.p); }
    if Shows(a, sh) {
      forall i | 0 <= i < |sh.kids| ensures Shows(b, sh.kids[i]) { SameTree(a, b, sh.kids[i]); }
    }
  }

  lemma {:induction false} SameTrees(a: Memory, b: Memory, shs: seq<Shape>)
    requires SameNodes(a, b)
    ensures KidHashes(a, shs) == KidHashes(b, shs)
    decreases shs, 0
  {
    if shs != [] {
      SameTree(a, b, shs[0]);
      SameTrees(a, b, shs[1..]);
    }
  }

  lemma {:induction false} KidPartsAre(mem: Memory, c: Cell, hs: seq<Hashed>, p: Ptr)
    requires HashOf(p) in KidParts(mem, c, hs)
    ensures exists h :: h in hs && p in HashedList(mem, c, h)
  {
    if p in HashedList(mem, c, hs[0]) {
      assert hs[0] in hs;
    } else {
      KidPartsAre(mem, c, hs[1..], p);
      var h :| h in hs[1..] && p in HashedList(mem, c, h);
      assert h in hs;
    }
  }

  /** Each hashed child lies in a field that is visited. */
  lemma {:induction false} HashedIsField(c: Cell, h: Hashed)
    requires h in HashedKids(c)
    ensures h.List? ==> Listed(Kid(c, h.i)) in Fields(c)
    ensures h.Node? && Kid(c, h.i) != NULL ==> Single(Kid(c, h.i)) in Fields(c) || Listed(Kid(c, h.i)) in Fields(c)
  {
  }

  /** Every child a recipe mixes in has been visited, unless it is the node itself. */
  lemma {:induction false} RecipeIsVisited(mem: Memory, n: Ptr, p: Ptr)
    requires Items(mem, n).Some? && HashOf(p) in Recipe(mem, mem[n]) && p != n
    ensures p in Children(Items(mem, n).value)
  {
    var c := mem[n];
    assert HashOf(p) !in OwnParts(c);
    KidPartsAre(mem, c, HashedKids(c), p);
    var h :| h in HashedKids(c) && p in HashedList(mem, c, h);
    HashedIsField(c, h);
    var f := if h.Node? && Single(Kid(c, h.i)) in Fields(c) then Single(Kid(c, h.i)) else Listed(Kid(c, h.i));
    FieldLists(mem, n, Fields(c), f);
    FieldCovers(mem, n, Fields(c), f, p);
  }

  // ---------------------------------------------------------------- children in visiting order

  /** The children that are mixed in, one after the other. */
  function HashedAll(mem: Memory, c: Cell, hs: seq<Hashed>): seq<Ptr> {
    if hs == [] then [] else HashedList(mem, c, hs[0]) + HashedAll(mem, c, hs[1..])
  }

  lemma {:induction false} PartsOfBoth(ps: seq<Ptr>, qs: seq<Ptr>)
    ensures HashParts(ps + qs) == HashParts(ps) + HashParts(qs)
  {
  }

  lemma {:induction false} PartsOfAll(mem: Memory, c: Cell, hs: seq<Hashed>)
    ensures KidParts(mem, c, hs) == HashParts(HashedAll(mem, c, hs))
  {
    if hs != [] {
      PartsOfAll(mem, c, hs[1..]);
      PartsOfBoth(HashedList(mem, c, hs[0]), HashedAll(mem, c, hs[1..]));
    }
  }

  lemma {:induction false} AllOfFirst(mem: Memory, c: Cell, h: Hashed, hs: seq<Hashed>)
    ensures HashedAll(mem, c, [h] + hs) == HashedList(mem, c, h) + HashedAll(mem, c, hs)
  {
    assert ([h] + hs)[1..] == hs;
  }

  lemma {:induction false} AllOfOne(mem: Memory, c: Cell, h: Hashed)
    ensures HashedAll(mem, c, [h]) == HashedList(mem, c, h)
  {
    assert [h] + [] == [h];
    AllOfFirst(mem, c, h, []);
  }

  lemma {:induction false} AllOfTwo(mem: Memory, c: Cell, h: Hashed, i: Hashed)
    ensures HashedAll(mem, c, [h, i]) == HashedList(mem, c, h) + HashedList(mem, c, i)
  {
    assert [h] + [i] == [h, i];
    AllOfFirst(mem, c, h, [i]);
    AllOfOne(mem, c, i);
  }

  lemma {:induction false} AllOfThree(mem: Memory, c: Cell, h: Hashed, i: Hashed, j: Hashed)
    ensures HashedAll(mem, c, [h, i, j]) == HashedList(mem, c, h) + (HashedList(mem, c, i) + HashedList(mem, c, j))
  {
    assert [h] + [i, j] == [h, i, j];
    AllOfFirst(mem, c, h, [i, j]);
    AllOfTwo(mem, c, i, j);
  }

  lemma {:induction false} AllOfFour(mem: Memory, c: Cell, h: Hashed, i: Hashed, j: Hashed, k: Hashed)
    ensures HashedAll(mem, c, [h, i, j, k]) ==
              HashedList(mem, c, h) + (HashedList(mem, c, i) + (HashedList(mem, c, j) + HashedList(mem, c, k)))
  {
    assert [h] + [i, j, k] == [h, i, j, k];
    AllOfFirst(mem, c, h, [i, j, k]);
    AllOfThree(mem, c, i, j, k);
  }

  lemma {:induction false} NodeIsVisited(mem: Memory, n: Ptr, c: Cell, i: nat)
    requires n !in HashedList(mem, c, Node(i))
    ensures Children(One(n, Kid(c, i))) == HashedList(mem, c, Node(i))
  {
    if Kid(c, i) != NULL {
      assert One(n, Kid(c, i))[1..] == [];
      assert Children(One(n, Kid(c, i))) == [Kid(c, i)] + Children([]);
    }
  }

  lemma {:induction false} ListIsVisited(mem: Memory, n: Ptr, c: Cell, i: nat)
    requires ListAt(mem, Kid(c, i)).Some? && n !in HashedList(mem, c, List(i))
    ensures Children(ListItems(mem, n, Kid(c, i))) == HashedList(mem, c, List(i))
  {
    ManyChildren(n, ListAt(mem, Kid(c, i)).value, 0);
  }

  lemma {:induction false} ChildrenOfTwo(a: seq<Item>, b: seq<Item>)
    ensures Children(a + b) == Children(a) + Children(b) && Children(a + ([Gap(0)] + b)) == Children(a) + Children(b)
    ensures Children([Gap(0)] + b) == Children(b) && Children([Gap(1)] + b) == Children(b)
  {
    ChildrenConcat(a, b);
    ChildrenConcat(a, [Gap(0)] + b);
    assert ([Gap(0)] + b)[1..] == b && ([Gap(1)] + b)[1..] == b;
  }

  /** Every kind but the for loop mixes in all children that are visited, in visiting order. */
  lemma {:induction false} MixedAsVisited(mem: Memory, n: Ptr, items: seq<Item>)
    requires n in mem && InOrder(mem, n, items) && n !in HashedAll(mem, mem[n], HashedKids(mem[n]))
    requires !mem[n].kind.FOR?
    ensures HashedAll(mem, mem[n], HashedKids(mem[n])) == Children(items)
  {
    var c := mem[n];
    match c.kind
    case PROGRAM | BLOCK | ARRAY_LIT | STRUCT | UNION | ENUM | EXTERN =>
      AllOfOne(mem, c, List(0));
      ListIsVisited(mem, n, c, 0);
    case VAR_DECL | UOP | ADDR_OF | DEREF | MEMBER | ENUM_MEMBER | DEFER | CAST | RET =>
      AllOfOne(mem, c, Node(0));
      NodeIsVisited(mem, n, c, 0);
    case SIZEOF =>
      if !Flag(c, 0) {
        AllOfOne(mem, c, Node(0));
        NodeIsVisited(mem, n, c, 0);
      }
    case FUNC =>
      AllOfTwo(mem, c, List(0), Node(1));
      ListIsVisited(mem, n, c, 0);
      NodeIsVisited(mem, n, c, 1);
      ChildrenOfTwo(ListItems(mem, n, Kid(c, 0)), One(n, Kid(c, 1)));
    case BINOP | INDEX | WHILE | CASE =>
      AllOfTwo(mem, c, Node(0), Node(1));
      NodeIsVisited(mem, n, c, 0);
      NodeIsVisited(mem, n, c, 1);
      ChildrenOfTwo(One(n, Kid(c, 0)), One(n, Kid(c, 1)));
    case FUNC_CALL =>
      AllOfTwo(mem, c, Node(0), List(1));
      NodeIsVisited(mem, n, c, 0);
      ListIsVisited(mem, n, c, 1);
      ChildrenOfTwo(One(n, Kid(c, 0)), ListItems(mem, n, Kid(c, 1)));
    case IF => IfAsVisited(mem, n, items);
    case SWITCH =>
      AllOfThree(mem, c, Node(0), List(1), Node(2));
      NodeIsVisited(mem, n, c, 0);
      ListIsVisited(mem, n, c, 1);
      NodeIsVisited(mem, n, c, 2);
      ChildrenOfTwo(ListItems(mem, n, Kid(c, 1)), One(n, Kid(c, 2)));
      ChildrenOfTwo(One(n, Kid(c, 0)), ListItems(mem, n, Kid(c, 1)) + One(n, Kid(c, 2)));
    case _ =>
  }

  lemma {:induction false} IfAsVisited(mem: Memory, n: Ptr, items: seq<Item>)
    requires n in mem && InOrder(mem, n, items) && n !in HashedAll(mem, mem[n], HashedKids(mem[n]))
    requires mem[n].kind.IF?
    ensures HashedAll(mem, mem[n], HashedKids(mem[n])) == Children(items)
  {
    var c := mem[n];
    var a, b, d := One(n, Kid(c, 0)), One(n, Kid(c, 1)), One(n, Kid(c, 2));
    AllOfThree(mem, c, Node(0), Node(1), Node(2));
    NodeIsVisited(mem, n, c, 0);
    NodeIsVisited(mem, n, c, 1);
    NodeIsVisited(mem, n, c, 2);
    if Kid(c, 2) == NULL {
      ChildrenOfTwo(a, b);
    } else {
      ChildrenOfTwo(b, [Gap(1)] + d);
      ChildrenOfTwo([], d);
      ChildrenOfTwo(a, b + ([Gap(1)] + d));
    }
  }

  /** The children of a node that are mixed in: all of its children, in visiting order; of a for loop
      the first nodes of its two lists, its check and its action, as far as they are there. */
  lemma {:induction false} MixedChildren(mem: Memory, sh: Shape)
    requires Shows(mem, sh) && sh.p !in HashedAll(mem, mem[sh.p], HashedKids(mem[sh.p]))
    ensures var c := mem[sh.p];
            Recipe(mem, c) ==
              OwnParts(c)
              + HashParts(if !c.kind.FOR? then Roots(sh.kids)
                          else FirstOf(Kid(c, 0)) + (FirstOf(Kid(c, 1)) + (FirstOf(Kid(c, 2)) + FirstOf(Kid(c, 3)))))
  {
    var c := mem[sh.p];
    PartsOfAll(mem, c, HashedKids(c));
    if c.kind.FOR? {
      AllOfFour(mem, c, Node(0), Node(1), Node(2), Node(3));
    } else {
      ItemsInOrder(mem, sh.p);
      MixedAsVisited(mem, sh.p, Items(mem, sh.p).value);
    }
  }

  function FirstOf(p: Ptr): seq<Ptr> {
    if p == NULL then [] else [p]
  }

  lemma {:induction false} MixSame(hash: u32, parts: seq<Part>, hs: map<Ptr, u32>, ks: map<Ptr, u32>)
    requires forall p :: HashOf(p) in parts ==>
               (if p in hs then hs[p] else 0) == (if p in ks then ks[p] else 0)
    ensures Mix(hash, parts, hs) == Mix(hash, parts, ks)
    decreases |parts|
  {
    if parts != [] {
      assert parts[0] in parts;
      MixSame(CombineHash(hash, PartWord(parts[0], hs)), parts[1..], hs, ks);
    }
  }

  lemma {:induction false} KidHashesAt(mem: Memory, shs: seq<Shape>, i: nat)
    requires i < |shs| && AreTrees(shs)
    ensures shs[i].p in KidHashes(mem, shs) && KidHashes(mem, shs)[shs[i].p] == StructHash(mem, shs[i])
  {
    assert Roots(shs)[i] == shs[i].p;
    if i > 0 {
      KidHashesAt(mem, shs[1..], i - 1);
      RootsInside(shs[1..], i - 1);
      assert shs[1..][i - 1] == shs[i];
      assert shs[0].p in Addresses(shs[0]);
    }
  }

  ghost predicate Carry(mem: Memory, kids: seq<Shape>) {
    forall i :: 0 <= i < |kids| ==> kids[i].p in mem && mem[kids[i].p].hash == StructHash(mem, kids[i])
  }

  /** Mixing a node once its children carry their structural hashes gives its own. */
  lemma {:induction false} MixIsStruct(mem: Memory, sh: Shape)
    requires sh.p in mem && mem[sh.p].hash == 0 && IsTree(sh)
    requires Items(mem, sh.p).Some? && Children(Items(mem, sh.p).value) == Roots(sh.kids) && Carry(mem, sh.kids)
    ensures Mix(Seed(mem[sh.p].kind), Recipe(mem, mem[sh.p]), StoredHashes(mem)) == StructHash(mem, sh)
  {
    var hs, ks, parts := StoredHashes(mem), KidHashes(mem, sh.kids), Recipe(mem, mem[sh.p]);
    forall p | HashOf(p) in parts ensures (if p in hs then hs[p] else 0) == (if p in ks then ks[p] else 0) {
      StoredIsStruct(mem, sh, p);
    }
    MixSame(Seed(mem[sh.p].kind), parts, hs, ks);
  }

  lemma {:induction false} StoredIsStruct(mem: Memory, sh: Shape, p: Ptr)
    requires sh.p in mem && mem[sh.p].hash == 0 && IsTree(sh)
    requires Items(mem, sh.p).Some? && Children(Items(mem, sh.p).value) == Roots(sh.kids) && Carry(mem, sh.kids)
    requires HashOf(p) in Recipe(mem, mem[sh.p])
    ensures var hs, ks := StoredHashes(mem), KidHashes(mem, sh.kids);
            (if p in hs then hs[p] else 0) == (if p in ks then ks[p] else 0)
  {
    if p in Roots(sh.kids) {
      var i :| 0 <= i < |sh.kids| && Roots(sh.kids)[i] == p;
      KidHashesAt(mem, sh.kids, i);
    } else if p != sh.p {
      RecipeIsVisited(mem, sh.p, p);
    }
  }

  lemma {:induction false} Frame(a: Memory, b: Memory, sh: Shape, ps: set<Ptr>)
    requires OnlyIn(a, b, ps) && StoredRight(a, sh) && Addresses(sh) !! ps
    ensures StoredRight(b, sh)
    decreases sh, 1
  {
    SameTree(a, b, sh);
    FrameAll(a, b, sh.kids, ps);
  }

  lemma {:induction false} FrameAll(a: Memory, b: Memory, shs: seq<Shape>, ps: set<Ptr>)
    requires OnlyIn(a, b, ps) && AllStoredRight(a, shs) && AllAddresses(shs) !! ps
    ensures AllStoredRight(b, shs)
    decreases shs, 0
  {
    if shs != [] {
      Frame(a, b, shs[0], ps);
      FrameAll(a, b, shs[1..], ps);
    }
  }

  /** In `out` the node of `sh` carries the structural hash of the tree. */
  ghost predicate HashedAt(mem: Memory, out: Memory, sh: Shape) {
    sh.p in out && out[sh.p].hash == StructHash(mem, sh)
  }

  ghost predicate AllHashed(mem: Memory, out: Memory, shs: seq<Shape>) {
    forall i :: 0 <= i < |shs| ==> HashedAt(mem, out, shs[i])
  }

  /** Leaving a node whose children are hashed. */
  lemma {:induction false} Finish(mem: Memory, done: Memory, sh: Shape)
    requires Shows(mem, sh) && IsTree(sh) && mem[sh.p].hash == 0
    requires OnlyIn(mem, done, AllAddresses(sh.kids)) && AllHashed(mem, done, sh.kids)
    ensures OnlyIn(mem, HashExit(done, sh.p), Addresses(sh)) && HashedAt(mem, HashExit(done, sh.p), sh)
  {
    SameNode(mem, done, sh.p);
    SameTree(mem, done, sh);
    KidsAreHashed(mem, done, sh.kids);
    MixIsStruct(done, sh);
    StoreHash(mem, done, sh, StructHash(mem, sh));
  }

  lemma {:induction false} StoreHash(mem: Memory, done: Memory, sh: Shape, h: u32)
    requires sh.p in mem && IsTree(sh) && mem[sh.p].hash == 0 && OnlyIn(mem, done, AllAddresses(sh.kids))
    requires Mix(Seed(done[sh.p].kind), Recipe(done, done[sh.p]), StoredHashes(done)) == h
    ensures HashExit(done, sh.p) == done[sh.p := done[sh.p].(hash := h)]
    ensures OnlyIn(mem, HashExit(done, sh.p), Addresses(sh))
  {
  }

  lemma {:induction false} KidsAreHashed(mem: Memory, done: Memory, kids: seq<Shape>)
    requires SameNodes(mem, done) && AllHashed(mem, done, kids)
    ensures Carry(done, kids)
  {
    forall i | 0 <= i < |kids| ensures kids[i].p in done && done[kids[i].p].hash == StructHash(done, kids[i]) {
      assert HashedAt(mem, done, kids[i]);
      SameTree(mem, done, kids[i]);
    }
  }

  /** The memoised pass leaves on every tree whose stored hashes are right its structural
      hash, and touches nothing but hashes of the tree. */
  lemma {:induction false} VisitHashes(mem: Memory, sh: Shape) returns (out: Memory)
    requires Shows(mem, sh) && IsTree(sh) && StoredRight(mem, sh)
    ensures Visit(HashVisitor(), sh, mem) == Some((true, out))
    ensures OnlyIn(mem, out, Addresses(sh)) && HashedAt(mem, out, sh) && (mem[sh.p].hash != 0 ==> out == mem)
    decreases sh, 1
  {
    if mem[sh.p].hash != 0 {
      out := mem;
    } else {
      var done := ItemsHash(mem, sh.p, Items(mem, sh.p).value, sh.kids);
      Finish(mem, done, sh);
      out := HashExit(done, sh.p);
    }
  }

  lemma {:induction false} ItemsHash(mem: Memory, n: Ptr, items: seq<Item>, kids: seq<Shape>) returns (out: Memory)
    requires Children(items) == Roots(kids)
    requires AllShow(mem, kids) && AreTrees(kids) && AllStoredRight(mem, kids)
    ensures VisitItems(HashVisitor(), n, items, kids, mem) == Some((true, out))
    ensures OnlyIn(mem, out, AllAddresses(kids)) && AllHashed(mem, out, kids)
    decreases kids, |items|
  {
    if items == [] {
      assert |Roots(kids)| == |kids|;
      out := mem;
    } else if items[0].Gap? {
      out := ItemsHash(mem, n, items[1..], kids);
    } else {
      FirstChild(items, kids);
      assert Shows(mem, kids[0]);
      var next := VisitHashes(mem, kids[0]);
      NextKids(mem, next, kids);
      out := ItemsHash(next, n, items[1..], kids[1..]);
      Join(mem, next, out, kids);
    }
  }

  /** After one child, the others are as they were. */
  lemma {:induction false} NextKids(mem: Memory, next: Memory, kids: seq<Shape>)
    requires kids != [] && AllShow(mem, kids) && AreTrees(kids) && AllStoredRight(mem, kids)
    requires OnlyIn(mem, next, Addresses(kids[0]))
    ensures AllShow(next, kids[1..]) && AllStoredRight(next, kids[1..])
  {
    FrameAll(mem, next, kids[1..], Addresses(kids[0]));
    forall i | 0 <= i < |kids[1..]| ensures Shows(next, kids[1..][i]) {
      assert Shows(mem, kids[i + 1]);
      SameTree(mem, next, kids[1..][i]);
    }
  }

  /** A hashed child and its hashed later siblings. */
  lemma {:induction false} Join(mem: Memory, next: Memory, out: Memory, kids: seq<Shape>)
    requires kids != [] && AreTrees(kids)
    requires OnlyIn(mem, next, Addresses(kids[0])) && HashedAt(mem, next, kids[0])
    requires OnlyIn(next, out, AllAddresses(kids[1..])) && AllHashed(next, out, kids[1..])
    ensures OnlyIn(mem, out, AllAddresses(kids)) && AllHashed(mem, out, kids)
  {
    assert kids[0].p in Addresses(kids[0]);
    forall i | 0 <= i < |kids| ensures HashedAt(mem, out, kids[i]) {
      if i > 0 {
        assert kids[i] == kids[1..][i - 1] && HashedAt(next, out, kids[1..][i - 1]);
        SameTree(mem, next, kids[i]);
      }
    }
  }

  /** compute_node_hash. */
  method ComputeNodeHash(mem: Memory, root: Ptr, ghost sh: Shape) returns (hash: u32, out: Memory)
    requires root != NULL ==> sh.p == root && Shows(mem, sh) && IsTree(sh) && StoredRight(mem, sh)
    ensures root == NULL ==> hash == 0 && out == mem
    ensures root != NULL ==> hash == StructHash(mem, sh) && OnlyIn(mem, out, Addresses(sh))
    ensures root != NULL && mem[root].hash != 0 ==> hash == mem[root].hash && out == mem
  {
    if root == NULL { return 0, mem; }
    ghost var expected := VisitHashes(mem, sh);
    var ok, m := Traverse(HashVisitor(), root, mem, sh);
    return m[root].hash, m;
  }

  // ---------------------------------------------------------------- the hash as that of one text

  /** The four bytes spell the word, low byte first. */
  ghost predicate Spell(bs: seq<byte>, v: nat) {
    |bs| == 4
    && var b0: nat, b1: nat, b2: nat, b3: nat := bs[0], bs[1], bs[2], bs[3];
       v == b0 + 0x100 * b1 + 0x1_0000 * b2 + 0x100_0000 * b3
  }

  lemma {:induction false} HashLast(key: seq<byte>, b: byte)
    ensures HashBytes(key + [b]) == MixByte(HashBytes(key), b)
  {
    assert (key + [b])[..|key|] == key;
  }

  lemma {:induction false} Digits(b0: nat, b1: nat, b2: nat, b3: nat, v: nat)
    requires b0 < 0x100 && b1 < 0x100 && b2 < 0x100 && b3 < 0x100
    requires v == b0 + 0x100 * b1 + 0x1_0000 * b2 + 0x100_0000 * b3
    ensures v % 0x100 == b0 && v / 0x100 % 0x100 == b1 && v / 0x1_0000 % 0x100 == b2 && v / 0x100_0000 % 0x100 == b3
  {
    assert v / 0x100 == b1 + 0x100 * b2 + 0x1_0000 * b3;
    assert v / 0x1_0000 == b2 + 0x100 * b3;
    assert v / 0x100_0000 == b3;
  }

  /** Combining a word with the hash of a text gives the hash of the text with the word behind it. */
  lemma {:induction false} CombineIsHash(key: seq<byte>, bs: seq<byte>, v: u32)
    requires Spell(bs, v)
    ensures CombineHash(HashBytes(key), v) == HashBytes(key + bs)
  {
    Digits(bs[0], bs[1], bs[2], bs[3], v);
    var k1, k2, k3 := key + [bs[0]], key + [bs[0]] + [bs[1]], key + [bs[0]] + [bs[1]] + [bs[2]];
    HashLast(key, bs[0]);
    HashLast(k1, bs[1]);
    HashLast(k2, bs[2]);
    HashLast(k3, bs[3]);
    assert key + bs == k3 + [bs[3]];
  }

  ghost predicate IsHashOf(hash: u32, key: seq<byte>) {
    hash == HashBytes(key)
  }

  /** The text spells the words of the parts, one after the other. */
  ghost predicate SpellAll(text: seq<byte>, parts: seq<Part>, hs: map<Ptr, u32>) {
    |text| == 4 * |parts| && forall i :: 0 <= i < |parts| ==> Spell(text[4 * i..4 * i + 4], PartWord(parts[i], hs))
  }

  lemma {:induction false} SpellRest(text: seq<byte>, parts: seq<Part>, hs: map<Ptr, u32>)
    requires SpellAll(text, parts, hs) && parts != []
    ensures Spell(text[..4], PartWord(parts[0], hs)) && SpellAll(text[4..], parts[1..], hs)
  {
    assert text[4 * 0..4 * 0 + 4] == text[..4];
    forall i | 0 <= i < |parts[1..]| ensures Spell(text[4..][4 * i..4 * i + 4], PartWord(parts[1..][i], hs)) {
      assert text[4..][4 * i..4 * i + 4] == text[4 * (i + 1)..4 * (i + 1) + 4];
    }
  }

  lemma {:induction false} MixIsHash(key: seq<byte>, text: seq<byte>, whole: seq<byte>, hash: u32, parts: seq<Part>,
                                     hs: map<Ptr, u32>)
    requires SpellAll(text, parts, hs) && IsHashOf(hash, key) && whole == key + text
    ensures IsHashOf(Mix(hash, parts, hs), whole)
    decreases |parts|
  {
    if parts == [] {
      assert whole == key;
    } else {
      var first, rest, next := text[..4], text[4..], CombineHash(hash, PartWord(parts[0], hs));
      SpellRest(text, parts, hs);
      CombineStep(key, first, key + first, PartWord(parts[0], hs), hash);
      assert text == first + rest;
      Assoc(key, first, rest);
      MixIsHash(key + first, rest, whole, next, parts[1..], hs);
    }
  }

  lemma {:induction false} CombineStep(key: seq<byte>, bs: seq<byte>, longer: seq<byte>, v: u32, hash: u32)
    requires Spell(bs, v) && IsHashOf(hash, key) && longer == key + bs
    ensures IsHashOf(CombineHash(hash, v), longer)
  {
    CombineIsHash(key, bs, v);
  }

  /** The kind of a node is mixed in first. */
  lemma {:induction false} KindFirst(k: Kind, parts: seq<Part>, hs: map<Ptr, u32>, start: u32)
    requires start == FNV_OFFSET
    ensures Mix(start, [Value(Word(KindCode(k)))] + parts, hs) == Mix(Seed(k), parts, hs)
  {
    var all := [Value(Word(KindCode(k)))] + parts;
    assert all[0] == Value(Word(KindCode(k))) && all[1..] == parts;
  }

  /** The structural hash of a tree is FNV-1a of one text: the code of its kind, its own words, and
      the structural hashes of the children mixed in, each low byte first. */
  lemma {:induction false} HashIsOfText(mem: Memory, sh: Shape, text: seq<byte>)
    requires sh.p in mem
    requires var c := mem[sh.p];
             SpellAll(text, [Value(Word(KindCode(c.kind)))] + Recipe(mem, c), KidHashes(mem, sh.kids))
    ensures StructHash(mem, sh) == HashBytes(text)
  {
    var c, hs := mem[sh.p], KidHashes(mem, sh.kids);
    KindFirst(c.kind, Recipe(mem, c), hs, FNV_OFFSET);
    MixIsHash([], text, text, FNV_OFFSET, [Value(Word(KindCode(c.kind)))] + Recipe(mem, c), hs);
  }

  // ---------------------------------------------------------------- what the words tell

  /** Two numbers agree in their low 32 bits. */
  ghost predicate SameWord(a: nat, b: nat) {
    a % 0x1_0000_0000 == b % 0x1_0000_0000
  }

  ghost predicate TokensAlike(t: Token, u: Token) {
    SameWord(t.ty, u.ty) && (t.text == [] <==> u.text == []) && HashBytes(t.text) == HashBytes(u.text)
  }

  ghost predicate TypesAlike(t: DataType, u: DataType) {
    && TokensAlike(t.name, u.name) && SameWord(t.ptrDepth, u.ptrDepth) && SameWord(t.arrayDimens, u.arrayDimens)
    && t.isStatic == u.isStatic && t.isMut == u.isMut && t.isThreadlocal == u.isThreadlocal && t.isExtern == u.isExtern
  }

  /** What two nodes of a kind agree in when they mix in the same words. */
  ghost predicate LabelsAlike(c: Cell, d: Cell) {
    match c.kind
    case BINOP | ENUM | ENUM_MEMBER | MEMBER | IDENTIF | NUM_LIT | STR_LIT | CHAR_LIT | BOOL_LIT | NULL_LIT
       | BREAK | CONTINUE => TokensAlike(c.tok, d.tok)
    case UOP | ADDR_OF | DEREF | STRUCT | UNION => TokensAlike(c.tok, d.tok) && Flag(c, 0) == Flag(d, 0)
    case VAR_DECL | PARAM => TokensAlike(c.tok, d.tok) && TypesAlike(c.dtype, d.dtype)
    case FUNC =>
      && TokensAlike(c.tok, d.tok) && TypesAlike(c.dtype, d.dtype)
      && Flag(c, 0) == Flag(d, 0) && Flag(c, 1) == Flag(d, 1) && Flag(c, 2) == Flag(d, 2)
    case USE => TokensAlike(c.tok, d.tok) && (c.alias.text != [] ==> TokensAlike(c.alias, d.alias))
    case CAST => TypesAlike(c.dtype, d.dtype)
    case SIZEOF => Flag(c, 0) == Flag(d, 0) && (Flag(c, 0) ==> TypesAlike(c.dtype, d.dtype))
    case _ => true
  }

  lemma {:induction false} FrontsEqual(a: seq<u32>, b: seq<u32>, xs: seq<u32>, ys: seq<u32>)
    requires |a| == |b| && a + xs == b + ys
    ensures a == b && xs == ys
  {
    assert a == (a + xs)[..|a|] == (b + ys)[..|b|] == b;
    assert xs == (a + xs)[|a|..] == (b + ys)[|b|..] == ys;
  }

  lemma {:induction false} TokenTells(t: Token, u: Token, xs: seq<u32>, ys: seq<u32>)
    requires |TokenWords(t)| == |TokenWords(u)| && TokenWords(t) + xs == TokenWords(u) + ys
    ensures TokensAlike(t, u) && xs == ys
  {
    FrontsEqual(TokenWords(t), TokenWords(u), xs, ys);
    SameTokenWords(t, u);
  }

  lemma {:induction false} SameTokenWords(t: Token, u: Token)
    requires TokenWords(t) == TokenWords(u)
    ensures TokensAlike(t, u)
  {
    assert TokenWords(t)[0] == TokenWords(u)[0];
    if t.text != [] { assert TokenWords(t)[1] == TokenWords(u)[1]; }
  }

  lemma {:induction false} TypeTells(t: DataType, u: DataType, xs: seq<u32>, ys: seq<u32>)
    requires |TypeWords(t)| == |TypeWords(u)| && TypeWords(t) + xs == TypeWords(u) + ys
    ensures TypesAlike(t, u) && xs == ys
  {
    var a := [Word(t.ptrDepth), Word(t.arrayDimens), BoolWord(t.isStatic), BoolWord(t.isMut), BoolWord(t.isThreadlocal),
              BoolWord(t.isExtern)];
    var b := [Word(u.ptrDepth), Word(u.arrayDimens), BoolWord(u.isStatic), BoolWord(u.isMut), BoolWord(u.isThreadlocal),
              BoolWord(u.isExtern)];
    Assoc(TokenWords(t.name), a, xs);
    Assoc(TokenWords(u.name), b, ys);
    TokenTells(t.name, u.name, a + xs, b + ys);
    forall i | 0 <= i < 6 ensures a[i] == b[i] { assert (a + xs)[i] == (b + ys)[i]; }
    assert a[0] == b[0] && a[1] == b[1] && a[2] == b[2] && a[3] == b[3] && a[4] == b[4] && a[5] == b[5];
    assert (a + xs)[6..] == xs && (b + ys)[6..] == ys;
  }

  /** Two nodes of a kind that mix in the same words agree in all tokens, types and flags that belong
      to the kind, up to the hashes of texts and 32 bits. Of two declarations both must be named, or
      neither: the name of one might pass for the name of the other's type. */
  lemma {:induction false} WordsTell(c: Cell, d: Cell)
    requires c.kind == d.kind && OwnWords(c) == OwnWords(d)
    requires c.kind.VAR_DECL? || c.kind.PARAM? || c.kind.FUNC? ==> (c.tok.text == [] <==> d.tok.text == [])
    ensures LabelsAlike(c, d)
  {
    var none: seq<u32> := [];
    match c.kind
    case BINOP | ENUM | ENUM_MEMBER | MEMBER | IDENTIF | NUM_LIT | STR_LIT | CHAR_LIT | BOOL_LIT | NULL_LIT
       | BREAK | CONTINUE =>
      assert TokenWords(c.tok) + none == TokenWords(d.tok) + none;
      TokenTells(c.tok, d.tok, none, none);
    case UOP | ADDR_OF | DEREF | STRUCT | UNION =>
      TokenTells(c.tok, d.tok, [BoolWord(Flag(c, 0))], [BoolWord(Flag(d, 0))]);
      assert [BoolWord(Flag(c, 0))][0] == [BoolWord(Flag(d, 0))][0];
    case VAR_DECL | PARAM =>
      TokenTells(c.tok, d.tok, TypeWords(c.dtype), TypeWords(d.dtype));
      assert TypeWords(c.dtype) + none == TypeWords(d.dtype) + none;
      TypeTells(c.dtype, d.dtype, none, none);
    case FUNC => FunctionTells(c, d);
    case USE =>
      TokenTells(c.tok, d.tok, if c.alias.text == [] then [] else TokenWords(c.alias),
                 if d.alias.text == [] then [] else TokenWords(d.alias));
      if c.alias.text != [] {
        assert TokenWords(c.alias) + none == TokenWords(d.alias) + none;
        TokenTells(c.alias, d.alias, none, none);
      }
    case CAST =>
      assert TypeWords(c.dtype) + none == TypeWords(d.dtype) + none;
      TypeTells(c.dtype, d.dtype, none, none);
    case SIZEOF =>
      if Flag(c, 0) && Flag(d, 0) {
        assert TypeWords(c.dtype) + none == TypeWords(d.dtype) + none;
        TypeTells(c.dtype, d.dtype, none, none);
      }
    case _ =>
  }

  lemma {:induction false} FunctionTells(c: Cell, d: Cell)
    requires c.kind.FUNC? && d.kind.FUNC? && OwnWords(c) == OwnWords(d)
    requires c.tok.text == [] <==> d.tok.text == []
    ensures LabelsAlike(c, d)
  {
    var xs, ys := [BoolWord(Flag(c, 2)), BoolWord(Flag(c, 0)), BoolWord(Flag(c, 1))],
                  [BoolWord(Flag(d, 2)), BoolWord(Flag(d, 0)), BoolWord(Flag(d, 1))];
    Assoc(TokenWords(c.tok), TypeWords(c.dtype), xs);
    Assoc(TokenWords(d.tok), TypeWords(d.dtype), ys);
    TokenTells(c.tok, d.tok, TypeWords(c.dtype) + xs, TypeWords(d.dtype) + ys);
    TypeTells(c.dtype, d.dtype, xs, ys);
    assert xs[0] == ys[0] && xs[1] == ys[1] && xs[2] == ys[2];
  }

  /** Different kinds begin with different words. */
  lemma {:induction false} KindsDiffer(k: Kind, l: Kind)
    requires KindCode(k) == KindCode(l)
    ensures k == l
  {
  }
}
