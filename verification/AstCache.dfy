/** The AST cache (src/ast_serde.c, cache_write_ast and cache_read_ast): the gathered nodes written
    as machine words in which pointers have become tagged indices, and read back by another process. */
module AstCache {
  import opened Ast
  import opened Stream
  import opened Visitor
  import opened StructEqual
  import opened AstGather

  // ---------------------------------------------------------------- words

  const TAG_UNIT: nat := 0x10_0000_0000_0000 // 2^52: the tag is the twelve bits above
  const AST_TAG: nat := 0xA57
  const TOK_TAG: nat := 0x70B
  const KWD_TAG: nat := 0x5DD
  const NUL_TAG: nat := 0x1D1
  const LIMIT: nat := 0xFF_FFFF_FFFF
  const NO_INDEX: u32 := 0xFFFF_FFFF

  /** Where things lie for the process that writes: gathered nodes with their indices, the
      source text, and the type keywords. */
  datatype Writer = Writer(index: map<Ptr, u32>, base: u64, len: nat, keywords: seq<u64>)

  /** Where they lie for the process that reads: node `i` at `nodes + NODE_SIZE * i`. */
  datatype Reader = Reader(nodes: nat, count: nat, base: nat, keywords: seq<nat>)

  const NODE_SIZE: nat := 208

  function NodeAt(r: Reader, i: nat): nat {
    r.nodes + NODE_SIZE * i
  }

  function Find(keywords: seq<u64>, v: u64): (k: nat)
    requires v in keywords
    ensures k < |keywords| && keywords[k] == v && v !in keywords[..k]
  {
    if keywords[0] == v then 0 else 1 + Find(keywords[1..], v)
  }

  predicate InSource(w: Writer, v: u64) {
    w.base != 0 && w.base <= v <= w.base + w.len
  }

  /** The targeted pointer scan, for one word. */
  function Tagged(w: Writer, v: u64): (r: u64)
    requires |w.keywords| < U32
  {
    if v == 0 then 0
    else if v in w.index && w.index[v] != NO_INDEX then AST_TAG * TAG_UNIT + w.index[v]
    else if InSource(w, v) then TOK_TAG * TAG_UNIT + (v - w.base) % U32
    else if v in w.keywords then KWD_TAG * TAG_UNIT + Find(w.keywords, v)
    else if v > LIMIT then NUL_TAG * TAG_UNIT
    else v
  }

  /** The tagged pointer resolution, for one word. */
  function Resolved(r: Reader, v: u64): nat {
    var tag, payload := v / TAG_UNIT, v % TAG_UNIT % U32;
    if tag == AST_TAG then (if payload < r.count then NodeAt(r, payload) else 0)
    else if tag == TOK_TAG then r.base + payload
    else if tag == KWD_TAG then (if payload < |r.keywords| then r.keywords[payload] else 0)
    else if tag == NUL_TAG then 0
    else v
  }

  /** Everything the writer gives a tag lies above the limit, and indices are below the count;
      both processes have the same keywords. */
  predicate Fits(w: Writer, r: Reader) {
    && (forall v :: v in w.index ==> v > LIMIT && w.index[v] < r.count) && r.count <= NO_INDEX
    && (w.base == 0 || w.base > LIMIT) && w.len < U32
    && (forall k :: 0 <= k < |w.keywords| ==> w.keywords[k] > LIMIT)
    && |w.keywords| == |r.keywords| < U32
  }

  /** What a word means to the reader. */
  function Moved(w: Writer, r: Reader, v: u64): nat
    requires |w.keywords| <= |r.keywords|
  {
    if v in w.index then NodeAt(r, w.index[v])
    else if w.base != 0 && w.base <= v <= w.base + w.len then r.base + (v - w.base)
    else if v in w.keywords then r.keywords[Find(w.keywords, v)]
    else if v > LIMIT then 0
    else v
  }

  lemma {:induction false} TagSplit(tag: nat, payload: nat)
    requires payload < U32
    ensures (tag * TAG_UNIT + payload) / TAG_UNIT == tag
    ensures (tag * TAG_UNIT + payload) % TAG_UNIT == payload && payload % U32 == payload
  {
  }

  /** Nodes, source pointers and keywords come back as themselves, small words unchanged, and
      any other pointer as NULL; no tag is mistaken for another or for a small word. */
  lemma {:induction false} WordReturns(w: Writer, r: Reader, v: u64)
    requires Fits(w, r)
    ensures Resolved(r, Tagged(w, v)) == Moved(w, r, v)
  {
    if v in w.index {
      TagSplit(AST_TAG, w.index[v]);
    } else if InSource(w, v) {
      TagSplit(TOK_TAG, v - w.base);
    } else if v in w.keywords {
      TagSplit(KWD_TAG, Find(w.keywords, v));
    } else if v > LIMIT {
      TagSplit(NUL_TAG, 0);
    } else {
      assert v / TAG_UNIT == 0;
    }
  }

  /** Of two words that are NULL or gathered nodes, the reader's are equal, or NULL, exactly
      when the writer's are. */
  lemma {:induction false} LinksKeepTheirGraph(w: Writer, r: Reader, v: u64, v': u64)
    requires Fits(w, r) && r.nodes > 0 && (v == 0 || v in w.index) && (v' == 0 || v' in w.index)
    requires forall p, q :: p in w.index && q in w.index && w.index[p] == w.index[q] ==> p == q
    ensures Resolved(r, Tagged(w, v)) == Resolved(r, Tagged(w, v')) <==> v == v'
    ensures Resolved(r, Tagged(w, v)) == 0 <==> v == 0
    ensures v in w.index ==> Resolved(r, Tagged(w, v)) == NodeAt(r, w.index[v])
  {
    WordReturns(w, r, v);
    WordReturns(w, r, v');
  }

  // ---------------------------------------------------------------- nodes

  const DIMS1_WORD: nat := 10

  /** The word of a node that counts the dimensions of its declared type, by the kind in word
      0; 0 for a kind that declares no type. */
  function Dims2Word(kind: nat): (i: nat)
    ensures i < NODE_WORDS - 1
  {
    match kind
    case 6 => 21  // AST_VAR_DECL
    case 21 => 21 // AST_FUNC
    case 23 => 18 // AST_PARAM
    case 34 => 18 // AST_CAST
    case 35 => 19 // AST_SIZEOF
    case _ => 0
  }

  function Count1(words: seq<nat>): nat
    requires |words| == NODE_WORDS
  {
    words[DIMS1_WORD] % U32
  }

  function Count2(words: seq<nat>): nat
    requires |words| == NODE_WORDS
  {
    var i := Dims2Word(words[0] % U32);
    if i == 0 then 0 else words[i] % U32
  }

  /** The node is laid out as the compiler does, with padding zero and the counts right. */
  predicate Laid(n: Node) {
    && |n.words| == NODE_WORDS && n.words[0] < U32 && n.words[DIMS1_WORD] == |n.dims1| < U32
    && var i := Dims2Word(n.words[0]); if i == 0 then n.dims2 == [] else n.words[i] == |n.dims2| < U32
  }

  /** The pointers to the size arrays, in the words after their counts, are written as NULL. */
  function Flat(words: seq<u64>): (r: seq<u64>)
    requires |words| == NODE_WORDS
    ensures |r| == NODE_WORDS
  {
    var flat := words[DIMS1_WORD + 1 := 0];
    var i := Dims2Word(words[0] % U32);
    if i == 0 then flat else flat[i + 1 := 0]
  }

  /** A node as it is written: tagged words, and indices of the dimension sizes. */
  datatype Raw = Raw(words: seq<u64>, dims1: seq<u32>, dims2: seq<u32>)

  function TaggedWords(w: Writer, words: seq<u64>): (r: seq<u64>)
    requires |w.keywords| < U32
    ensures |r| == |words| && forall i :: 0 <= i < |words| ==> r[i] == Tagged(w, words[i])
  {
    seq(|words|, i requires 0 <= i < |words| => Tagged(w, words[i]))
  }

  function DimIndex(w: Writer, v: u64): u32 {
    if v != 0 && v in w.index then w.index[v] else NO_INDEX
  }

  function DimIndices(w: Writer, dims: seq<u64>): (r: seq<u32>)
    ensures |r| == |dims| && forall i :: 0 <= i < |dims| ==> r[i] == DimIndex(w, dims[i])
  {
    seq(|dims|, i requires 0 <= i < |dims| => DimIndex(w, dims[i]))
  }

  function RawNode(w: Writer, n: Node): Raw
    requires |w.keywords| < U32 && |n.words| == NODE_WORDS
  {
    Raw(TaggedWords(w, Flat(n.words)), DimIndices(w, n.dims1), DimIndices(w, n.dims2))
  }

  function RawNodes(w: Writer, queue: seq<Node>): (r: seq<Raw>)
    requires |w.keywords| < U32 && forall i :: 0 <= i < |queue| ==> |queue[i].words| == NODE_WORDS
    ensures |r| == |queue| && forall i :: 0 <= i < |queue| ==> r[i] == RawNode(w, queue[i])
  {
    seq(|queue|, i requires 0 <= i < |queue| => RawNode(w, queue[i]))
  }

  function LongBytes(v: u64): seq<byte> {
    WordBytes(v % U32) + WordBytes(v / U32)
  }

  /** The record of a node, given how words and indices are written. */
  function Record(longs: u64 -> seq<byte>, indices: u32 -> seq<byte>, r: Raw): seq<byte> {
    ManyBytes(longs, r.words) + (ManyBytes(indices, r.dims1) + ManyBytes(indices, r.dims2))
  }

  function RawBytes(r: Raw): seq<byte> {
    Record(LongBytes, WordBytes, r)
  }

  function FileBytes(raws: seq<Raw>): seq<byte> {
    CountedBytes(RawBytes, raws)
  }

  // ---------------------------------------------------------------- writing

  /** Rewrites the words of the copied node in place. */
  method TagPointers(w: Writer, flat: array<u64>)
    requires |w.keywords| < U32
    modifies flat
    ensures flat[..] == TaggedWords(w, old(flat[..]))
  {
    for p := 0 to flat.Length
      invariant forall k :: 0 <= k < p ==> flat[k] == Tagged(w, old(flat[k]))
      invariant forall k :: p <= k < flat.Length ==> flat[k] == old(flat[k])
    {
      flat[p] := Tagged(w, flat[p]);
    }
  }

  method CopyFlat(words: seq<u64>) returns (flat: array<u64>)
    requires |words| == NODE_WORDS
    ensures fresh(flat) && flat[..] == Flat(words)
  {
    flat := new u64[NODE_WORDS](p requires 0 <= p < NODE_WORDS => words[p]);
    flat[DIMS1_WORD + 1] := 0;
    var i := Dims2Word(words[0] % U32);
    if i != 0 { flat[i + 1] := 0; }
  }

  method WriteLongs(out: seq<byte>, flat: array<u64>) returns (out': seq<byte>)
    ensures out' == out + ManyBytes(LongBytes, flat[..])
  {
    out' := out;
    for p := 0 to flat.Length
      invariant out' + ManyBytes(LongBytes, flat[p..]) == out + ManyBytes(LongBytes, flat[..])
    {
      assert flat[p..][1..] == flat[p + 1..];
      out' := out' + LongBytes(flat[p]);
    }
  }

  method WriteDims(out: seq<byte>, w: Writer, dims: seq<u64>) returns (out': seq<byte>)
    ensures out' == out + ManyBytes(WordBytes, DimIndices(w, dims))
  {
    out' := out;
    ghost var indices := DimIndices(w, dims);
    for d := 0 to |dims|
      invariant out' + ManyBytes(WordBytes, indices[d..]) == out + ManyBytes(WordBytes, indices)
    {
      ManyBytesFrom(WordBytes, indices, d);
      out' := out' + WordBytes(DimIndex(w, dims[d]));
    }
  }

  method WriteNode(out: seq<byte>, w: Writer, n: Node) returns (out': seq<byte>)
    requires |w.keywords| < U32 && |n.words| == NODE_WORDS
    ensures out' == out + RawBytes(RawNode(w, n))
  {
    var flat := CopyFlat(n.words);
    TagPointers(w, flat);
    out' := WriteLongs(out, flat);
    out' := WriteDims(out', w, n.dims1);
    out' := WriteDims(out', w, n.dims2);
  }

  method WriteAst(w: Writer, queue: seq<Node>) returns (out: seq<byte>)
    requires |w.keywords| < U32 && forall i :: 0 <= i < |queue| ==> |queue[i].words| == NODE_WORDS
    ensures out == FileBytes(RawNodes(w, queue))
  {
    ghost var raws := RawNodes(w, queue);
    ghost var whole := FileBytes(raws);
    out := WordBytes(|queue| % U32);
    for i := 0 to |queue|
      invariant out + ManyBytes(RawBytes, raws[i..]) == whole
    {
      ghost var node, rest := RawBytes(RawNode(w, queue[i])), ManyBytes(RawBytes, raws[i + 1..]);
      assert out + (node + rest) == whole by { ManyBytesFrom(RawBytes, raws, i); }
      Assoc(out, node, rest);
      out := WriteNode(out, w, queue[i]);
    }
  }

  // ---------------------------------------------------------------- reading

  function ReadLong(file: seq<byte>, at: nat): Read<u64> {
    match ReadWord(file, at)
    case None => None
    case Some((low, at1)) =>
      match ReadWord(file, at1)
      case None => None
      case Some((high, at2)) => Some((low + U32 * high, at2))
  }

  function LongReader(file: seq<byte>): nat -> Read<u64> {
    at => ReadLong(file, at)
  }

  function WordReader(file: seq<byte>): nat -> Read<u32> {
    at => ReadWord(file, at)
  }

  /** The words, then as many indices as these say. */
  function ReadRecord(longs: nat -> Read<u64>, indices: nat -> Read<u32>, at: nat): Read<Raw> {
    match ReadMany(longs, at, NODE_WORDS, [])
    case None => None
    case Some((words, at1)) =>
      match ReadMany(indices, at1, Count1(words), [])
      case None => None
      case Some((dims1, at2)) =>
        match ReadMany(indices, at2, Count2(words), [])
        case None => None
        case Some((dims2, at3)) => Some((Raw(words, dims1, dims2), at3))
  }

  function ReadRaw(file: seq<byte>, at: nat): Read<Raw> {
    ReadRecord(LongReader(file), WordReader(file), at)
  }

  function RawReader(file: seq<byte>): nat -> Read<Raw> {
    at => ReadRaw(file, at)
  }

  function ReadFile(file: seq<byte>): Read<seq<Raw>> {
    ReadCounted(RawReader(file), file)
  }

  /** A node in the memory of the reader. */
  datatype Restored = Restored(words: seq<nat>, dims1: seq<nat>, dims2: seq<nat>)

  function DimAt(r: Reader, index: u32): nat {
    if index != NO_INDEX then NodeAt(r, index) else 0
  }

  function ResolvedWords(r: Reader, words: seq<u64>): (ws: seq<nat>)
    ensures |ws| == |words| && forall i :: 0 <= i < |words| ==> ws[i] == Resolved(r, words[i])
  {
    seq(|words|, i requires 0 <= i < |words| => Resolved(r, words[i]))
  }

  function DimsAt(r: Reader, indices: seq<u32>): (ds: seq<nat>)
    ensures |ds| == |indices| && forall i :: 0 <= i < |indices| ==> ds[i] == DimAt(r, indices[i])
  {
    seq(|indices|, i requires 0 <= i < |indices| => DimAt(r, indices[i]))
  }

  function RestoredNode(r: Reader, raw: Raw): Restored {
    Restored(ResolvedWords(r, raw.words), DimsAt(r, raw.dims1), DimsAt(r, raw.dims2))
  }

  function RestoredNodes(r: Reader, raws: seq<Raw>): (ns: seq<Restored>)
    ensures |ns| == |raws| && forall i :: 0 <= i < |raws| ==> ns[i] == RestoredNode(r, raws[i])
  {
    seq(|raws|, i requires 0 <= i < |raws| => RestoredNode(r, raws[i]))
  }

  /** The nodes of a file, node 0 being the root; [] for the NULL of an unreadable or empty
      file. */
  function Loaded(r: Reader, file: seq<byte>): seq<Restored> {
    match ReadFile(file)
    case None => []
    case Some((raws, _)) => RestoredNodes(r.(count := |raws|), raws)
  }

  method ReadRaws(file: seq<byte>, at: nat, n: nat) returns (result: Read<seq<Raw>>)
    ensures result == ReadMany(RawReader(file), at, n, [])
  {
    var raws: seq<Raw>, next := [], at;
    for i := 0 to n
      invariant ReadMany(RawReader(file), next, n - i, raws) == ReadMany(RawReader(file), at, n, [])
    {
      var raw := ReadRaw(file, next);
      if raw.None? { return None; }
      raws := raws + [raw.value.0];
      next := raw.value.1;
    }
    return Some((raws, next));
  }

  /** Resolves the words of one node in place. */
  method ResolvePointers(r: Reader, ptrs: array<nat>, ghost words: seq<u64>)
    requires ptrs[..] == words
    modifies ptrs
    ensures ptrs[..] == ResolvedWords(r, words)
  {
    for p := 0 to ptrs.Length
      invariant forall k :: 0 <= k < p ==> ptrs[k] == Resolved(r, words[k])
      invariant forall k :: p <= k < ptrs.Length ==> ptrs[k] == words[k]
    {
      assert ptrs[p] == words[p];
      ptrs[p] := Resolved(r, ptrs[p]);
    }
  }

  method RestoreNode(r: Reader, raw: Raw) returns (node: Restored)
    ensures node == RestoredNode(r, raw)
  {
    var ptrs := new nat[|raw.words|](p requires 0 <= p < |raw.words| => raw.words[p]);
    assert ptrs[..] == raw.words;
    ResolvePointers(r, ptrs, raw.words);
    return Restored(ptrs[..], DimsAt(r, raw.dims1), DimsAt(r, raw.dims2));
  }

  method RestoreNodes(r: Reader, raws: seq<Raw>) returns (nodes: seq<Restored>)
    ensures nodes == RestoredNodes(r, raws)
  {
    nodes := [];
    for i := 0 to |raws|
      invariant nodes == RestoredNodes(r, raws)[..i]
    {
      var node := RestoreNode(r, raws[i]);
      nodes := nodes + [node];
    }
  }

  method ReadAst(r: Reader, file: seq<byte>) returns (nodes: seq<Restored>)
    ensures nodes == Loaded(r, file)
  {
    var count := ReadWord(file, 0);
    if count.None? { return []; }
    var result := ReadRaws(file, count.value.1, count.value.0);
    if result.None? { return []; }
    nodes := RestoreNodes(r.(count := |result.value.0|), result.value.0);
  }

  // ---------------------------------------------------------------- reading back

  /** The counts in the words are the numbers of indices. */
  predicate Counted(raw: Raw) {
    |raw.words| == NODE_WORDS && Count1(raw.words) == |raw.dims1| && Count2(raw.words) == |raw.dims2|
  }

  lemma {:induction false} ReadLongBack(file: seq<byte>, at: nat, v: u64)
    requires Occurs(file, at, LongBytes(v))
    ensures ReadLong(file, at) == Some((v, at + |LongBytes(v)|))
  {
    OccursSplit(file, at, WordBytes(v % U32), WordBytes(v / U32));
    ReadWordBack(file, at, v % U32);
    ReadWordBack(file, at + 4, v / U32);
  }

  predicate AnyLong(v: u64) { true }

  predicate AnyWord(v: u32) { true }

  lemma {:induction false} LongsReadBack(file: seq<byte>, read: nat -> Read<u64>, enc: u64 -> seq<byte>)
    requires forall at: nat :: read(at) == ReadLong(file, at)
    requires forall v: u64 :: enc(v) == LongBytes(v)
    ensures ReadsBack<u64, u64>(read, file, enc, Same<u64>(), AnyLong)
  {
    forall at: nat, v: u64 ensures ReadsBackAt<u64, u64>(read, file, enc, Same<u64>(), AnyLong, at, v) {
      if Occurs(file, at, enc(v)) { ReadLongBack(file, at, v); }
    }
  }

  lemma {:induction false} WordsReadBack(file: seq<byte>, read: nat -> Read<u32>, enc: u32 -> seq<byte>)
    requires forall at: nat :: read(at) == ReadWord(file, at)
    requires forall v: u32 :: enc(v) == WordBytes(v)
    ensures ReadsBack<u32, u32>(read, file, enc, Same<u32>(), AnyWord)
  {
    forall at: nat, v: u32 ensures ReadsBackAt<u32, u32>(read, file, enc, Same<u32>(), AnyWord, at, v) {
      if Occurs(file, at, enc(v)) { ReadWordBack(file, at, v); }
    }
  }

  lemma {:induction false} RecordBack(file: seq<byte>, readLong: nat -> Read<u64>, longs: u64 -> seq<byte>,
                                      readIndex: nat -> Read<u32>, indices: u32 -> seq<byte>, at: nat, raw: Raw)
    requires ReadsBack<u64, u64>(readLong, file, longs, Same<u64>(), AnyLong)
    requires ReadsBack<u32, u32>(readIndex, file, indices, Same<u32>(), AnyWord)
    requires Counted(raw) && Occurs(file, at, Record(longs, indices, raw))
    ensures ReadRecord(readLong, readIndex, at) == Some((raw, at + |Record(longs, indices, raw)|))
  {
    var words, dims1 := ManyBytes(longs, raw.words), ManyBytes(indices, raw.dims1);
    var dims2 := ManyBytes(indices, raw.dims2);
    var at1 := at + |words|;
    OccursSplit(file, at, words, dims1 + dims2);
    OccursSplit(file, at1, dims1, dims2);
    ReadManySame<u64>(readLong, file, at, longs, AnyLong, raw.words);
    ReadManySame<u32>(readIndex, file, at1, indices, AnyWord, raw.dims1);
    ReadManySame<u32>(readIndex, file, at1 + |dims1|, indices, AnyWord, raw.dims2);
  }

  lemma {:induction false} RecordsReadBack(file: seq<byte>, readLong: nat -> Read<u64>, longs: u64 -> seq<byte>,
                                           readIndex: nat -> Read<u32>, indices: u32 -> seq<byte>,
                                           read: nat -> Read<Raw>, enc: Raw -> seq<byte>)
    requires ReadsBack<u64, u64>(readLong, file, longs, Same<u64>(), AnyLong)
    requires ReadsBack<u32, u32>(readIndex, file, indices, Same<u32>(), AnyWord)
    requires forall at: nat :: read(at) == ReadRecord(readLong, readIndex, at)
    requires forall raw :: enc(raw) == Record(longs, indices, raw)
    ensures ReadsBack(read, file, enc, Same(), Counted)
  {
    forall at: nat, raw ensures ReadsBackAt(read, file, enc, Same(), Counted, at, raw) {
      if Counted(raw) && Occurs(file, at, enc(raw)) { RecordBack(file, readLong, longs, readIndex, indices, at, raw); }
    }
  }

  lemma {:induction false} RawsReadBack(file: seq<byte>, read: nat -> Read<Raw>, enc: Raw -> seq<byte>)
    requires forall at: nat :: read(at) == ReadRaw(file, at)
    requires forall raw :: enc(raw) == RawBytes(raw)
    ensures ReadsBack(read, file, enc, Same(), Counted)
  {
    LongsReadBack(file, LongReader(file), LongBytes);
    WordsReadBack(file, WordReader(file), WordBytes);
    RecordsReadBack(file, LongReader(file), LongBytes, WordReader(file), WordBytes, read, enc);
  }

  lemma {:induction false} ReadFileBack(raws: seq<Raw>)
    requires |raws| < U32 && forall i :: 0 <= i < |raws| ==> Counted(raws[i])
    ensures ReadFile(FileBytes(raws)) == Some((raws, |FileBytes(raws)|))
  {
    var file := FileBytes(raws);
    RawsReadBack(file, RawReader(file), RawBytes);
    assert Occurs(file, 0, file);
    CountedReadBack(file, RawReader(file), RawBytes, Same(), Counted, raws);
    MapSame(raws);
  }

  // ---------------------------------------------------------------- the round trip

  /** Kinds and counts are small words, which the writer leaves alone. */
  lemma {:induction false} CountsSurvive(w: Writer, r: Reader, n: Node)
    requires Fits(w, r) && Laid(n)
    ensures Counted(RawNode(w, n))
  {
    assert Flat(n.words)[0] == n.words[0] && Flat(n.words)[DIMS1_WORD] == n.words[DIMS1_WORD];
  }

  /** The whole cache: every node comes back at its index, the root at 0; each word means to
      the reader what it meant to the writer, the size-array pointers apart, and each
      dimension leads to the same node. */
  lemma {:induction false} CacheRoundTrip(w: Writer, r: Reader, queue: seq<Node>)
    requires Fits(w, r) && r.count == |queue|
    requires forall i :: 0 <= i < |queue| ==> |queue[i].words| == NODE_WORDS && Laid(queue[i])
    ensures var nodes := Loaded(r, FileBytes(RawNodes(w, queue)));
            |nodes| == |queue| && forall i :: 0 <= i < |queue| ==> Restores(w, r, queue[i], nodes[i])
  {
    var raws := RawNodes(w, queue);
    forall i | 0 <= i < |queue| ensures Counted(raws[i]) { CountsSurvive(w, r, queue[i]); }
    ReadFileBack(raws);
    forall i | 0 <= i < |queue| ensures Restores(w, r, queue[i], RestoredNode(r, raws[i])) {
      NodeReturns(w, r, queue[i]);
    }
  }

  ghost predicate Restores(w: Writer, r: Reader, n: Node, m: Restored)
    requires Fits(w, r) && |n.words| == NODE_WORDS
  {
    && |m.words| == NODE_WORDS && (forall p :: 0 <= p < NODE_WORDS ==> m.words[p] == Moved(w, r, Flat(n.words)[p]))
    && SameDims(w, r, n.dims1, m.dims1) && SameDims(w, r, n.dims2, m.dims2)
  }

  ghost predicate SameDims(w: Writer, r: Reader, ds: seq<u64>, es: seq<nat>) {
    && |es| == |ds|
    && forall d :: 0 <= d < |ds| ==> es[d] == if ds[d] in w.index then NodeAt(r, w.index[ds[d]]) else 0
  }

  lemma {:induction false} NodeReturns(w: Writer, r: Reader, n: Node)
    requires Fits(w, r) && |n.words| == NODE_WORDS
    ensures Restores(w, r, n, RestoredNode(r, RawNode(w, n)))
  {
    forall p | 0 <= p < NODE_WORDS ensures Resolved(r, Tagged(w, Flat(n.words)[p])) == Moved(w, r, Flat(n.words)[p]) {
      WordReturns(w, r, Flat(n.words)[p]);
    }
  }

  // ---------------------------------------------------------------- the link graph

  /** A link of a node: its sibling, a child, or a dimension of its value's or its declared
      type. */
  datatype Link = ToNext | ToKid(i: nat) | ToSize(d: nat) | ToDeclared(d: nat)

  function LinkOf(words: seq<nat>, dims1: seq<nat>, dims2: seq<nat>, l: Link): nat {
    match l
    case ToNext => WordAt(words, NEXT_WORD)
    case ToKid(i) => Kid(CellOf(words), i)
    case ToSize(d) => WordAt(dims1, d)
    case ToDeclared(d) => WordAt(dims2, d)
  }

  /** The link `l` of node `p` in the memory of the writer. */
  function Target(h: Heap, p: Ptr, l: Link): Ptr {
    if p in h then LinkOf(h[p].words, h[p].dims1, h[p].dims2, l) else NULL
  }

  /** The node that a path of links leads to, among the nodes that are reached from the root. */
  ghost function WriterWalk(h: Heap, root: Ptr, p: Ptr, path: seq<Link>): Option<Ptr>
    decreases |path|
  {
    if path == [] then Some(p)
    else var q := Target(h, p, path[0]);
      if Reached(GraphOf(h), root, q) then WriterWalk(h, root, q, path[1..]) else None
  }

  /** The node that a path of links leads to, none when a link is NULL. */
  function Walk(h: Heap, p: Ptr, path: seq<Link>): Option<Ptr>
    decreases |path|
  {
    if path == [] then Some(p)
    else var q := Target(h, p, path[0]);
      if q == NULL then None else Walk(h, q, path[1..])
  }

  /** Which node lies at an address of the reader. */
  function NodeOf(r: Reader, v: nat): Option<nat> {
    if v >= r.nodes && (v - r.nodes) % NODE_SIZE == 0 && (v - r.nodes) / NODE_SIZE < r.count
    then Some((v - r.nodes) / NODE_SIZE) else None
  }

  /** The index of the node that a path of links leads the reader to, from node `i`. */
  function ReaderWalk(r: Reader, nodes: seq<Restored>, i: nat, path: seq<Link>): Option<nat>
    decreases |path|
  {
    if i >= |nodes| then None
    else if path == [] then Some(i)
    else match NodeOf(r, LinkOf(nodes[i].words, nodes[i].dims1, nodes[i].dims2, path[0]))
      case None => None
      case Some(j) => ReaderWalk(r, nodes, j, path[1..])
  }

  /** In the reader's memory neither the source text, nor a keyword, nor a small word lies
      where the nodes are. */
  predicate Apart(w: Writer, r: Reader) {
    && r.nodes > LIMIT && (r.base + w.len < r.nodes || r.base >= NodeAt(r, r.count))
    && forall k :: 0 <= k < |r.keywords| ==> r.keywords[k] < r.nodes || r.keywords[k] >= NodeAt(r, r.count)
  }

  lemma {:induction false} NodeOfNode(r: Reader, i: nat)
    requires i < r.count
    ensures NodeOf(r, NodeAt(r, i)) == Some(i)
  {
    assert NodeAt(r, i) - r.nodes == NODE_SIZE * i;
  }

  lemma {:induction false} NodeOfOutside(r: Reader, v: nat)
    requires v < r.nodes || v >= NodeAt(r, r.count)
    ensures NodeOf(r, v) == None
  {
  }

  /** The index of a gathered node, None for any other word. */
  function IndexOf(w: Writer, v: nat): Option<nat> {
    if v in w.index then Some(w.index[v]) else None
  }

  lemma {:induction false} LinkReturns(w: Writer, r: Reader, v: u64)
    requires Fits(w, r) && Apart(w, r)
    ensures NodeOf(r, Moved(w, r, v)) == IndexOf(w, v)
  {
    if v in w.index { NodeOfNode(r, w.index[v]); } else { NodeOfOutside(r, Moved(w, r, v)); }
  }

  /** The kind is a small word, which comes back as itself, and neither it nor a child pointer is
      one of the words written as NULL. */
  lemma {:induction false} KindReturns(w: Writer, r: Reader, n: Node, m: Restored)
    requires Fits(w, r) && Laid(n) && Restores(w, r, n, m)
    ensures CellOf(m.words).kind == CellOf(n.words).kind
  {
    assert Flat(n.words)[0] == n.words[0];
    assert m.words[0] == Moved(w, r, n.words[0]) == n.words[0];
  }

  lemma {:induction false} KidsAreKept(words: seq<u64>, i: nat)
    requires |words| == NODE_WORDS && i < |KidWords(KindOf(words[0] % U32))|
    ensures var at := KidWords(KindOf(words[0] % U32))[i]; Flat(words)[at] == words[at]
  {
    var code := words[0] % U32;
    DeclaredKinds(code);
  }

  /** The size-array pointer of the declared type is not a child pointer. */
  lemma {:induction false} DeclaredKinds(code: nat)
    ensures Dims2Word(code) == match KindOf(code)
                               case VAR_DECL | FUNC => 21
                               case PARAM | CAST => 18
                               case SIZEOF => 19
                               case _ => 0
  {
  }

  lemma {:induction false} ReadKid(w: Writer, r: Reader, n: Node, m: Restored, i: nat)
    requires Fits(w, r) && Apart(w, r) && Laid(n) && Restores(w, r, n, m)
    ensures NodeOf(r, Kid(CellOf(m.words), i)) == IndexOf(w, Kid(CellOf(n.words), i))
  {
    KindReturns(w, r, n, m);
    if i < |CellOf(n.words).kids| {
      KidsAreKept(n.words, i);
      LinkReturns(w, r, n.words[KidWords(CellOf(n.words).kind)[i]]);
    } else {
      NodeOfOutside(r, 0);
    }
  }

  lemma {:induction false} ReadDim(w: Writer, r: Reader, ds: seq<u64>, es: seq<nat>, d: nat)
    requires Fits(w, r) && Apart(w, r) && SameDims(w, r, ds, es)
    ensures NodeOf(r, WordAt(es, d)) == IndexOf(w, WordAt(ds, d))
  {
    if d < |ds| && ds[d] in w.index { NodeOfNode(r, w.index[ds[d]]); } else { NodeOfOutside(r, 0); }
  }

  /** A link leads the reader to the node that it led the writer to. */
  lemma {:induction false} ReadLink(w: Writer, r: Reader, n: Node, m: Restored, l: Link)
    requires Fits(w, r) && Apart(w, r) && Laid(n) && Restores(w, r, n, m)
    ensures NodeOf(r, LinkOf(m.words, m.dims1, m.dims2, l)) == IndexOf(w, LinkOf(n.words, n.dims1, n.dims2, l))
  {
    match l
    case ToNext =>
      assert Flat(n.words)[NEXT_WORD] == n.words[NEXT_WORD];
      LinkReturns(w, r, n.words[NEXT_WORD]);
    case ToKid(i) => ReadKid(w, r, n, m, i);
    case ToSize(d) => ReadDim(w, r, n.dims1, m.dims1, d);
    case ToDeclared(d) => ReadDim(w, r, n.dims2, m.dims2, d);
  }

  // ---------------------------------------------------------------- the graph comes back

  function NodesOf(h: Heap, queue: seq<Ptr>): (r: seq<Node>)
    requires forall i :: 0 <= i < |queue| ==> queue[i] in h
    ensures |r| == |queue| && forall i :: 0 <= i < |queue| ==> r[i] == h[queue[i]]
  {
    seq(|queue|, i requires 0 <= i < |queue| => h[queue[i]])
  }

  /** What the writer has gathered from the root, with both processes in order. */
  ghost predicate Cached(h: Heap, root: Ptr, s: Gathered, w: Writer, r: Reader) {
    && GatheredFrom(h, root, s) && w.index == s.index && Fits(w, r) && Apart(w, r) && r.count == |s.queue|
    && forall p :: p in s.index ==> Laid(h[p])
  }

  /** cache_write_ast: the nodes reached from the root, in the order of the queue. */
  method CacheWriteAst(h: Heap, root: Ptr, base: u64, len: nat, keywords: seq<u64>)
    returns (out: seq<byte>, ghost s: Gathered)
    requires root != NULL ==> AllEnd(h, GraphOf(h), root)
    requires |keywords| < U32 && forall p :: p in h ==> |h[p].words| == NODE_WORDS
    ensures root == NULL ==> out == []
    ensures root != NULL ==> GatheredFrom(h, root, s)
    ensures root != NULL ==> out == FileBytes(RawNodes(Writer(s.index, base, len, keywords), NodesOf(h, s.queue)))
  {
    if root == NULL { return [], Gathered([], map[]); }
    var gathered := Gather(h, root);
    s := gathered;
    out := WriteAst(Writer(gathered.index, base, len, keywords), NodesOf(h, gathered.queue));
  }

  lemma {:induction false} PlaceIsIndex(ps: set<Ptr>, s: Gathered, p: Ptr)
    requires Indexed(ps, s) && |s.queue| < U32 && p in s.index
    ensures s.index[p] < |s.queue| && s.queue[s.index[p]] == p
  {
    var i :| 0 <= i < |s.queue| && s.queue[i] == p;
  }

  /** Each gathered node has been read back at its index. */
  ghost predicate AllRestored(h: Heap, s: Gathered, w: Writer, r: Reader, nodes: seq<Restored>) {
    && Fits(w, r) && |nodes| == |s.queue|
    && forall p :: p in s.index ==>
         p in h && |h[p].words| == NODE_WORDS && s.index[p] < |nodes| && Restores(w, r, h[p], nodes[s.index[p]])
  }

  lemma {:induction false} CacheRestores(h: Heap, root: Ptr, s: Gathered, w: Writer, r: Reader)
    requires Cached(h, root, s, w, r)
    ensures AllRestored(h, s, w, r, Loaded(r, FileBytes(RawNodes(w, NodesOf(h, s.queue)))))
  {
    var queue := NodesOf(h, s.queue);
    CacheRoundTrip(w, r, queue);
    forall p | p in s.index ensures s.index[p] < |queue| && queue[s.index[p]] == h[p] {
      PlaceIsIndex(h.Keys, s, p);
    }
  }

  /** From a gathered node on, every path of links leads the reader to the index of the node that
      it leads the writer to, or nowhere for both. */
  lemma {:induction false} WalksAgree(h: Heap, root: Ptr, s: Gathered, w: Writer, r: Reader, nodes: seq<Restored>,
                                      p: Ptr, path: seq<Link>)
    requires Cached(h, root, s, w, r) && AllRestored(h, s, w, r, nodes) && p in s.index
    ensures var q := WriterWalk(h, root, p, path);
            && (q.Some? ==> q.value in s.index)
            && ReaderWalk(r, nodes, s.index[p], path) == if q.Some? then Some(s.index[q.value]) else None
    decreases |path|
  {
    if path != [] {
      ReadLink(w, r, h[p], nodes[s.index[p]], path[0]);
      var q := Target(h, p, path[0]);
      if q in s.index { WalksAgree(h, root, s, w, r, nodes, q, path[1..]); }
    }
  }

  /** What is read back shows, from node 0 on, the graph below the root of the writer's memory:
      each path leads to the copy of the node that it led to, and nodes that were shared, and
      only those, are shared again. */
  lemma {:induction false} CacheKeepsTheGraph(h: Heap, root: Ptr, s: Gathered, w: Writer, r: Reader, path: seq<Link>,
                                              path': seq<Link>)
    requires Cached(h, root, s, w, r)
    ensures var nodes := Loaded(r, FileBytes(RawNodes(w, NodesOf(h, s.queue))));
            var p, p' := WriterWalk(h, root, root, path), WriterWalk(h, root, root, path');
            var i, i' := ReaderWalk(r, nodes, 0, path), ReaderWalk(r, nodes, 0, path');
            && (p.None? <==> i.None?) && (i == i' <==> p == p')
            && (p.Some? ==> i.value < |nodes| && p.value in h && |h[p.value].words| == NODE_WORDS
                            && Restores(w, r, h[p.value], nodes[i.value]))
  {
    var nodes := Loaded(r, FileBytes(RawNodes(w, NodesOf(h, s.queue))));
    CacheRestores(h, root, s, w, r);
    assert s.index[root] == 0;
    WalksAgree(h, root, s, w, r, nodes, root, path);
    WalksAgree(h, root, s, w, r, nodes, root, path');
    var p, p' := WriterWalk(h, root, root, path), WriterWalk(h, root, root, path');
    if p.Some? { PlaceIsIndex(h.Keys, s, p.value); }
    if p'.Some? { PlaceIsIndex(h.Keys, s, p'.value); }
  }

  // ---------------------------------------------------------------- nothing is left behind

  lemma {:induction false} EdgeReaches(h: Heap, root: Ptr, p: Ptr, q: Ptr)
    requires Reached(GraphOf(h), root, p) && p in h && q in Visited(h, p)
    ensures Reached(GraphOf(h), root, q)
  {
    var n: nat :| ReachedIn(GraphOf(h), root, p, n);
    assert Edge(GraphOf(h), p, q);
    ReachedOn(GraphOf(h), root, p, q, n);
  }

  lemma {:induction false} KidIsVisited(h: Heap, p: Ptr, i: nat)
    requires p in h && Items(MemoryOf(h), p).Some? && Belongs(CellOf(h[p].words), i)
    ensures var q := Kid(CellOf(h[p].words), i); q == NULL || q == p || q in Visited(h, p)
  {
    var mem, c := MemoryOf(h), CellOf(h[p].words);
    var q := Kid(c, i);
    if q != NULL && q != p {
      LinkIsField(c, i);
      var f := if IsListKid(c.kind, i) then Listed(q) else Single(q);
      FieldLists(mem, p, Fields(c), f);
      FieldCovers(mem, p, Fields(c), f, q);
    }
  }

  lemma {:induction false} DimIsVisited(h: Heap, p: Ptr, l: Link)
    requires p in h && (l.ToSize? || l.ToDeclared?) && Target(h, p, l) != NULL
    ensures Target(h, p, l) in Visited(h, p)
  {
    var ds := if l.ToSize? then h[p].dims1 else h[p].dims2;
    assert Target(h, p, l) == ds[l.d] && ds[l.d] in ds;
  }

  /** Children and dimension sizes of what is reached are reached. */
  lemma {:induction false} ChildrenAreGathered(h: Heap, root: Ptr, p: Ptr, l: Link)
    requires AllEnd(h, GraphOf(h), root) && Reached(GraphOf(h), root, p)
    requires l.ToKid? ==> Belongs(CellOf(h[p].words), l.i)
    requires !l.ToNext?
    ensures Target(h, p, l) == NULL || Reached(GraphOf(h), root, Target(h, p, l))
  {
    var q := Target(h, p, l);
    assert Ends(MemoryOf(h), p, |h|);
    if l.ToKid? { KidIsVisited(h, p, l.i); }
    if q != NULL && q != p {
      if !l.ToKid? { DimIsVisited(h, p, l); }
      EdgeReaches(h, root, p, q);
    }
  }

  /** A sibling is reached with the list that it stands in. */
  lemma {:induction false} SiblingsAreGathered(h: Heap, root: Ptr, p: Ptr, i: nat, q: Ptr)
    requires AllEnd(h, GraphOf(h), root) && Reached(GraphOf(h), root, p) && p in h
    requires Belongs(CellOf(h[p].words), i) && IsListKid(CellOf(h[p].words).kind, i)
    requires ListAt(MemoryOf(h), Kid(CellOf(h[p].words), i)).Some?
    requires q in ListAt(MemoryOf(h), Kid(CellOf(h[p].words), i)).value
    ensures Reached(GraphOf(h), root, q)
  {
    var mem, c := MemoryOf(h), CellOf(h[p].words);
    assert Ends(mem, p, |h|);
    if q != p {
      LinkIsField(c, i);
      FieldCovers(mem, p, Fields(c), Listed(Kid(c, i)), q);
      EdgeReaches(h, root, p, q);
    }
  }

  /** Siblings stand only in lists, and a sizeof of a type holds no expression: the links that no
      traversal follows are NULL, or followed elsewhere. */
  ghost predicate NoStrays(h: Heap, root: Ptr) {
    forall p :: Reached(GraphOf(h), root, p) && p in h ==>
      && (Target(h, p, ToNext) == NULL || Reached(GraphOf(h), root, Target(h, p, ToNext)))
      && forall i: nat :: !Belongs(CellOf(h[p].words), i) ==>
           Target(h, p, ToKid(i)) == NULL || Reached(GraphOf(h), root, Target(h, p, ToKid(i)))
  }

  lemma {:induction false} NullIsNotReached(g: Graph, p: Ptr, n: nat)
    requires p != NULL && forall m, q :: Edge(g, m, q) ==> q != NULL
    ensures !ReachedIn(g, p, NULL, n)
    decreases n
  {
    if n > 0 {
      forall m | Edge(g, p, m) ensures !ReachedIn(g, m, NULL, n - 1) { NullIsNotReached(g, m, n - 1); }
    }
  }

  lemma {:induction false} NullIsOutside(h: Heap, root: Ptr)
    requires root != NULL
    ensures !Reached(GraphOf(h), root, NULL)
  {
    forall m, q | Edge(GraphOf(h), m, q) ensures q != NULL { NotNull(h, m, q); }
    forall n: nat ensures !ReachedIn(GraphOf(h), root, NULL, n) { NullIsNotReached(GraphOf(h), root, n); }
  }

  lemma {:induction false} NotNull(h: Heap, p: Ptr, q: Ptr)
    requires p in h && q in Visited(h, p)
    ensures q != NULL
  {
    if Items(MemoryOf(h), p).Some? { NotInAllItems(MemoryOf(h), p, Fields(CellOf(h[p].words))); }
  }

  /** Then every link of the writer's memory comes back. */
  lemma {:induction false} NothingIsCut(h: Heap, root: Ptr, p: Ptr, path: seq<Link>)
    requires AllEnd(h, GraphOf(h), root) && Reached(GraphOf(h), root, p) && NoStrays(h, root)
    requires root != NULL
    ensures WriterWalk(h, root, p, path) == Walk(h, p, path)
    decreases |path|
  {
    if path != [] {
      var l, q := path[0], Target(h, p, path[0]);
      assert Ends(MemoryOf(h), p, |h|);
      if l.ToSize? || l.ToDeclared? || (l.ToKid? && Belongs(CellOf(h[p].words), l.i)) {
        ChildrenAreGathered(h, root, p, l);
      }
      NullIsOutside(h, root);
      if q != NULL { NothingIsCut(h, root, q, path[1..]); }
    }
  }
}
