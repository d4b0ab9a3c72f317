/** The file format of the declaration metadata (src/ast_serde.c, cache_write_decl_meta and
    cache_read_decl_meta). */
module DeclMeta {
  import opened Ast
  import opened Stream

  type Text = seq<byte>

  /** Source positions are offsets from the start of the source, None for a NULL pointer; a
      pointer before the start has a negative one. */
  datatype Meta = Meta(name: Text, hash: u32, start: Option<int>, end: Option<int>, calls: seq<Text>, types: seq<Text>)

  const NO_OFFSET: u32 := 0xFFFF_FFFF

  // ---------------------------------------------------------------- the format

  function Offset(p: Option<int>): u32 {
    if p.None? || p.value < 0 then NO_OFFSET else p.value % U32
  }

  function NameBytes(name: Text): seq<byte> {
    WordBytes(|name| % U32) + name
  }

  function DepBytes(deps: seq<Text>): seq<byte> {
    if deps == [] then [] else NameBytes(deps[0]) + DepBytes(deps[1..])
  }

  function ListBytes(deps: seq<Text>): seq<byte> {
    WordBytes(|deps| % U32) + DepBytes(deps)
  }

  function HeadBytes(m: Meta): seq<byte> {
    NameBytes(m.name) + (WordBytes(m.hash) + (WordBytes(Offset(m.start)) + WordBytes(Offset(m.end))))
  }

  /** The record of a declaration, given how its head and its lists are written. */
  function Record(head: Meta -> seq<byte>, list: seq<Text> -> seq<byte>, m: Meta): seq<byte> {
    head(m) + (list(m.calls) + list(m.types))
  }

  function MetaBytes(m: Meta): seq<byte> {
    Record(HeadBytes, ListBytes, m)
  }

  function FileBytes(ms: seq<Meta>): seq<byte> {
    CountedBytes(MetaBytes, ms)
  }

  /** Lengths and counts fit in the 32 bits they have in the compiler and in the file. */
  predicate AllShort(deps: seq<Text>) {
    forall i :: 0 <= i < |deps| ==> |deps[i]| < U32
  }

  predicate Countable(deps: seq<Text>) {
    |deps| < U32 && AllShort(deps)
  }

  predicate Sized(m: Meta) {
    |m.name| < U32 && Countable(m.calls) && Countable(m.types)
  }

  predicate AllSized(ms: seq<Meta>) {
    |ms| < U32 && forall i :: 0 <= i < |ms| ==> Sized(ms[i])
  }

  // ---------------------------------------------------------------- writing

  method WriteDeps(file: seq<byte>, deps: seq<Text>) returns (file': seq<byte>)
    ensures file' == file + ListBytes(deps)
  {
    file' := file + WordBytes(|deps| % U32);
    for i := 0 to |deps|
      invariant file' + DepBytes(deps[i..]) == file + ListBytes(deps)
    {
      assert deps[i..][1..] == deps[i + 1..];
      file' := file' + WordBytes(|deps[i]| % U32);
      file' := file' + deps[i];
    }
  }

  method WriteDecl(file: seq<byte>, m: Meta) returns (file': seq<byte>)
    ensures file' == file + MetaBytes(m)
  {
    file' := file + WordBytes(|m.name| % U32) + m.name;
    file' := file' + WordBytes(m.hash) + WordBytes(Offset(m.start)) + WordBytes(Offset(m.end));
    assert file' == file + HeadBytes(m);
    file' := WriteDeps(file', m.calls);
    file' := WriteDeps(file', m.types);
  }

  method WriteDeclMeta(ms: seq<Meta>) returns (file: seq<byte>)
    ensures file == FileBytes(ms)
  {
    ghost var whole := FileBytes(ms);
    file := WordBytes(|ms| % U32);
    for i := 0 to |ms|
      invariant file + ManyBytes(MetaBytes, ms[i..]) == whole
    {
      ghost var one, rest := MetaBytes(ms[i]), ManyBytes(MetaBytes, ms[i + 1..]);
      assert file + (one + rest) == whole by { ManyBytesFrom(MetaBytes, ms, i); }
      Assoc(file, one, rest);
      file := WriteDecl(file, ms[i]);
    }
  }

  // ---------------------------------------------------------------- reading

  function ReadName(file: seq<byte>, at: nat): Read<Text> {
    match ReadWord(file, at)
    case None => None
    case Some((n, at')) => ReadBytes(file, at', n)
  }

  /** Each name read is put before those read earlier. */
  function ReadDeps(file: seq<byte>, at: nat, n: nat, deps: seq<Text>): Read<seq<Text>>
    decreases n
  {
    if n == 0 then Some((deps, at))
    else match ReadName(file, at)
      case None => None
      case Some((name, at')) => ReadDeps(file, at', n - 1, [name] + deps)
  }

  function ReadList(file: seq<byte>, at: nat): Read<seq<Text>> {
    match ReadWord(file, at)
    case None => None
    case Some((n, at')) => ReadDeps(file, at', n, [])
  }

  function Position(offset: u32): Option<int> {
    if offset == NO_OFFSET then None else Some(offset)
  }

  function ReadHead(file: seq<byte>, at: nat): Read<Meta> {
    match ReadName(file, at)
    case None => None
    case Some((name, at1)) =>
      match ReadWord(file, at1)
      case None => None
      case Some((hash, at2)) =>
        match ReadWord(file, at2)
        case None => None
        case Some((start, at3)) =>
          match ReadWord(file, at3)
          case None => None
          case Some((end, at4)) => Some((Meta(name, hash, Position(start), Position(end), [], []), at4))
  }

  function HeadReader(file: seq<byte>): nat -> Read<Meta> {
    at => ReadHead(file, at)
  }

  function ListReader(file: seq<byte>): nat -> Read<seq<Text>> {
    at => ReadList(file, at)
  }

  function ReadRecord(head: nat -> Read<Meta>, list: nat -> Read<seq<Text>>, at: nat): Read<Meta> {
    match head(at)
    case None => None
    case Some((m, at1)) =>
      match list(at1)
      case None => None
      case Some((calls, at2)) =>
        match list(at2)
        case None => None
        case Some((types, at3)) => Some((m.(calls := calls, types := types), at3))
  }

  function ReadMeta(file: seq<byte>, at: nat): Read<Meta> {
    ReadRecord(HeadReader(file), ListReader(file), at)
  }

  function MetaReader(file: seq<byte>): nat -> Read<Meta> {
    at => ReadMeta(file, at)
  }

  function ReadFile(file: seq<byte>): Read<seq<Meta>> {
    ReadCounted(MetaReader(file), file)
  }

  method ReadDepList(file: seq<byte>, at: nat) returns (r: Read<seq<Text>>)
    ensures r == ReadList(file, at)
  {
    var count := ReadWord(file, at);
    if count.None? { return None; }
    var (n, next) := count.value;
    var deps: seq<Text> := [];
    for j := 0 to n
      invariant ReadDeps(file, next, n - j, deps) == ReadList(file, at)
    {
      var name := ReadName(file, next);
      if name.None? { return None; }
      deps := [name.value.0] + deps;
      next := name.value.1;
    }
    return Some((deps, next));
  }

  method ReadDecl(file: seq<byte>, at: nat) returns (r: Read<Meta>)
    ensures r == ReadMeta(file, at)
  {
    var head := ReadHead(file, at);
    if head.None? { return None; }
    var calls := ReadDepList(file, head.value.1);
    if calls.None? { return None; }
    var types := ReadDepList(file, calls.value.1);
    if types.None? { return None; }
    return Some((head.value.0.(calls := calls.value.0, types := types.value.0), types.value.1));
  }

  /** An unreadable file gives NULL, the empty list. */
  function Loaded(file: seq<byte>): seq<Meta> {
    match ReadFile(file)
    case None => []
    case Some((ms, _)) => ms
  }

  method ReadDecls(file: seq<byte>, at: nat, n: nat) returns (r: Read<seq<Meta>>)
    ensures r == ReadMany(MetaReader(file), at, n, [])
  {
    var ms: seq<Meta>, next := [], at;
    for i := 0 to n
      invariant ReadMany(MetaReader(file), next, n - i, ms) == ReadMany(MetaReader(file), at, n, [])
    {
      var m := ReadDecl(file, next);
      if m.None? { return None; }
      ms := ms + [m.value.0];
      next := m.value.1;
    }
    return Some((ms, next));
  }

  method ReadDeclMeta(file: seq<byte>) returns (ms: seq<Meta>)
    ensures ms == Loaded(file)
  {
    var count := ReadWord(file, 0);
    if count.None? { return []; }
    var r := ReadDecls(file, count.value.1, count.value.0);
    return if r.None? then [] else r.value.0;
  }

  // ---------------------------------------------------------------- reading back

  lemma {:induction false} ReadNameBack(file: seq<byte>, at: nat, name: Text)
    requires |name| < U32 && Occurs(file, at, NameBytes(name))
    ensures ReadName(file, at) == Some((name, at + |NameBytes(name)|))
  {
    OccursSplit(file, at, WordBytes(|name|), name);
    ReadWordBack(file, at, |name|);
  }

  function Reverse<T>(s: seq<T>): seq<T> {
    if s == [] then [] else Reverse(s[1..]) + [s[0]]
  }

  lemma {:induction false} ReadDepsStep(file: seq<byte>, at: nat, n: nat, name: Text, next: nat, earlier: seq<Text>)
    requires ReadName(file, at) == Some((name, next))
    ensures ReadDeps(file, at, n + 1, earlier) == ReadDeps(file, next, n, [name] + earlier)
  {
  }

  lemma {:induction false} ReadDepsBack(file: seq<byte>, at: nat, deps: seq<Text>, earlier: seq<Text>)
    requires AllShort(deps) && Occurs(file, at, DepBytes(deps))
    ensures ReadDeps(file, at, |deps|, earlier) == Some((Reverse(deps) + earlier, at + |DepBytes(deps)|))
    decreases |deps|
  {
    if deps == [] {
      assert Reverse(deps) + earlier == earlier;
    } else {
      var name, n, head, tail := deps[0], |deps| - 1, NameBytes(deps[0]), DepBytes(deps[1..]);
      var next := at + |head|;
      OccursSplit(file, at, head, tail);
      ReadNameBack(file, at, name);
      ReadDepsStep(file, at, n, name, next, earlier);
      ReadDepsBack(file, next, deps[1..], [name] + earlier);
      Assoc(Reverse(deps[1..]), [name], earlier);
    }
  }

  lemma {:induction false} ReadListBack(file: seq<byte>, at: nat, deps: seq<Text>)
    requires Countable(deps) && Occurs(file, at, ListBytes(deps))
    ensures ReadList(file, at) == Some((Reverse(deps), at + |ListBytes(deps)|))
  {
    BodyBack(file, at, deps, |deps|, DepBytes(deps), ListBytes(deps));
  }

  lemma {:induction false} BodyBack(file: seq<byte>, at: nat, deps: seq<Text>, n: u32, body: seq<byte>, all: seq<byte>)
    requires n == |deps| && AllShort(deps) && body == DepBytes(deps)
    requires all == WordBytes(n) + body && Occurs(file, at, all)
    ensures ReadList(file, at) == Some((Reverse(deps), at + |all|))
  {
    var none: seq<Text> := [];
    CountBack(file, at, n, body, all);
    ReadDepsBack(file, at + 4, deps, none);
    assert Reverse(deps) + none == Reverse(deps);
  }

  lemma {:induction false} CountBack(file: seq<byte>, at: nat, n: u32, body: seq<byte>, all: seq<byte>)
    requires Occurs(file, at, all) && all == WordBytes(n) + body
    ensures ReadList(file, at) == ReadDeps(file, at + 4, n, []) && Occurs(file, at + 4, body)
    ensures at + |all| == at + 4 + |body|
  {
    OccursSplit(file, at, WordBytes(n), body);
    ReadWordBack(file, at, n);
  }

  /** What a declaration is after writing and reading: positions that do not fit are lost, and
      both dependency lists are reversed. */
  function Back(m: Meta): Meta {
    Meta(m.name, m.hash, Position(Offset(m.start)), Position(Offset(m.end)), Reverse(m.calls), Reverse(m.types))
  }

  lemma {:induction false} ReadHeadBack(file: seq<byte>, at: nat, m: Meta)
    requires |m.name| < U32 && Occurs(file, at, HeadBytes(m))
    ensures ReadHead(file, at) == Some((Back(m).(calls := [], types := []), at + |HeadBytes(m)|))
  {
    var end := WordBytes(Offset(m.end));
    var start := WordBytes(Offset(m.start)) + end;
    var at1 := at + |NameBytes(m.name)|;
    OccursSplit(file, at, NameBytes(m.name), WordBytes(m.hash) + start);
    OccursSplit(file, at1, WordBytes(m.hash), start);
    OccursSplit(file, at1 + 4, WordBytes(Offset(m.start)), end);
    ReadNameBack(file, at, m.name);
    ReadWordBack(file, at1, m.hash);
    ReadWordBack(file, at1 + 4, Offset(m.start));
    ReadWordBack(file, at1 + 8, Offset(m.end));
  }

  function HeadBack(m: Meta): Meta {
    Back(m).(calls := [], types := [])
  }

  lemma {:induction false} RecordBack(file: seq<byte>, readHead: nat -> Read<Meta>, head: Meta -> seq<byte>,
                                      readList: nat -> Read<seq<Text>>, list: seq<Text> -> seq<byte>, at: nat, m: Meta)
    requires ReadsBack(readHead, file, head, HeadBack, Sized) && ReadsBack(readList, file, list, Reverse, Countable)
    requires Sized(m) && Occurs(file, at, Record(head, list, m))
    ensures ReadRecord(readHead, readList, at) == Some((Back(m), at + |Record(head, list, m)|))
  {
    var at1 := at + |head(m)|;
    OccursSplit(file, at, head(m), list(m.calls) + list(m.types));
    OccursSplit(file, at1, list(m.calls), list(m.types));
    ReadHere(readHead, file, head, HeadBack, Sized, at, m);
    ReadHere(readList, file, list, Reverse, Countable, at1, m.calls);
    ReadHere(readList, file, list, Reverse, Countable, at1 + |list(m.calls)|, m.types);
  }

  lemma {:induction false} RecordsReadBack(file: seq<byte>, readHead: nat -> Read<Meta>, head: Meta -> seq<byte>,
                                           readList: nat -> Read<seq<Text>>, list: seq<Text> -> seq<byte>,
                                           read: nat -> Read<Meta>, enc: Meta -> seq<byte>)
    requires ReadsBack(readHead, file, head, HeadBack, Sized) && ReadsBack(readList, file, list, Reverse, Countable)
    requires forall at: nat :: read(at) == ReadRecord(readHead, readList, at)
    requires forall m :: enc(m) == Record(head, list, m)
    ensures ReadsBack(read, file, enc, Back, Sized)
  {
    forall at: nat, m ensures ReadsBackAt(read, file, enc, Back, Sized, at, m) {
      if Sized(m) && Occurs(file, at, enc(m)) { RecordBack(file, readHead, head, readList, list, at, m); }
    }
  }

  lemma {:induction false} HeadsReadBack(file: seq<byte>, read: nat -> Read<Meta>, enc: Meta -> seq<byte>)
    requires forall at: nat :: read(at) == ReadHead(file, at)
    requires forall m :: enc(m) == HeadBytes(m)
    ensures ReadsBack(read, file, enc, HeadBack, Sized)
  {
    forall at: nat, m ensures ReadsBackAt(read, file, enc, HeadBack, Sized, at, m) {
      if Sized(m) && Occurs(file, at, enc(m)) { ReadHeadBack(file, at, m); }
    }
  }

  lemma {:induction false} ListsReadBack(file: seq<byte>, read: nat -> Read<seq<Text>>, enc: seq<Text> -> seq<byte>)
    requires forall at: nat :: read(at) == ReadList(file, at)
    requires forall deps :: enc(deps) == ListBytes(deps)
    ensures ReadsBack(read, file, enc, Reverse, Countable)
  {
    forall at: nat, deps ensures ReadsBackAt(read, file, enc, Reverse, Countable, at, deps) {
      if Countable(deps) && Occurs(file, at, enc(deps)) { ReadListBack(file, at, deps); }
    }
  }

  lemma {:induction false} MetasReadBack(file: seq<byte>, read: nat -> Read<Meta>, enc: Meta -> seq<byte>)
    requires forall at: nat :: read(at) == ReadMeta(file, at)
    requires forall m :: enc(m) == MetaBytes(m)
    ensures ReadsBack(read, file, enc, Back, Sized)
  {
    HeadsReadBack(file, HeadReader(file), HeadBytes);
    ListsReadBack(file, ListReader(file), ListBytes);
    RecordsReadBack(file, HeadReader(file), HeadBytes, ListReader(file), ListBytes, read, enc);
  }

  function AllBack(ms: seq<Meta>): seq<Meta> {
    Map(Back, ms)
  }

  /** Reading a written file, whatever follows it, gives the same declarations in the same
      order, each with its dependency lists reversed. */
  lemma {:induction false} RoundTrip(ms: seq<Meta>, more: seq<byte>)
    requires AllSized(ms)
    ensures ReadFile(FileBytes(ms) + more) == Some((AllBack(ms), |FileBytes(ms)|))
    ensures Loaded(FileBytes(ms) + more) == AllBack(ms)
  {
    var file := FileBytes(ms) + more;
    assert Occurs(file, 0, FileBytes(ms));
    MetasReadBack(file, MetaReader(file), MetaBytes);
    CountedReadBack(file, MetaReader(file), MetaBytes, Back, Sized, ms);
  }

  /** A position survives exactly when it is absent or below 2^32 - 1 from the start. */
  lemma {:induction false} PositionSurvives(p: Option<int>)
    ensures Position(Offset(p)) == p <==> p.None? || 0 <= p.value < U32 - 1
  {
    if p.Some? && p.value >= U32 { assert p.value % U32 < U32; }
  }

  lemma {:induction false} ReverseCons<T>(s: seq<T>, rest: seq<T>)
    requires s != [] && s[1..] == rest
    ensures Reverse(s) == Reverse(rest) + [s[0]]
  {
  }

  lemma {:induction false} ReverseSnoc<T>(s: seq<T>, x: T)
    ensures Reverse(s + [x]) == [x] + Reverse(s)
  {
    if s == [] {
      assert s + [x] == [x];
    } else {
      var rest := s[1..];
      ReverseSnoc(rest, x);
      ReverseCons(s + [x], rest + [x]);
      Assoc([x], Reverse(rest), [s[0]]);
    }
  }

  lemma {:induction false} ReverseTwice<T>(s: seq<T>)
    ensures Reverse(Reverse(s)) == s && |Reverse(s)| == |s|
  {
    if s != [] {
      ReverseTwice(s[1..]);
      ReverseSnoc(Reverse(s[1..]), s[0]);
    }
  }

  lemma {:induction false} ReverseShort(deps: seq<Text>)
    requires AllShort(deps)
    ensures AllShort(Reverse(deps))
  {
    if deps != [] { ReverseShort(deps[1..]); }
  }

  /** Writing and reading twice restores the list, exactly when its positions survive. */
  lemma {:induction false} TwiceRestores(ms: seq<Meta>)
    requires AllSized(ms)
    ensures AllSized(AllBack(ms))
    ensures AllBack(AllBack(ms)) == ms <==>
            forall i :: 0 <= i < |ms| ==>
              Position(Offset(ms[i].start)) == ms[i].start && Position(Offset(ms[i].end)) == ms[i].end
  {
    forall i | 0 <= i < |ms|
      ensures Sized(Back(ms[i]))
      ensures Back(Back(ms[i])) == ms[i].(start := Position(Offset(ms[i].start)), end := Position(Offset(ms[i].end)))
    {
      BackTwice(ms[i]);
    }
    if AllBack(AllBack(ms)) == ms {
      forall i | 0 <= i < |ms|
        ensures Position(Offset(ms[i].start)) == ms[i].start && Position(Offset(ms[i].end)) == ms[i].end
      {
        assert AllBack(AllBack(ms))[i] == Back(Back(ms[i]));
      }
    }
  }

  lemma {:induction false} BackTwice(m: Meta)
    requires Sized(m)
    ensures Sized(Back(m))
    ensures Back(Back(m)) == m.(start := Position(Offset(m.start)), end := Position(Offset(m.end)))
  {
    ReverseTwice(m.calls);
    ReverseTwice(m.types);
    ReverseShort(m.calls);
    ReverseShort(m.types);
    PositionSurvives(Position(Offset(m.start)));
    PositionSurvives(Position(Offset(m.end)));
  }

  // ---------------------------------------------------------------- truncated files

  /** What is read from the first `n` bytes is read from the whole file, and lies in them. */
  ghost predicate FromPrefix<T>(part: Read<T>, whole: Read<T>, n: nat) {
    part.Some? ==> whole == part && part.value.1 <= n
  }

  lemma {:induction false} PrefixBytes(file: seq<byte>, n: nat, at: nat, k: nat)
    requires n <= |file|
    ensures FromPrefix(ReadBytes(file[..n], at, k), ReadBytes(file, at, k), n)
  {
    if at + k <= n { assert file[..n][at..at + k] == file[at..at + k]; }
  }

  lemma {:induction false} PrefixName(file: seq<byte>, n: nat, at: nat)
    requires n <= |file|
    ensures FromPrefix(ReadName(file[..n], at), ReadName(file, at), n)
  {
    PrefixBytes(file, n, at, 4);
    var word := ReadWord(file[..n], at);
    if word.Some? { PrefixBytes(file, n, word.value.1, word.value.0); }
  }

  lemma {:induction false} PrefixDeps(file: seq<byte>, n: nat, at: nat, k: nat, deps: seq<Text>)
    requires n <= |file| && at <= n
    ensures FromPrefix(ReadDeps(file[..n], at, k, deps), ReadDeps(file, at, k, deps), n)
    decreases k
  {
    if k > 0 {
      PrefixName(file, n, at);
      var name := ReadName(file[..n], at);
      if name.Some? { PrefixDeps(file, n, name.value.1, k - 1, [name.value.0] + deps); }
    }
  }

  lemma {:induction false} PrefixList(file: seq<byte>, n: nat, at: nat)
    requires n <= |file|
    ensures FromPrefix(ReadList(file[..n], at), ReadList(file, at), n)
  {
    PrefixBytes(file, n, at, 4);
    var word := ReadWord(file[..n], at);
    if word.Some? { PrefixDeps(file, n, word.value.1, word.value.0, []); }
  }

  lemma {:induction false} PrefixHead(file: seq<byte>, n: nat, at: nat)
    requires n <= |file|
    ensures FromPrefix(ReadHead(file[..n], at), ReadHead(file, at), n)
  {
    PrefixName(file, n, at);
    var name := ReadName(file[..n], at);
    if name.Some? {
      PrefixBytes(file, n, name.value.1, 4);
      PrefixBytes(file, n, name.value.1 + 4, 4);
      PrefixBytes(file, n, name.value.1 + 8, 4);
    }
  }

  lemma {:induction false} PrefixMeta(file: seq<byte>, n: nat, at: nat)
    requires n <= |file|
    ensures FromPrefix(ReadMeta(file[..n], at), ReadMeta(file, at), n)
  {
    PrefixHead(file, n, at);
    var head := ReadHead(file[..n], at);
    if head.Some? {
      PrefixList(file, n, head.value.1);
      var calls := ReadList(file[..n], head.value.1);
      if calls.Some? { PrefixList(file, n, calls.value.1); }
    }
  }

  lemma {:induction false} PrefixMetas(part: nat -> Read<Meta>, whole: nat -> Read<Meta>, n: nat, at: nat, k: nat,
                                       ms: seq<Meta>)
    requires at <= n && forall at: nat :: FromPrefix(part(at), whole(at), n)
    ensures FromPrefix(ReadMany(part, at, k, ms), ReadMany(whole, at, k, ms), n)
    decreases k
  {
    if k > 0 {
      var m := part(at);
      assert FromPrefix(part(at), whole(at), n);
      if m.Some? { PrefixMetas(part, whole, n, m.value.1, k - 1, ms + [m.value.0]); }
    }
  }

  /** A file cut short anywhere is rejected as a whole. */
  lemma {:induction false} TruncatedIsRejected(ms: seq<Meta>, n: nat)
    requires AllSized(ms) && n < |FileBytes(ms)|
    ensures ReadFile(FileBytes(ms)[..n]) == None && Loaded(FileBytes(ms)[..n]) == []
  {
    var file := FileBytes(ms);
    RoundTrip(ms, []);
    assert file + [] == file;
    PrefixBytes(file, n, 0, 4);
    var word := ReadWord(file[..n], 0);
    if word.Some? {
      forall at: nat ensures FromPrefix(ReadMeta(file[..n], at), ReadMeta(file, at), n) { PrefixMeta(file, n, at); }
      PrefixMetas(MetaReader(file[..n]), MetaReader(file), n, word.value.1, word.value.0, []);
    }
  }
}
