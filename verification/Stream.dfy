/** Byte streams as the caches use them: words low byte first, and reads that fail past the
    end (src/ast_serde.c, buf_append, safe_fread and read_mem). */
module Stream {
  import opened Ast

  const U32: nat := 0x1_0000_0000

  /** Byte `k` of a number, the low byte being byte 0. */
  function Digit(n: nat, k: nat): byte
    decreases k, n
  {
    if k == 0 then n % 0x100 else Digit(n / 0x100, k - 1)
  }

  /** A 32-bit word, low byte first. */
  function WordBytes(n: u32): (r: seq<byte>)
    ensures |r| == 4
  {
    [Digit(n, 0), Digit(n, 1), Digit(n, 2), Digit(n, 3)]
  }

  /** What a read yields and the position after it; None past the end of the file. */
  type Read<T> = Option<(T, nat)>

  function ReadBytes(file: seq<byte>, at: nat, n: nat): Read<seq<byte>> {
    if at + n <= |file| then Some((file[at..at + n], at + n)) else None
  }

  function Word(b: seq<byte>): u32
    requires |b| == 4
  {
    var b0: nat, b1: nat, b2: nat, b3: nat := b[0], b[1], b[2], b[3];
    b0 + 0x100 * b1 + 0x1_0000 * b2 + 0x100_0000 * b3
  }

  function ReadWord(file: seq<byte>, at: nat): Read<u32> {
    match ReadBytes(file, at, 4)
    case None => None
    case Some((b, at')) => Some((Word(b), at'))
  }

  /** `n` values, each read by `read` where the one before it ended, after `earlier`. */
  function ReadMany<T>(read: nat -> Read<T>, at: nat, n: nat, earlier: seq<T>): (r: Read<seq<T>>)
    ensures r.Some? ==> |r.value.0| == |earlier| + n
    decreases n, at
  {
    if n == 0 then Some((earlier, at))
    else match read(at)
      case None => None
      case Some((t, at')) => ReadMany(read, at', n - 1, earlier + [t])
  }

  ghost predicate Occurs(file: seq<byte>, at: nat, s: seq<byte>) {
    at + |s| <= |file| && file[at..at + |s|] == s
  }

  lemma {:induction false} OccursSplit(file: seq<byte>, at: nat, a: seq<byte>, b: seq<byte>)
    requires Occurs(file, at, a + b)
    ensures Occurs(file, at, a) && Occurs(file, at + |a|, b)
  {
    assert file[at..at + |a|] == file[at..at + |a + b|][..|a|];
    assert file[at + |a|..at + |a| + |b|] == file[at..at + |a + b|][|a|..];
  }

  lemma {:induction false} WordBack(n: u32)
    ensures Word(WordBytes(n)) == n
  {
    var a, b, c := n / 0x100, n / 0x100 / 0x100, n / 0x100 / 0x100 / 0x100;
    assert Digit(n, 0) == n % 0x100 && Digit(n, 1) == Digit(a, 0) == a % 0x100;
    assert Digit(n, 2) == Digit(a, 1) == Digit(b, 0) == b % 0x100;
    assert Digit(n, 3) == Digit(a, 2) == Digit(b, 1) == Digit(c, 0) == c % 0x100;
  }

  lemma {:induction false} ReadWordBack(file: seq<byte>, at: nat, n: u32)
    requires Occurs(file, at, WordBytes(n))
    ensures ReadWord(file, at) == Some((n, at + 4))
  {
    WordBack(n);
  }

  function ManyBytes<T>(enc: T -> seq<byte>, ts: seq<T>): seq<byte> {
    if ts == [] then [] else enc(ts[0]) + ManyBytes(enc, ts[1..])
  }

  lemma {:induction false} ManyBytesFrom<T>(enc: T -> seq<byte>, ts: seq<T>, i: nat)
    requires i < |ts|
    ensures ManyBytes(enc, ts[i..]) == enc(ts[i]) + ManyBytes(enc, ts[i + 1..])
  {
    assert ts[i..][1..] == ts[i + 1..];
  }

  function Map<T, U>(f: T -> U, ts: seq<T>): (r: seq<U>)
    ensures |r| == |ts| && forall i :: 0 <= i < |ts| ==> r[i] == f(ts[i])
  {
    if ts == [] then [] else [f(ts[0])] + Map(f, ts[1..])
  }

  /** If `t` occurs at `at` as `enc` writes it, `read` gives `back(t)` there. */
  ghost predicate ReadsBackAt<T, U>(read: nat -> Read<U>, file: seq<byte>, enc: T -> seq<byte>, back: T -> U,
                                    ok: T -> bool, at: nat, t: T) {
    ok(t) && Occurs(file, at, enc(t)) ==> read(at) == Some((back(t), at + |enc(t)|))
  }

  /** `read` gives `back` of what was written, wherever that occurs in the file. */
  ghost predicate ReadsBack<T(!new), U>(read: nat -> Read<U>, file: seq<byte>, enc: T -> seq<byte>, back: T -> U,
                                        ok: T -> bool) {
    forall at: nat, t :: ReadsBackAt(read, file, enc, back, ok, at, t)
  }

  lemma {:induction false} ReadHere<T(!new), U>(read: nat -> Read<U>, file: seq<byte>, enc: T -> seq<byte>,
                                      back: T -> U,
                                                ok: T -> bool, at: nat, t: T)
    requires ReadsBack(read, file, enc, back, ok) && ok(t) && Occurs(file, at, enc(t))
    ensures read(at) == Some((back(t), at + |enc(t)|))
  {
    assert ReadsBackAt(read, file, enc, back, ok, at, t);
  }

  lemma {:induction false} ReadManyBack<T(!new), U>(read: nat -> Read<U>, file: seq<byte>, at: nat, enc: T -> seq<byte>,
                                                    back: T -> U, ok: T -> bool, ts: seq<T>, earlier: seq<U>)
    requires ReadsBack(read, file, enc, back, ok) && (forall i :: 0 <= i < |ts| ==> ok(ts[i]))
    requires Occurs(file, at, ManyBytes(enc, ts))
    ensures ReadMany(read, at, |ts|, earlier) == Some((earlier + Map(back, ts), at + |ManyBytes(enc, ts)|))
    decreases |ts|
  {
    if ts == [] {
      assert earlier + Map(back, ts) == earlier;
    } else {
      OccursSplit(file, at, enc(ts[0]), ManyBytes(enc, ts[1..]));
      ReadHere(read, file, enc, back, ok, at, ts[0]);
      ReadManyBack(read, file, at + |enc(ts[0])|, enc, back, ok, ts[1..], earlier + [back(ts[0])]);
      Assoc(earlier, [back(ts[0])], Map(back, ts[1..]));
    }
  }

  function Same<T>(): T -> T {
    t => t
  }

  lemma {:induction false} MapSame<T>(ts: seq<T>)
    ensures Map(Same(), ts) == ts
  {
  }

  lemma {:induction false} ReadManySame<T(!new)>(read: nat -> Read<T>, file: seq<byte>, at: nat, enc: T -> seq<byte>,
                                                 ok: T -> bool, ts: seq<T>)
    requires ReadsBack(read, file, enc, Same(), ok) && forall i :: 0 <= i < |ts| ==> ok(ts[i])
    requires Occurs(file, at, ManyBytes(enc, ts))
    ensures ReadMany(read, at, |ts|, []) == Some((ts, at + |ManyBytes(enc, ts)|))
  {
    ReadManyBack(read, file, at, enc, Same(), ok, ts, []);
    MapSame(ts);
    assert [] + ts == ts;
  }

  // ---------------------------------------------------------------- files of counted values

  function CountedBytes<T>(enc: T -> seq<byte>, ts: seq<T>): seq<byte> {
    WordBytes(|ts| % U32) + ManyBytes(enc, ts)
  }

  function ReadCounted<T>(read: nat -> Read<T>, file: seq<byte>): Read<seq<T>> {
    match ReadWord(file, 0)
    case None => None
    case Some((n, at)) => ReadMany(read, at, n, [])
  }

  /** A file that begins with a count and then that many values. */
  lemma {:induction false} CountedReadBack<T(!new), U>(file: seq<byte>, read: nat -> Read<U>, enc: T -> seq<byte>,
                                                       back: T -> U, ok: T -> bool, ts: seq<T>)
    requires |ts| < U32 && Occurs(file, 0, CountedBytes(enc, ts))
    requires ReadsBack(read, file, enc, back, ok) && forall i :: 0 <= i < |ts| ==> ok(ts[i])
    ensures ReadCounted(read, file) == Some((Map(back, ts), |CountedBytes(enc, ts)|))
  {
    OccursSplit(file, 0, WordBytes(|ts|), ManyBytes(enc, ts));
    ReadWordBack(file, 0, |ts|);
    ReadManyBack(read, file, 4, enc, back, ok, ts, []);
    assert [] + Map(back, ts) == Map(back, ts);
  }
}
