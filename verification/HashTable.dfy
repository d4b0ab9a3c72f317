/** The chained hash table of src/data_structures/hashmap/hashmap.c: entries linked from an
    array of buckets, rehashed into twice as many when three quarters full. */
module HashTable {
  import opened Ast
  import NodeHash

  datatype Key = Key(bytes: seq<byte>)

  // ---------------------------------------------------------------- comparing keys

  /** strncmp over the first `n` bytes of both finds no difference: it stops at a NUL. */
  predicate StrncmpEqual(a: seq<byte>, b: seq<byte>, n: nat)
    requires n <= |a| && n <= |b|
  {
    n == 0 || (a[0] == b[0] && (a[0] == 0 || StrncmpEqual(a[1..], b[1..], n - 1)))
  }

  predicate Matches(a: Key, b: Key) {
    |a.bytes| == |b.bytes| && StrncmpEqual(a.bytes, b.bytes, |b.bytes|)
  }

  /** `n` is where the text of a key ends for strncmp: at its first NUL, or at its end. */
  predicate TextEnds(a: seq<byte>, n: nat) {
    n <= |a| && (n < |a| ==> a[n] == 0) && forall i :: 0 <= i < n ==> a[i] != 0
  }

  predicate NulFree(k: Key) {
    forall i :: 0 <= i < |k.bytes| ==> k.bytes[i] != 0
  }

  /** Two keys match exactly when they are of one length and agree up to the end of the text. */
  lemma {:induction false} MatchesUpToNul(a: seq<byte>, b: seq<byte>, n: nat)
    requires |a| == |b| && TextEnds(b, n)
    ensures StrncmpEqual(a, b, |b|) <==> a[..n] == b[..n] && (n < |b| ==> a[n] == 0)
    decreases |b|
  {
    if n > 0 {
      assert TextEnds(b[1..], n - 1) by {
        forall i | 0 <= i < n - 1 ensures b[1..][i] != 0 { assert b[1..][i] == b[i + 1]; }
      }
      MatchesUpToNul(a[1..], b[1..], n - 1);
      assert a[..n] == [a[0]] + a[1..][..n - 1] && b[..n] == [b[0]] + b[1..][..n - 1];
    }
  }

  /** On keys without a NUL the comparison is equality. */
  lemma {:induction false} MatchIsEquality(a: Key, b: Key)
    requires NulFree(b)
    ensures Matches(a, b) <==> a == b
  {
    if |a.bytes| == |b.bytes| {
      MatchesUpToNul(a.bytes, b.bytes, |b.bytes|);
      assert a.bytes[..|b.bytes|] == a.bytes && b.bytes[..|b.bytes|] == b.bytes;
    }
  }

  /** The part of a key that is compared: up to its first NUL. */
  function Text(a: seq<byte>): (r: seq<byte>)
    ensures |r| <= |a| && r == a[..|r|] && TextEnds(a, |r|)
  {
    if a == [] || a[0] == 0 then []
    else
      var r := Text(a[1..]);
      assert [a[0]] + r == a[..|r| + 1];
      [a[0]] + r
  }

  lemma {:induction false} TextIsUnique(a: seq<byte>, n: nat)
    requires TextEnds(a, n)
    ensures n == |Text(a)|
  {
    var m := |Text(a)|;
    assert TextEnds(a, m);
  }

  /** So matching is an equivalence. */
  lemma {:induction false} MatchIsSameText(a: Key, b: Key)
    ensures Matches(a, b) <==> |a.bytes| == |b.bytes| && Text(a.bytes) == Text(b.bytes)
  {
    if |a.bytes| == |b.bytes| {
      var n := |Text(b.bytes)|;
      MatchesUpToNul(a.bytes, b.bytes, n);
      if Matches(a, b) {
        assert forall i :: 0 <= i < n ==> a.bytes[i] == a.bytes[..n][i] == b.bytes[..n][i];
        TextIsUnique(a.bytes, n);
      }
    }
  }

  // ---------------------------------------------------------------- the table as a map

  class HashEntry<V> {
    const key: Key
    var value: V
    var next: HashEntry?<V>

    constructor (key: Key, value: V)
      ensures this.key == key && this.value == value && this.next == null
    {
      this.key, this.value, this.next := key, value, null;
    }
  }

  /** The bucket of each key: its FNV-1a hash modulo the capacity. */
  function Index(capacity: nat): (index: Key -> nat)
    requires capacity > 0
    ensures forall key :: index(key) < capacity
  {
    (key: Key) => NodeHash.HashBytes(key.bytes) % capacity
  }

  // ---------------------------------------------------------------- what the table takes for one key

  /** The table takes key `b` for key `a`: they match, and lie in one bucket. */
  predicate Conflated(index: Key -> nat, a: Key, b: Key) {
    Matches(a, b) && index(a) == index(b)
  }

  /** The key under which the value of `key` is kept. */
  ghost function Slot<V>(contents: map<Key, V>, index: Key -> nat, key: Key): Key {
    if a :| a in contents && Conflated(index, a, key) then a else key
  }

  /** No two keys of the map are taken for one. */
  ghost predicate Apart<V>(contents: map<Key, V>, index: Key -> nat) {
    forall a, b :: a in contents && b in contents && a != b ==> !Conflated(index, a, b)
  }

  lemma {:induction false} SlotIs<V>(contents: map<Key, V>, index: Key -> nat, key: Key, a: Key)
    requires Apart(contents, index) && a in contents && Conflated(index, a, key)
    ensures Slot(contents, index, key) == a
  {
    var s := Slot(contents, index, key);
    MatchIsSameText(a, key);
    MatchIsSameText(s, key);
    MatchIsSameText(s, a);
  }

  lemma {:induction false} SlotIsNew<V>(contents: map<Key, V>, index: Key -> nat, key: Key)
    requires forall a :: a in contents ==> !Conflated(index, a, key)
    ensures Slot(contents, index, key) == key && key !in contents
  {
    MatchIsSameText(key, key);
  }

  /** A key without a NUL is kept under itself. */
  lemma {:induction false} SlotIsKey<V>(contents: map<Key, V>, index: Key -> nat, key: Key)
    requires NulFree(key)
    ensures Slot(contents, index, key) == key
  {
    MatchIsEquality(Slot(contents, index, key), key);
  }

  /** Of a map with the one key `a`, the table finds `b` exactly when the two have one length,
      the same text up to the first NUL, and hashes that are equal modulo the capacity. */
  lemma {:induction false} FoundExactlyWhen<V>(a: Key, b: Key, value: V, capacity: nat)
    requires capacity > 0
    ensures Slot(map[a := value], Index(capacity), b) in map[a := value] <==>
            && |a.bytes| == |b.bytes| && Text(a.bytes) == Text(b.bytes)
            && NodeHash.HashBytes(a.bytes) % capacity == NodeHash.HashBytes(b.bytes) % capacity
  {
    var index := Index(capacity);
    var contents := map[a := value];
    MatchIsSameText(a, b);
    MatchIsSameText(b, b);
    if Conflated(index, a, b) {
      assert a in contents;
      SlotIs(contents, index, b, a);
    } else if a != b {
      SlotIsNew(contents, index, b);
    }
  }

  lemma {:induction false} Pigeonhole(f: nat -> nat, n: nat) returns (i: nat, j: nat)
    requires forall k: nat :: k <= n ==> f(k) < n
    ensures i < j <= n && f(i) == f(j)
  {
    assert f(n) < n;
    if k: nat :| k < n && f(k) == f(n) {
      i, j := k, n;
    } else {
      var g := (k: nat) => if f(k) < f(n) then f(k) else if f(k) > 0 then f(k) - 1 else 0;
      forall k: nat | k <= n - 1 ensures g(k) < n - 1 { assert f(k) < n && f(k) != f(n); }
      i, j := Pigeonhole(g, n - 1);
      assert f(i) != f(n) && f(j) != f(n);
    }
  }

  /** A NUL, then zeros but for a one at position `i`. */
  function NulKey(length: nat, i: nat): Key {
    Key([0] + seq(length, j => if j == i then 1 else 0))
  }

  /** Whatever the capacity, there are two keys that the table takes for one. */
  lemma {:induction false} NulConflates(capacity: nat) returns (a: Key, b: Key)
    requires capacity > 0
    ensures a != b && Conflated(Index(capacity), a, b)
  {
    var index, length := Index(capacity), capacity + 1;
    var f := (i: nat) => index(NulKey(length, i));
    forall k: nat | k <= capacity ensures f(k) < capacity { assert index(NulKey(length, k)) < capacity; }
    var i, j := Pigeonhole(f, capacity);
    a, b := NulKey(length, i), NulKey(length, j);
    assert a.bytes[i + 1] == 1 && b.bytes[i + 1] == 0;
    MatchesUpToNul(a.bytes, b.bytes, 0);
  }

  function At<V>(c: seq<HashEntry<V>>, k: nat): HashEntry?<V> {
    if k < |c| then c[k] else null
  }

  /** `head` is the first of the entries of `c`, from position `from` on, linked in order. */
  ghost predicate Linked<V>(head: HashEntry?<V>, c: seq<HashEntry<V>>, from: nat)
    reads c
  {
    head == At(c, from) && forall k {:trigger c[k].next} :: from <= k < |c| ==> c[k].next == At(c, k + 1)
  }

  ghost predicate HasKey<V>(c: seq<HashEntry<V>>, key: Key) {
    exists k :: 0 <= k < |c| && c[k].key == key
  }

  /** The entries of bucket `i` have different keys of the map, each with its index there. */
  ghost predicate Filed<V>(c: seq<HashEntry<V>>, i: nat, index: Key -> nat, contents: map<Key, V>) {
    && (forall k :: 0 <= k < |c| ==> c[k].key in contents && index(c[k].key) == i)
    && forall k, l :: 0 <= k < l < |c| ==> c[k].key != c[l].key
  }

  /** Every entry is in the bucket of its key, once, and every key of the map has one. */
  ghost predicate AllFiled<V>(chains: seq<seq<HashEntry<V>>>, index: Key -> nat, contents: map<Key, V>) {
    && (forall key :: index(key) < |chains|)
    && (forall i :: 0 <= i < |chains| ==> Filed(chains[i], i, index, contents))
    && forall key :: key in contents ==> HasKey(chains[index(key)], key)
  }

  /** Every entry has the value of its key. */
  ghost predicate Valued<V>(c: seq<HashEntry<V>>, contents: map<Key, V>)
    reads c
  {
    forall k :: 0 <= k < |c| && c[k].key in contents ==> c[k].value == contents[c[k].key]
  }

  ghost predicate Within<V>(c: seq<HashEntry<V>>, entries: set<HashEntry<V>>) {
    forall k :: 0 <= k < |c| ==> c[k] in entries
  }

  /** The buckets hold the entries of `chains`, all among `entries`, and these are the map
      `contents`. */
  ghost predicate Table<V>(buckets: array<HashEntry?<V>>, chains: seq<seq<HashEntry<V>>>, entries: set<HashEntry<V>>,
                           contents: map<Key, V>, index: Key -> nat)
    reads buckets, entries
  {
    && |chains| == buckets.Length && AllFiled(chains, index, contents)
    && (forall i :: 0 <= i < |chains| ==> Within(chains[i], entries) && Linked(buckets[i], chains[i], 0))
    && (forall i :: 0 <= i < |chains| ==> Within(chains[i], entries) && Valued(chains[i], contents))
  }

  /** Puts an entry of a new key first in its bucket, as map_set and map_resize both do. */
  method Prepend<V>(entry: HashEntry<V>, buckets: array<HashEntry?<V>>, ghost chains: seq<seq<HashEntry<V>>>,
                    ghost entries: set<HashEntry<V>>, ghost contents: map<Key, V>, index: Key -> nat)
    returns (ghost chains': seq<seq<HashEntry<V>>>)
    requires Table(buckets, chains, entries, contents, index) && entry.key !in contents
    modifies buckets, entry`next
    ensures Table(buckets, chains', entries + {entry}, contents[entry.key := entry.value], index)
  {
    var i := index(entry.key);
    chains' := chains[i := [entry] + chains[i]];
    FiledWith(chains, index, contents, i, entry, entry.value);
    entry.next := buckets[i];
    buckets[i] := entry;
    ghost var contents' := contents[entry.key := entry.value];
    forall j | 0 <= j < |chains| ensures Within(chains'[j], entries + {entry}) && Linked(buckets[j], chains'[j], 0) {
      assert Within(chains[j], entries) && old(Linked(buckets[j], chains[j], 0));
    }
    forall j | 0 <= j < |chains| ensures Valued(chains'[j], contents') {
      assert Filed(chains[j], j, index, contents) && old(Valued(chains[j], contents));
    }
  }

  lemma {:induction false} FiledWith<V>(chains: seq<seq<HashEntry<V>>>, index: Key -> nat, contents: map<Key, V>,
                                        i: nat,
                     entry: HashEntry<V>, value: V)
    requires AllFiled(chains, index, contents) && i == index(entry.key) && entry.key !in contents
    ensures AllFiled(chains[i := [entry] + chains[i]], index, contents[entry.key := value])
    ensures forall j, k :: 0 <= j < |chains| && 0 <= k < |chains[j]| ==> chains[j][k] != entry
  {
    var chains', contents' := chains[i := [entry] + chains[i]], contents[entry.key := value];
    forall j | 0 <= j < |chains| ensures Filed(chains'[j], j, index, contents') {
      assert Filed(chains[j], j, index, contents);
    }
    forall key | key in contents ensures HasKey(chains'[index(key)], key) {
      var c := chains[index(key)];
      var k :| 0 <= k < |c| && c[k].key == key;
      assert ([entry] + c)[k + 1].key == key;
    }
    assert chains'[i][0].key == entry.key;
    forall j, k | 0 <= j < |chains| && 0 <= k < |chains[j]| ensures chains[j][k] != entry {
      assert Filed(chains[j], j, index, contents);
    }
  }

  // ---------------------------------------------------------------- moving to more buckets

  ghost function Only<V>(contents: map<Key, V>, keys: set<Key>): map<Key, V> {
    map key | key in contents && key in keys :: contents[key]
  }

  ghost function KeysOf<V>(c: seq<HashEntry<V>>): set<Key> {
    set k | 0 <= k < |c| :: c[k].key
  }

  /** The part of the map moved along with the first `k` entries of a chain. */
  ghost function Moved<V>(contents: map<Key, V>, done: set<Key>, c: seq<HashEntry<V>>, k: nat): map<Key, V>
    requires k <= |c|
  {
    Only(contents, done + KeysOf(c[..k]))
  }

  /** Moves the entries of a chain, first to last, into new buckets. */
  method MoveChain<V>(head: HashEntry?<V>, ghost c: seq<HashEntry<V>>, ghost entries: set<HashEntry<V>>,
                      ghost contents: map<Key, V>, bs: array<HashEntry?<V>>, ghost cs: seq<seq<HashEntry<V>>>,
                      ghost done: set<Key>, index: Key -> nat)
    returns (ghost cs': seq<seq<HashEntry<V>>>)
    requires Within(c, entries) && Linked(head, c, 0) && Table(bs, cs, entries, Only(contents, done), index)
    requires forall k :: 0 <= k < |c| ==> c[k].key in contents && c[k].value == contents[c[k].key] && c[k].key !in done
    requires forall k, l :: 0 <= k < l < |c| ==> c[k].key != c[l].key
    modifies bs, (set e | e in c)`next
    ensures Table(bs, cs', entries, Only(contents, done + KeysOf(c)), index)
  {
    cs' := cs;
    var entry := head;
    ghost var k := 0;
    assert c[..0] == [] && done + KeysOf(c[..0]) == done;
    while entry != null
      invariant k <= |c| && Linked(entry, c, k)
      invariant Table(bs, cs', entries, Moved(contents, done, c, k), index)
      decreases |c| - k
    {
      var next := entry.next;
      MovedGrows(contents, done, c, k);
      assert entries + {entry} == entries;
      cs' := Prepend(entry, bs, cs', entries, Moved(contents, done, c, k), index);
      entry, k := next, k + 1;
    }
    assert c[..k] == c;
  }

  lemma {:induction false} MovedGrows<V>(contents: map<Key, V>, done: set<Key>, c: seq<HashEntry<V>>, k: nat)
    requires k < |c| && c[k].key in contents && c[k].key !in done
    requires forall k, l :: 0 <= k < l < |c| ==> c[k].key != c[l].key
    ensures c[k].key !in Moved(contents, done, c, k)
    ensures Moved(contents, done, c, k + 1) == Moved(contents, done, c, k)[c[k].key := contents[c[k].key]]
  {
    KeysGrow(c, k);
  }

  lemma {:induction false} KeysGrow<V>(c: seq<HashEntry<V>>, k: nat)
    requires k < |c|
    ensures KeysOf(c[..k + 1]) == KeysOf(c[..k]) + {c[k].key}
  {
    forall key | key in KeysOf(c[..k + 1]) ensures key in KeysOf(c[..k]) + {c[k].key} {
      var l :| 0 <= l < k + 1 && c[..k + 1][l].key == key;
      if l < k { assert c[..k][l].key == key; }
    }
    forall key | key in KeysOf(c[..k]) + {c[k].key} ensures key in KeysOf(c[..k + 1]) {
      if key == c[k].key {
        assert c[..k + 1][k].key == key;
      } else {
        var l :| 0 <= l < k && c[..k][l].key == key;
        assert c[..k + 1][l].key == key;
      }
    }
  }

  /** The keys moved are those of the first `i` chains. */
  ghost predicate DoneUpTo<V>(chains: seq<seq<HashEntry<V>>>, done: set<Key>, i: nat) {
    forall j, k :: 0 <= j < |chains| && 0 <= k < |chains[j]| ==> (chains[j][k].key in done <==> j < i)
  }

  lemma {:induction false} DoneGrows<V>(chains: seq<seq<HashEntry<V>>>, index: Key -> nat, contents: map<Key, V>,
                                        done: set<Key>, i: nat)
    requires AllFiled(chains, index, contents) && DoneUpTo(chains, done, i) && i < |chains|
    ensures DoneUpTo(chains, done + KeysOf(chains[i]), i + 1)
  {
    forall j, k | 0 <= j < |chains| && 0 <= k < |chains[j]|
      ensures chains[j][k].key in done + KeysOf(chains[i]) <==> j < i + 1
    {
      assert Filed(chains[j], j, index, contents) && Filed(chains[i], i, index, contents);
    }
  }

  /** No later chain shares an entry with chain `i`. */
  lemma {:induction false} ChainsApart<V>(chains: seq<seq<HashEntry<V>>>, index: Key -> nat, contents: map<Key, V>,
                                          i: nat)
    requires i < |chains| && forall j :: i <= j < |chains| ==> Filed(chains[j], j, index, contents)
    ensures forall j, l :: i < j < |chains| && 0 <= l < |chains[j]| ==> chains[j][l] !in chains[i]
  {
    forall j, l | i < j < |chains| && 0 <= l < |chains[j]| ensures chains[j][l] !in chains[i] {
      assert Filed(chains[i], i, index, contents) && Filed(chains[j], j, index, contents);
    }
  }

  /** Moves the entries of all buckets, first to last. */
  method MoveAll<V>(buckets: array<HashEntry?<V>>, ghost chains: seq<seq<HashEntry<V>>>,
                    ghost entries: set<HashEntry<V>>,
                    ghost contents: map<Key, V>, ghost oldIndex: Key -> nat, bs: array<HashEntry?<V>>,
                    index: Key -> nat)
    returns (ghost cs: seq<seq<HashEntry<V>>>)
    requires Table(buckets, chains, entries, contents, oldIndex) && buckets != bs
    requires (forall key :: index(key) < bs.Length) && forall i :: 0 <= i < bs.Length ==> bs[i] == null
    modifies bs, entries`next
    ensures Table(bs, cs, entries, contents, index)
  {
    cs := seq(bs.Length, _ => []);
    ghost var done: set<Key> := {};
    assert Only(contents, {}) == map[];
    for i := 0 to buckets.Length
      invariant Table(bs, cs, entries, Only(contents, done), index) && DoneUpTo(chains, done, i)
      invariant forall j :: i <= j < |chains| ==> Within(chains[j], entries) && Linked(buckets[j], chains[j], 0)
      invariant forall j :: i <= j < |chains| ==> Filed(chains[j], j, oldIndex, contents) && Valued(chains[j], contents)
    {
      ChainsApart(chains, oldIndex, contents, i);
      cs := MoveChain(buckets[i], chains[i], entries, contents, bs, cs, done, index);
      DoneGrows(chains, oldIndex, contents, done, i);
      done := done + KeysOf(chains[i]);
    }
    assert Only(contents, done) == contents;
  }

  // ---------------------------------------------------------------- one chain

  /** The entry is at position `k` of chain `i`. */
  ghost predicate Holds<V>(chains: seq<seq<HashEntry<V>>>, i: nat, k: nat, entry: HashEntry<V>) {
    i < |chains| && k < |chains[i]| && chains[i][k] == entry
  }

  /** Walks the chain of a key to its entry, keeping the one before it. */
  method Search<V>(key: Key, buckets: array<HashEntry?<V>>, ghost chains: seq<seq<HashEntry<V>>>,
                   ghost entries: set<HashEntry<V>>, ghost contents: map<Key, V>, index: Key -> nat)
    returns (entry: HashEntry?<V>, prev: HashEntry?<V>, ghost k: nat)
    requires Table(buckets, chains, entries, contents, index) && Apart(contents, index)
    ensures entry == null <==> Slot(contents, index, key) !in contents
    ensures entry == null ==> forall a :: a in contents ==> !Conflated(index, a, key)
    ensures entry != null ==> entry.key == Slot(contents, index, key) && index(entry.key) == index(key)
    ensures entry != null ==> entry in entries && entry.value == contents[entry.key]
    ensures entry != null ==> Holds(chains, index(entry.key), k, entry)
    ensures entry != null ==> prev == if k == 0 then null else chains[index(entry.key)][k - 1]
  {
    var i := index(key);
    ghost var c := chains[i];
    entry, prev, k := buckets[i], null, 0;
    while entry != null
      invariant k <= |c| && Linked(entry, c, k)
      invariant prev == if k == 0 then null else c[k - 1]
      invariant forall l :: 0 <= l < k ==> !Matches(c[l].key, key)
      decreases |c| - k
    {
      if Matches(entry.key, key) {
        assert Filed(c, i, index, contents) && Within(c, entries) && Valued(c, contents);
        SlotIs(contents, index, key, entry.key);
        return;
      }
      prev, entry, k := entry, entry.next, k + 1;
    }
    NotFiled(chains, index, contents, key);
    SlotIsNew(contents, index, key);
  }

  /** A key that matches nothing in its bucket is not in the map. */
  lemma {:induction false} NotFiled<V>(chains: seq<seq<HashEntry<V>>>, index: Key -> nat, contents: map<Key, V>,
                                       key: Key)
    requires AllFiled(chains, index, contents)
    requires var c := chains[index(key)]; forall l :: 0 <= l < |c| ==> !Matches(c[l].key, key)
    ensures forall a :: a in contents ==> !Conflated(index, a, key)
  {
    forall a | a in contents && index(a) == index(key) ensures !Matches(a, key) {
      var c := chains[index(a)];
      assert HasKey(c, a);
      var l :| 0 <= l < |c| && c[l].key == a;
    }
  }

  method ChangeValue<V>(ghost buckets: array<HashEntry?<V>>, ghost chains: seq<seq<HashEntry<V>>>,
                        ghost entries: set<HashEntry<V>>, ghost contents: map<Key, V>, ghost index: Key -> nat,
                        ghost k: nat, entry: HashEntry<V>, value: V)
    requires Table(buckets, chains, entries, contents, index) && Holds(chains, index(entry.key), k, entry)
    modifies entry`value
    ensures Table(buckets, chains, entries, contents[entry.key := value], index)
  {
    entry.value := value;
    forall j | 0 <= j < |chains| ensures Linked(buckets[j], chains[j], 0) {
      assert old(Linked(buckets[j], chains[j], 0));
    }
    forall j | 0 <= j < |chains| ensures Valued(chains[j], contents[entry.key := value]) {
      assert Filed(chains[j], j, index, contents) && old(Valued(chains[j], contents));
    }
    FiledSame(chains, index, contents, entry.key, value);
  }

  lemma {:induction false} FiledSame<V>(chains: seq<seq<HashEntry<V>>>, index: Key -> nat, contents: map<Key, V>,
                                        key: Key, value: V)
    requires AllFiled(chains, index, contents) && key in contents
    ensures AllFiled(chains, index, contents[key := value])
  {
    forall j | 0 <= j < |chains| ensures Filed(chains[j], j, index, contents[key := value]) {
      assert Filed(chains[j], j, index, contents);
    }
  }

  ghost function Without<T>(c: seq<T>, k: nat): (r: seq<T>)
    requires k < |c|
    ensures |r| == |c| - 1 && forall l :: 0 <= l < |r| ==> r[l] == c[if l < k then l else l + 1]
  {
    c[..k] + c[k + 1..]
  }

  lemma {:induction false} WithoutHas<V>(c: seq<HashEntry<V>>, k: nat, key: Key)
    requires k < |c| && HasKey(c, key) && c[k].key != key
    ensures HasKey(Without(c, k), key)
  {
    var l :| 0 <= l < |c| && c[l].key == key;
    assert Without(c, k)[if l < k then l else l - 1] == c[l];
  }

  lemma {:induction false} FiledWithout<V>(chains: seq<seq<HashEntry<V>>>, index: Key -> nat, contents: map<Key, V>,
                                           i: nat, k: nat)
    requires AllFiled(chains, index, contents) && i < |chains| && k < |chains[i]|
    ensures AllFiled(chains[i := Without(chains[i], k)], index, Less(contents, chains[i][k].key))
  {
    var chains', contents' := chains[i := Without(chains[i], k)], Less(contents, chains[i][k].key);
    assert Filed(chains[i], i, index, contents);
    forall j | 0 <= j < |chains| ensures Filed(chains'[j], j, index, contents') {
      assert Filed(chains[j], j, index, contents);
    }
    forall key | key in contents' ensures HasKey(chains'[index(key)], key) {
      if index(key) == i { WithoutHas(chains[i], k, key); }
    }
  }

  ghost function Less<V>(contents: map<Key, V>, key: Key): map<Key, V> {
    map k | k in contents && k != key :: contents[k]
  }

  lemma {:induction false} LessIsSmaller<V>(contents: map<Key, V>, key: Key)
    ensures key in contents ==> |Less(contents, key)| == |contents| - 1
    ensures key !in contents ==> Less(contents, key) == contents
  {
    assert Less(contents, key).Keys == contents.Keys - {key};
  }

  /** Links past an entry, given the one before it. */
  method LinkPast<V>(head: HashEntry?<V>, ghost c: seq<HashEntry<V>>, ghost k: nat, entry: HashEntry<V>,
                     prev: HashEntry?<V>)
    returns (head': HashEntry?<V>)
    requires Linked(head, c, 0) && k < |c| && c[k] == entry && prev == if k == 0 then null else c[k - 1]
    requires forall l, m :: 0 <= l < m < |c| ==> c[l].key != c[m].key
    modifies (if prev == null then {} else {prev})`next
    ensures Linked(head', Without(c, k), 0)
  {
    if prev != null {
      prev.next := entry.next;
      head' := head;
    } else {
      head' := entry.next;
    }
  }

  lemma {:induction false} OnlyIn<V>(chains: seq<seq<HashEntry<V>>>, index: Key -> nat, contents: map<Key, V>, i: nat,
                                     k: nat)
    requires AllFiled(chains, index, contents) && i < |chains| && k < |chains[i]|
    ensures forall j, l :: 0 <= j < |chains| && 0 <= l < |chains[j]| && chains[j][l] == chains[i][k] ==> j == i
  {
    assert Filed(chains[i], i, index, contents);
    forall j, l | 0 <= j < |chains| && 0 <= l < |chains[j]| && chains[j][l] == chains[i][k] ensures j == i {
      assert Filed(chains[j], j, index, contents);
    }
  }

  /** Takes an entry out of its chain. */
  method Unlink<V>(buckets: array<HashEntry?<V>>, ghost chains: seq<seq<HashEntry<V>>>,
                   ghost entries: set<HashEntry<V>>,
                   ghost contents: map<Key, V>, index: Key -> nat, ghost k: nat, entry: HashEntry<V>,
                   prev: HashEntry?<V>)
    returns (ghost chains': seq<seq<HashEntry<V>>>)
    requires Table(buckets, chains, entries, contents, index) && Holds(chains, index(entry.key), k, entry)
    requires prev == if k == 0 then null else chains[index(entry.key)][k - 1]
    modifies buckets, entries`next
    ensures Table(buckets, chains', entries, Less(contents, entry.key), index)
  {
    var i := index(entry.key);
    chains' := chains[i := Without(chains[i], k)];
    assert Filed(chains[i], i, index, contents);
    FiledWithout(chains, index, contents, i, k);
    Remaining(chains, chains', entries, contents, entry.key, i, k);
    assert Within(chains[i], entries) && Linked(buckets[i], chains[i], 0);
    if prev != null { OnlyIn(chains, index, contents, i, k - 1); }
    Unhook(buckets, chains, chains', i, k, entry, prev);
    forall j | 0 <= j < |chains| ensures Valued(chains'[j], Less(contents, entry.key)) {
      assert old(Valued(chains'[j], Less(contents, entry.key)));
    }
  }

  /** The chains as they are linked. */
  ghost predicate AllLinked<V>(buckets: array<HashEntry?<V>>, chains: seq<seq<HashEntry<V>>>)
    reads buckets, set j, l | 0 <= j < |chains| && 0 <= l < |chains[j]| :: chains[j][l]
  {
    |chains| == buckets.Length && forall j :: 0 <= j < |chains| ==> Linked(buckets[j], chains[j], 0)
  }

  /** Links past the entry at position `k` of chain `i`, given the one before it. */
  method Unhook<V>(buckets: array<HashEntry?<V>>, ghost chains: seq<seq<HashEntry<V>>>,
                   ghost chains': seq<seq<HashEntry<V>>>, i: nat, ghost k: nat, entry: HashEntry<V>,
                   prev: HashEntry?<V>)
    requires AllLinked(buckets, chains) && i < |chains| && k < |chains[i]| && chains[i][k] == entry
    requires chains' == chains[i := Without(chains[i], k)] && prev == if k == 0 then null else chains[i][k - 1]
    requires forall l, m :: 0 <= l < m < |chains[i]| ==> chains[i][l].key != chains[i][m].key
    requires prev != null ==>
               forall j, l :: 0 <= j < |chains| && 0 <= l < |chains[j]| && chains[j][l] == prev ==> j == i
    modifies buckets, (if prev == null then {} else {prev})`next
    ensures AllLinked(buckets, chains')
  {
    var head := LinkPast(buckets[i], chains[i], k, entry, prev);
    buckets[i] := head;
    forall j | 0 <= j < |chains| ensures Linked(buckets[j], chains'[j], 0) {
      if j != i {
        assert prev !in chains[j];
        assert old(Linked(buckets[j], chains[j], 0));
      }
    }
  }

  /** Without one of them, the entries are still entries, with their values. */
  lemma {:induction false} Remaining<V>(chains: seq<seq<HashEntry<V>>>, chains': seq<seq<HashEntry<V>>>,
                                        entries: set<HashEntry<V>>, contents: map<Key, V>, key: Key, i: nat, k: nat)
    requires i < |chains| && k < |chains[i]| && chains' == chains[i := Without(chains[i], k)]
    requires forall j :: 0 <= j < |chains| ==> Within(chains[j], entries) && Valued(chains[j], contents)
    ensures forall j :: 0 <= j < |chains| ==> Within(chains'[j], entries) && Valued(chains'[j], Less(contents, key))
  {
    forall j | 0 <= j < |chains| ensures Within(chains'[j], entries) && Valued(chains'[j], Less(contents, key)) {
      assert Within(chains[j], entries) && Valued(chains[j], contents);
    }
  }

  /** Keys told apart by a bucket number are told apart by the number in twice as many. */
  lemma {:induction false} ApartLater<V>(contents: map<Key, V>, capacity: nat, more: nat)
    requires capacity > 0 && more == 2 * capacity && Apart(contents, Index(capacity))
    ensures Apart(contents, Index(more))
  {
    forall a, b ensures Conflated(Index(more), a, b) ==> Conflated(Index(capacity), a, b) {
      if Conflated(Index(more), a, b) { ConflatedBefore(a, b, capacity, more); }
    }
  }

  lemma {:induction false} ConflatedBefore(a: Key, b: Key, capacity: nat, more: nat)
    requires capacity > 0 && more == 2 * capacity && Conflated(Index(more), a, b)
    ensures Conflated(Index(capacity), a, b)
  {
    HalfMod(NodeHash.HashBytes(a.bytes), capacity, more);
    HalfMod(NodeHash.HashBytes(b.bytes), capacity, more);
  }

  lemma {:induction false} HalfMod(a: nat, n: nat, m: nat)
    requires n > 0 && m == 2 * n
    ensures a % m % n == a % n
  {
    var q, r := Remainder(a, m);
    var k, s := Remainder(r, n);
    Halves(a, n, m, q, r, k, s);
  }

  lemma {:induction false} Remainder(a: nat, n: nat) returns (q: nat, r: nat)
    requires n > 0
    ensures a == n * q + r && r < n && r == a % n
  {
    DivMod(a, n);
    q, r := a / n, a % n;
  }

  lemma {:induction false} Halves(a: nat, n: nat, m: nat, q: nat, r: nat, k: nat, s: nat)
    requires m == 2 * n && a == m * q + r && r == n * k + s && s < n
    ensures a % n == s
  {
    Quotients(n, m, q, k);
    ModUnique(a, n, 2 * q + k, s);
  }

  lemma {:induction false} DivMod(a: nat, n: nat)
    requires n > 0
    ensures a == n * (a / n) + a % n
  {
  }

  lemma {:induction false} Quotients(n: nat, m: nat, q: nat, k: nat)
    requires m == 2 * n
    ensures m * q + n * k == n * (2 * q + k)
  {
  }

  lemma {:induction false} ModUnique(x: nat, n: nat, q: nat, r: nat)
    requires n > 0 && x == n * q + r && r < n
    ensures x % n == r
  {
    DivMod(x, n);
    var q' := x / n;
    if q > q' { NextMultiple(n, q', q); } else if q < q' { NextMultiple(n, q, q'); }
  }

  lemma {:induction false} NextMultiple(n: nat, a: nat, b: nat)
    requires a < b
    ensures n * a + n <= n * b
    decreases b
  {
    if b > a + 1 { NextMultiple(n, a, b - 1); }
    assert n * b == n * (b - 1) + n;
  }

  lemma {:induction false} ApartWith<V>(contents: map<Key, V>, index: Key -> nat, key: Key, value: V)
    requires Apart(contents, index) && forall a :: a in contents ==> !Conflated(index, a, key)
    ensures Apart(contents[key := value], index)
  {
    forall a | a in contents ensures Matches(a, key) <==> Matches(key, a) {
      MatchIsSameText(a, key);
      MatchIsSameText(key, a);
    }
  }

  class HashMap<V> {
    var buckets: array<HashEntry?<V>>
    var count: nat
    ghost var chains: seq<seq<HashEntry<V>>>
    ghost var entries: set<HashEntry<V>>
    ghost var contents: map<Key, V>

    /** The buckets hold the map, whose keys the table tells apart; the count is exact, and at
        most three quarters of the buckets, rounded down. */
    ghost predicate Valid()
      reads this, buckets, entries
    {
      && buckets.Length > 0 && Table(buckets, chains, entries, contents, Index(buckets.Length))
      && Apart(contents, Index(buckets.Length))
      && count == |contents| <= buckets.Length * 3 / 4
    }

    constructor (capacity: nat)
      requires capacity > 0
      ensures Valid() && contents == map[] && buckets.Length == capacity
      ensures fresh(buckets) && entries == {}
    {
      buckets := new HashEntry?<V>[capacity](_ => null);
      count := 0;
      chains := seq(capacity, _ => []);
      entries := {};
      contents := map[];
    }

    /** Takes over a table, and its number of entries. */
    method Install(bs: array<HashEntry?<V>>, ghost cs: seq<seq<HashEntry<V>>>, ghost es: set<HashEntry<V>>,
                   ghost map': map<Key, V>, n: nat)
      requires bs.Length > 0 && Table(bs, cs, es, map', Index(bs.Length)) && Apart(map', Index(bs.Length))
      requires n == |map'| <= bs.Length * 3 / 4
      modifies this
      ensures Valid() && buckets == bs && entries == es && contents == map' && count == n
    {
      buckets, chains, entries, contents, count := bs, cs, es, map', n;
      forall i | 0 <= i < |cs| ensures Within(cs[i], es) && Linked(bs[i], cs[i], 0) {
        assert old(Within(cs[i], es) && Linked(bs[i], cs[i], 0));
      }
      forall i | 0 <= i < |cs| ensures Valued(cs[i], map') { assert old(Valued(cs[i], map')); }
    }

    /** Rehashes every entry into twice as many buckets; nothing is lost. */
    method Resize()
      requires Valid()
      modifies this, entries
      ensures Valid() && contents == old(contents) && count == old(count) && entries == old(entries)
      ensures buckets.Length == 2 * old(buckets.Length) && fresh(buckets)
    {
      var bs := new HashEntry?<V>[2 * buckets.Length](_ => null);
      ghost var cs := MoveAll(buckets, chains, entries, contents, Index(buckets.Length), bs, Index(bs.Length));
      ApartLater(contents, buckets.Length, bs.Length);
      Install(bs, cs, entries, contents, count);
    }

    /** The NULL key and the missing key both give NULL, here None. */
    method Get(key: Option<Key>) returns (value: Option<V>)
      requires Valid()
      ensures key.None? ==> value.None?
      ensures key.Some? ==>
                var slot := Slot(contents, Index(buckets.Length), key.value);
                value == if slot in contents then Some(contents[slot]) else None
      ensures key.Some? && NulFree(key.value) ==>
                value == if key.value in contents then Some(contents[key.value]) else None
    {
      if key.None? { return None; }
      SlotForPlain(key.value);
      var entry, prev, k := Search(key.value, buckets, chains, entries, contents, Index(buckets.Length));
      value := if entry != null then Some(entry.value) else None;
    }

    method Set(key: Option<Key>, value: V)
      requires Valid()
      modifies this, buckets, entries
      ensures Valid()
      ensures key.None? ==> contents == old(contents)
      ensures key.Some? ==>
                contents == old(contents)[Slot(old(contents), Index(buckets.Length), key.value) := value]
      ensures key.Some? && NulFree(key.value) ==> contents == old(contents)[key.value := value]
      ensures (buckets == old(buckets) || fresh(buckets)) && fresh(entries - old(entries))
    {
      if key.None? { return; }
      MakeRoom();
      SetInRoom(key.value, value);
    }

    /** The table grows when it is three quarters full. */
    method MakeRoom()
      requires Valid()
      modifies this, entries
      ensures Valid() && count < buckets.Length * 3 / 4
      ensures contents == old(contents) && entries == old(entries) && (buckets == old(buckets) || fresh(buckets))
    {
      if count >= buckets.Length * 3 / 4 {
        Resize();
      }
    }

    lemma {:induction false} SlotForPlain(key: Key)
      requires Valid()
      ensures NulFree(key) ==> Slot(contents, Index(buckets.Length), key) == key
    {
      if NulFree(key) { SlotIsKey(contents, Index(buckets.Length), key); }
    }

    method SetInRoom(key: Key, value: V)
      requires Valid() && count < buckets.Length * 3 / 4
      modifies this, buckets, entries
      ensures Valid() && contents == old(contents)[Slot(old(contents), Index(buckets.Length), key) := value]
      ensures NulFree(key) ==> contents == old(contents)[key := value]
      ensures buckets == old(buckets) && fresh(entries - old(entries))
    {
      SlotForPlain(key);
      var entry, prev, k := Search(key, buckets, chains, entries, contents, Index(buckets.Length));
      if entry != null {
        Change(entry, k, value);
      } else {
        Add(key, value);
      }
    }

    method Change(entry: HashEntry<V>, ghost k: nat, value: V)
      requires Valid() && Holds(chains, Index(buckets.Length)(entry.key), k, entry)
      requires entry in entries && entry.key in contents
      modifies this, entry`value
      ensures Valid() && contents == old(contents)[entry.key := value]
      ensures buckets == old(buckets) && entries == old(entries)
    {
      ChangeValue(buckets, chains, entries, contents, Index(buckets.Length), k, entry, value);
      assert contents[entry.key := value].Keys == contents.Keys;
      Install(buckets, chains, entries, contents[entry.key := value], count);
    }

    method Add(key: Key, value: V)
      requires Valid() && count < buckets.Length * 3 / 4
      requires forall a :: a in contents ==> !Conflated(Index(buckets.Length), a, key)
      modifies this, buckets
      ensures Valid() && contents == old(contents)[key := value]
      ensures buckets == old(buckets) && fresh(entries - old(entries))
    {
      var entry := new HashEntry(key, value);
      SlotIsNew(contents, Index(buckets.Length), key);
      ApartWith(contents, Index(buckets.Length), key, value);
      ghost var cs := Prepend(entry, buckets, chains, entries, contents, Index(buckets.Length));
      Install(buckets, cs, entries + {entry}, contents[key := value], count + 1);
    }

    method Remove(key: Option<Key>)
      requires Valid()
      modifies this, buckets, entries
      ensures Valid() && buckets == old(buckets) && entries == old(entries)
      ensures key.None? ==> contents == old(contents)
      ensures key.Some? ==>
                contents == Less(old(contents), Slot(old(contents), Index(buckets.Length), key.value))
      ensures key.Some? && NulFree(key.value) ==> contents == Less(old(contents), key.value)
    {
      if key.None? { return; }
      SlotForPlain(key.value);
      ghost var slot := Slot(contents, Index(buckets.Length), key.value);
      LessIsSmaller(contents, slot);
      if count == 0 { return; }
      var index := Index(buckets.Length);
      var entry, prev, k := Search(key.value, buckets, chains, entries, contents, index);
      if entry != null { TakeOut(entry, k, prev); }
    }

    method TakeOut(entry: HashEntry<V>, ghost k: nat, prev: HashEntry?<V>)
      requires Valid() && count > 0 && Holds(chains, Index(buckets.Length)(entry.key), k, entry)
      requires prev == if k == 0 then null else chains[Index(buckets.Length)(entry.key)][k - 1]
      modifies this, buckets, entries
      ensures Valid() && buckets == old(buckets) && entries == old(entries)
      ensures contents == Less(old(contents), entry.key)
    {
      LessIsSmaller(contents, entry.key);
      ghost var cs := Unlink(buckets, chains, entries, contents, Index(buckets.Length), k, entry, prev);
      Install(buckets, cs, entries, Less(contents, entry.key), count - 1);
    }
  }
}
