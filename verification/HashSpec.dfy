/**
 * What Worker/HashTable.c computes, on values: a row of buckets, each a chain
 * of pairs, and the map that the whole stands for.
 */
module HashSpec {
  import opened Config

  // ===== The hash function in closed form

  function Sum(s: Bytes): nat {
    if s == [] then 0 else Sum(s[..|s| - 1]) + s[|s| - 1]
  }

  /** The bucket of a key: 33 is 1 modulo 32, so only the sum of its bytes matters. */
  function Bucket(key: Bytes): (b: nat)
    ensures b < BUCKET_COUNT
  {
    (5 + Sum(key)) % BUCKET_COUNT
  }

  const WORD: nat := 0x1_0000_0000

  /** A `char` is signed: the int that is added to the hash. */
  function Signed(b: Byte): int {
    if b < 0x80 then b else b - 0x100
  }

  /** `((hash << 5) + hash) + c` in 32 bits. */
  function Round(hash: nat, c: Byte): (next: nat)
    ensures next < WORD
  {
    (((hash * 32) % WORD + hash) % WORD + Signed(c)) % WORD
  }

  lemma WrappingKeepsBucket(x: int)
    ensures x % WORD % BUCKET_COUNT == x % BUCKET_COUNT
  {
    assert x == WORD * (x / WORD) + x % WORD;
  }

  lemma AddingKeepsBucket(x: int, y: int, c: int)
    requires x % BUCKET_COUNT == y % BUCKET_COUNT
    ensures (x + c) % WORD % BUCKET_COUNT == (y + c) % BUCKET_COUNT
  {
    WrappingKeepsBucket(x + c);
  }

  lemma SignKeepsBucket(x: int, c: Byte)
    ensures (x + Signed(c)) % BUCKET_COUNT == (x + c) % BUCKET_COUNT
  {
  }

  lemma ShiftedIsZero(hash: nat)
    ensures (hash * 32) % WORD % BUCKET_COUNT == 0
  {
    WrappingKeepsBucket(hash * 32);
  }

  lemma RoundAddsByte(hash: nat, sum: nat, c: Byte)
    requires hash % BUCKET_COUNT == sum % BUCKET_COUNT
    ensures Round(hash, c) % BUCKET_COUNT == (sum + c) % BUCKET_COUNT
  {
    var shifted := (hash * 32) % WORD;
    ShiftedIsZero(hash);
    AddingKeepsBucket(shifted, 0, hash);
    AddingKeepsBucket((shifted + hash) % WORD, sum, Signed(c));
    SignKeepsBucket(sum, c);
  }

  /** A round multiplies by 33 and adds the signed character, modulo 2^32. */
  lemma RoundIsTimes33(hash: nat, c: Byte)
    ensures Round(hash, c) == (33 * hash + if c < 0x80 then c else c - 0x100) % WORD
  {
    var x := hash * 32;
    assert x == WORD * (x / WORD) + x % WORD;
    SameRemainder(x % WORD + hash, x + hash, -(x / WORD));
    var y := x % WORD + hash;
    assert y == WORD * (y / WORD) + y % WORD;
    SameRemainder(y % WORD + Signed(c), y + Signed(c), -(y / WORD));
    SameRemainder(y + Signed(c), 33 * hash + Signed(c), -(x / WORD));
  }

  lemma SameRemainder(a: int, b: int, k: int)
    requires a == b + WORD * k
    ensures a % WORD == b % WORD
  {
  }

  /** The 32-bit hash of a key. */
  ghost function Hash(key: Bytes): nat {
    if key == [] then 5381 else Round(Hash(key[..|key| - 1]), key[|key| - 1])
  }

  lemma {:induction false} HashInBucket(key: Bytes)
    ensures Hash(key) % BUCKET_COUNT == Bucket(key)
  {
    if key != [] {
      var front, last := key[..|key| - 1], key[|key| - 1];
      HashInBucket(front);
      RoundAddsByte(Hash(front), 5 + Sum(front), last);
    }
  }

  /** HashFunction: 32-bit arithmetic, wrapping round at every step. */
  method HashFunction(key: Bytes) returns (r: nat)
    ensures r == Hash(key) % BUCKET_COUNT == Bucket(key)
  {
    var hash, i := 5381, 0;
    while i < |key|
      invariant 0 <= i <= |key| && hash == Hash(key[..i])
    {
      assert key[..i + 1][..i] == key[..i];
      hash := Round(hash, key[i]);
      i := i + 1;
    }
    assert key[..i] == key;
    HashInBucket(key);
    r := hash % BUCKET_COUNT;
  }

  lemma {:induction false} SumConcat(a: Bytes, b: Bytes)
    ensures Sum(a + b) == Sum(a) + Sum(b)
  {
    if b == [] {
      assert a + b == a;
    } else {
      assert (a + b)[..|a + b| - 1] == a + b[..|b| - 1];
      SumConcat(a, b[..|b| - 1]);
    }
  }

  lemma SumWithout(s: Bytes, k: nat)
    requires k < |s|
    ensures var rest := s[..k] + s[k + 1..];
      Sum(s) == Sum(rest) + s[k] && multiset(rest) == multiset(s) - multiset{s[k]}
  {
    var before, after := s[..k], s[k + 1..];
    assert s == before + ([s[k]] + after);
    SumConcat(before, [s[k]] + after);
    SumConcat([s[k]], after);
    SumConcat(before, after);
    assert Sum([s[k]]) == Sum([]) + s[k];
  }

  lemma {:induction false} SumOfAnagram(a: Bytes, b: Bytes)
    requires multiset(a) == multiset(b)
    ensures Sum(a) == Sum(b)
    decreases |a|
  {
    if a == [] {
      assert |multiset(b)| == 0;
    } else {
      assert a[0] in multiset(b);
      var k :| 0 <= k < |b| && b[k] == a[0];
      SumWithout(a, 0);
      SumWithout(b, k);
      SumOfAnagram(a[..0] + a[1..], b[..k] + b[k + 1..]);
    }
  }

  /** Keys made of the same bytes share a bucket. */
  lemma AnagramsShareBucket(a: Bytes, b: Bytes)
    requires multiset(a) == multiset(b)
    ensures Bucket(a) == Bucket(b)
  {
    SumOfAnagram(a, b);
  }

  // ===== Chains and tables

  datatype Pair = Pair(key: Bytes, value: Bytes)

  type Chain = seq<Pair>
  type Table = t: seq<Chain> | |t| == BUCKET_COUNT witness EmptyTable()

  function EmptyTable(): seq<Chain> {
    seq(BUCKET_COUNT, _ => [])
  }

  /** Place of a key in a chain, or the chain's length. */
  function Find(chain: Chain, key: Bytes): (k: nat)
    ensures k <= |chain|
    ensures k < |chain| ==> chain[k].key == key
    ensures forall j :: 0 <= j < k ==> chain[j].key != key
  {
    if chain == [] || chain[0].key == key then 0
    else
      var k := Find(chain[1..], key);
      assert forall j :: 0 < j < k + 1 ==> chain[j] == chain[1..][j - 1];
      k + 1
  }

  function SetInChain(chain: Chain, key: Bytes, value: Bytes): Chain {
    var k := Find(chain, key);
    if k < |chain| then chain[k := Pair(key, value)] else [Pair(key, value)] + chain
  }

  function Set(t: Table, key: Bytes, value: Bytes): Table {
    t[Bucket(key) := SetInChain(t[Bucket(key)], key, value)]
  }

  function Lookup(t: Table, key: Bytes): Option<Bytes> {
    var chain := t[Bucket(key)];
    var k := Find(chain, key);
    if k < |chain| then Some(chain[k].value) else None
  }

  /** Keys are not empty, lie in the bucket of their hash, and occur once. */
  ghost predicate ValidChain(chain: Chain, b: nat) {
    && (forall i :: 0 <= i < |chain| ==> chain[i].key != [] && Bucket(chain[i].key) == b)
    && DistinctKeys(chain)
  }

  ghost predicate DistinctKeys(pairs: seq<Pair>) {
    forall i, j :: 0 <= i < j < |pairs| ==> pairs[i].key != pairs[j].key
  }

  ghost predicate Valid(t: Table) {
    forall b :: 0 <= b < BUCKET_COUNT ==> ValidChain(t[b], b)
  }

  lemma SetKeepsValid(t: Table, key: Bytes, value: Bytes)
    requires Valid(t) && key != []
    ensures Valid(Set(t, key, value))
  {
    var b := Bucket(key);
    assert ValidChain(t[b], b);
    assert ValidChain(SetInChain(t[b], key, value), b);
  }

  lemma NoEmptyKey(t: Table)
    requires Valid(t)
    ensures Lookup(t, []) == None
  {
    assert ValidChain(t[Bucket([])], Bucket([]));
  }

  lemma FindAfterSet(chain: Chain, key: Bytes, value: Bytes, other: Bytes)
    ensures var after := SetInChain(chain, key, value);
      var k, n := Find(chain, other), Find(after, other);
      if other == key then n < |after| && after[n].value == value
      else (k < |chain| <==> n < |after|) && (k < |chain| ==> after[n].value == chain[k].value)
  {
    var after, at, k := SetInChain(chain, key, value), Find(chain, key), Find(chain, other);
    if at == |chain| {
      assert after[1..] == chain;
    } else if k < |chain| {
      assert after[k].key == other;
    }
  }

  /** Setting a key changes what is found under that key, and nothing else. */
  lemma LookupAfterSet(t: Table, key: Bytes, value: Bytes, other: Bytes)
    ensures Lookup(Set(t, key, value), other) == if other == key then Some(value) else Lookup(t, other)
  {
    if Bucket(other) == Bucket(key) {
      FindAfterSet(t[Bucket(key)], key, value, other);
    }
  }

  // ===== The map a table stands for

  /** All pairs of the first `n` buckets, in the order an export sends them. */
  function Flat(t: Table, n: nat): seq<Pair>
    requires n <= BUCKET_COUNT
  {
    if n == 0 then [] else Flat(t, n - 1) + t[n - 1]
  }

  function Pairs(t: Table): seq<Pair> {
    Flat(t, BUCKET_COUNT)
  }

  ghost function MapOf(pairs: seq<Pair>): map<Bytes, Bytes> {
    if pairs == [] then map[]
    else MapOf(pairs[..|pairs| - 1])[pairs[|pairs| - 1].key := pairs[|pairs| - 1].value]
  }

  ghost function Contents(t: Table): map<Bytes, Bytes> {
    MapOf(Pairs(t))
  }

  lemma {:induction false} FlatHolds(t: Table, n: nat, p: Pair)
    requires n <= BUCKET_COUNT && Valid(t)
    ensures p in Flat(t, n) <==> Bucket(p.key) < n && p in t[Bucket(p.key)]
  {
    if n > 0 {
      FlatHolds(t, n - 1, p);
      assert ValidChain(t[n - 1], n - 1);
    }
  }

  lemma {:induction false} FlatIsDistinct(t: Table, n: nat)
    requires n <= BUCKET_COUNT && Valid(t)
    ensures DistinctKeys(Flat(t, n))
  {
    if n > 0 {
      FlatIsDistinct(t, n - 1);
      var before, chain := Flat(t, n - 1), t[n - 1];
      assert ValidChain(chain, n - 1);
      forall i, j | 0 <= i < |before| && 0 <= j < |chain|
        ensures before[i].key != chain[j].key
      {
        FlatHolds(t, n - 1, before[i]);
      }
    }
  }

  lemma {:induction false} MapOfHolds(pairs: seq<Pair>, key: Bytes)
    requires DistinctKeys(pairs)
    ensures forall p <- pairs :: p.key in MapOf(pairs) && MapOf(pairs)[p.key] == p.value
    ensures key in MapOf(pairs) ==> Pair(key, MapOf(pairs)[key]) in pairs
  {
    if pairs != [] {
      MapOfHolds(pairs[..|pairs| - 1], key);
      assert pairs == pairs[..|pairs| - 1] + [pairs[|pairs| - 1]];
    }
  }

  lemma {:induction false} MapOfSize(pairs: seq<Pair>)
    requires DistinctKeys(pairs)
    ensures |MapOf(pairs)| == |pairs|
  {
    if pairs != [] {
      var front, last := pairs[..|pairs| - 1], pairs[|pairs| - 1];
      MapOfSize(front);
      MapOfHolds(front, last.key);
      assert last.key !in MapOf(front);
    }
  }

  /** What is found in the table is what the map says, and the map has one entry for each pair. */
  lemma LookupIsContents(t: Table, key: Bytes)
    requires Valid(t)
    ensures Lookup(t, key) == if key in Contents(t) then Some(Contents(t)[key]) else None
  {
    FlatIsDistinct(t, BUCKET_COUNT);
    MapOfHolds(Pairs(t), key);
    var chain := t[Bucket(key)];
    var k := Find(chain, key);
    if k < |chain| {
      FlatHolds(t, BUCKET_COUNT, chain[k]);
    } else if key in Contents(t) {
      FlatHolds(t, BUCKET_COUNT, Pair(key, Contents(t)[key]));
    }
  }

  lemma SizeIsContents(t: Table)
    requires Valid(t)
    ensures |Contents(t)| == |Pairs(t)|
  {
    FlatIsDistinct(t, BUCKET_COUNT);
    MapOfSize(Pairs(t));
  }

  /** SetHashTable is map update. */
  lemma SetIsUpdate(t: Table, key: Bytes, value: Bytes)
    requires Valid(t) && key != []
    ensures Contents(Set(t, key, value)) == Contents(t)[key := value]
  {
    var t' := Set(t, key, value);
    SetKeepsValid(t, key, value);
    forall k: Bytes
      ensures k in Contents(t') <==> k in Contents(t)[key := value]
      ensures k in Contents(t') ==> Contents(t')[k] == Contents(t)[key := value][k]
    {
      LookupIsContents(t, k);
      LookupIsContents(t', k);
      LookupAfterSet(t, key, value, k);
    }
  }

  // ===== Export, then merge

  /** What a peer does with the data entries it receives: insert where the key is absent. */
  ghost function Merge(target: map<Bytes, Bytes>, pairs: seq<Pair>): map<Bytes, Bytes> {
    if pairs == [] then target
    else
      var before, last := Merge(target, pairs[..|pairs| - 1]), pairs[|pairs| - 1];
      if last.key in before then before else before[last.key := last.value]
  }

  lemma {:induction false} MergeIsUnion(target: map<Bytes, Bytes>, pairs: seq<Pair>)
    requires DistinctKeys(pairs)
    ensures Merge(target, pairs) == MapOf(pairs) + target
  {
    if pairs != [] {
      var front, last := pairs[..|pairs| - 1], pairs[|pairs| - 1];
      MergeIsUnion(target, front);
      MapOfHolds(front, last.key);
    }
  }

  /** Merging an export gives the target plus what the source has under other keys. */
  lemma ExportThenMerge(t: Table, target: map<Bytes, Bytes>)
    requires Valid(t)
    ensures Merge(target, Pairs(t)) == target + (Contents(t) - target.Keys)
    ensures Merge(Merge(target, Pairs(t)), Pairs(t)) == Merge(target, Pairs(t))
    ensures Merge(map[], Pairs(t)) == Contents(t)
  {
    hide Merge, Valid, DistinctKeys;
    FlatIsDistinct(t, BUCKET_COUNT);
    MergeIsUnion(target, Pairs(t));
    MergeIsUnion(map[], Pairs(t));
    MergeIsUnion(Merge(target, Pairs(t)), Pairs(t));
  }

  datatype ExportMessage = Start(total: nat) | Data(pair: Pair) | End

  function AsData(pairs: seq<Pair>): (messages: seq<ExportMessage>)
    ensures |messages| == |pairs|
    ensures forall i :: 0 <= i < |pairs| ==> messages[i] == Data(pairs[i])
  {
    seq(|pairs|, i requires 0 <= i < |pairs| => Data(pairs[i]))
  }

  /** The messages of a complete export of a table nobody else changes meanwhile. */
  function ExportScript(t: Table): (messages: seq<ExportMessage>)
    ensures |messages| == |Pairs(t)| + 2
  {
    [Start(|Pairs(t)|)] + AsData(Pairs(t)) + [End]
  }

  lemma {:induction false} FlatGrows(t: Table, m: nat, n: nat)
    requires m <= n <= BUCKET_COUNT
    ensures Flat(t, m) <= Flat(t, n)
    decreases n
  {
    if m < n {
      FlatGrows(t, m, n - 1);
    }
  }

  lemma ScriptStarts(t: Table)
    ensures [Start(|Pairs(t)|)] <= ExportScript(t)
  {
  }

  lemma BucketInFlat(t: Table, b: nat, k: nat)
    requires b < BUCKET_COUNT && k <= |t[b]|
    ensures var from := |Flat(t, b)|;
      from + k <= |Pairs(t)| && Pairs(t)[from..from + k] == t[b][..k]
  {
    var before, all := Flat(t, b), Pairs(t);
    FlatGrows(t, b + 1, BUCKET_COUNT);
    assert Flat(t, b + 1) == before + t[b];
    assert all[..|before| + |t[b]|] == before + t[b];
    assert all[|before|..|before| + k] == (before + t[b])[|before|..|before| + k];
  }

  /** The messages for the first `k` nodes of bucket `b`, within the whole export. */
  lemma BucketInScript(t: Table, b: nat, k: nat)
    requires b < BUCKET_COUNT && k <= |t[b]|
    ensures var from := 1 + |Flat(t, b)|;
      from + k < |ExportScript(t)| && ExportScript(t)[from..from + k] == AsData(t[b][..k])
  {
    hide Flat;
    var all, from := Pairs(t), |Flat(t, b)|;
    BucketInFlat(t, b, k);
    assert ExportScript(t)[1..][..|all|] == AsData(all);
    assert AsData(all)[from..from + k] == AsData(all[from..from + k]);
  }
}
