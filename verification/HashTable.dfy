/**
 The chained, resizing hash table of the controller, statement for statement as written: adding never
 compares the head of a chain, and removing the second element of a chain also drops the first.
 The lemmas say exactly when it nevertheless behaves as a finite map.
 */
module HashTable {
  import opened Wrappers

  /** Keys are byte strings, written as characters. */
  type Key = string

  datatype Element<V> = Element(key: Key, value: V)

  /** storeHouse, key_count and key_num. */
  datatype Table<V> = Table(store: seq<seq<Element<V>>>, count: int, num: nat)

  const KEY_RATIO := 4
  const INITIAL_NUM := 128
  /** Beyond this many keys the 16-bit bucket count would wrap round to zero. */
  const MAX_KEYS := 131072

  /* ---- hashing ---- */

  function Byte(c: char): bv16 {
    ((c as nat) % 256) as bv16
  }

  function Word(key: Key, i: nat): bv16
    requires 2 * i + 1 < |key|
  {
    (Byte(key[2 * i + 1]) << 8) | Byte(key[2 * i])
  }

  function Index(i: nat): bv16 {
    (i % 0x1_0000) as bv16
  }

  function Mix(hash: bv16, i: nat, w: bv16): bv16 {
    hash ^ ((Index(i) << 4) ^ (w << 8) ^ w)
  }

  function Hashed(key: Key, i: nat): bv16
    requires 2 * i <= |key|
  {
    if i == 0 then 0xbabe else Mix(Hashed(key, i - 1), i - 1, Word(key, i - 1))
  }

  function Hash(key: Key, num: nat): (h: nat)
    requires num > 0
    ensures h < num
  {
    (Hashed(key, |key| / 2) as nat) % num
  }

  /* ---- the hash, byte by byte ---- */

  function LowByte(h: bv16): bv16 {
    h & 0xff
  }

  function HighByte(h: bv16): bv16 {
    h >> 8
  }

  function LowStep(l: bv16, i: bv16, b: bv16): bv16 {
    l ^ b ^ ((i << 4) & 0xff)
  }

  function HighStep(h: bv16, i: bv16, b: bv16, c: bv16): bv16 {
    h ^ b ^ c ^ ((i >> 4) & 0xff)
  }

  /** The low byte of the hash of the first n pairs: the first characters of the pairs, and where they stand. */
  function Low(key: Key, n: nat): bv16
    requires 2 * n <= |key|
  {
    if n == 0 then 0xbe else LowStep(Low(key, n - 1), Index(n - 1), Byte(key[2 * n - 2]))
  }

  /** The high byte: both characters of the pairs. */
  function High(key: Key, n: nat): bv16
    requires 2 * n <= |key|
  {
    if n == 0 then 0xba else HighStep(High(key, n - 1), Index(n - 1), Byte(key[2 * n - 2]), Byte(key[2 * n - 1]))
  }

  lemma MixBytes(h: bv16, i: nat, b: bv16, c: bv16)
    requires b < 0x100 && c < 0x100
    ensures LowByte(Mix(h, i, (c << 8) | b)) == LowStep(LowByte(h), Index(i), b)
    ensures HighByte(Mix(h, i, (c << 8) | b)) == HighStep(HighByte(h), Index(i), b, c)
  {
    hide Index;
  }

  lemma ByteIsSmall(c: char)
    ensures Byte(c) < 0x100
  {
  }

  lemma {:induction false} HashedBytes(key: Key, n: nat)
    requires 2 * n <= |key|
    ensures LowByte(Hashed(key, n)) == Low(key, n) && HighByte(Hashed(key, n)) == High(key, n)
  {
    hide Byte, Index, LowByte, HighByte, LowStep, HighStep, Mix, Word;
    if n == 0 {
      StartBytes();
    } else {
      var b, c := Byte(key[2 * n - 2]), Byte(key[2 * n - 1]);
      HashedBytes(key, n - 1);
      ByteIsSmall(key[2 * n - 2]);
      ByteIsSmall(key[2 * n - 1]);
      WordIs(key, n - 1);
      MixBytes(Hashed(key, n - 1), n - 1, b, c);
    }
  }

  lemma StartBytes()
    ensures LowByte(0xbabe) == 0xbe && HighByte(0xbabe) == 0xba
  {
  }

  lemma WordIs(key: Key, i: nat)
    requires 2 * i + 1 < |key|
    ensures Word(key, i) == (Byte(key[2 * i + 1]) << 8) | Byte(key[2 * i])
  {
    hide Byte;
  }

  lemma TwoBytes(x: bv16)
    ensures x as nat == 0x100 * ((x >> 8) as nat) + ((x & 0xff) as nat) && (x & 0xff) as nat < 0x100
  {
  }

  /** The bucket of a key, from the two bytes. */
  lemma HashIs(key: Key, num: nat)
    requires num > 0
    ensures Hash(key, num) == (0x100 * (High(key, |key| / 2) as nat) + (Low(key, |key| / 2) as nat)) % num
    ensures Low(key, |key| / 2) as nat < 0x100
  {
    HashedBytes(key, |key| / 2);
    TwoBytes(Hashed(key, |key| / 2));
  }

  /** In a table of up to 256 buckets only the first character of each pair counts. */
  lemma SmallTable(key: Key, num: nat)
    requires num in {2, 4, 8, 16, 32, 64, 128, 256}
    ensures Hash(key, num) == (Low(key, |key| / 2) as nat) % num
  {
    HashIs(key, num);
    LowBits(High(key, |key| / 2) as nat, Low(key, |key| / 2) as nat, num);
  }

  lemma LowBits(h: nat, l: nat, num: nat)
    requires num in {2, 4, 8, 16, 32, 64, 128, 256}
    ensures (0x100 * h + l) % num == l % num
  {
    var q := 0x100 / num;
    assert q * num == 0x100;
    assert h * (q * num) == (h * q) * num;
    Remainder(0x100 * h + l, num, h * q, l);
  }

  lemma Remainder(x: nat, num: nat, k: nat, l: nat)
    requires num > 0 && x == k * num + l
    ensures x % num == l % num
  {
    var q, r := l / num, l % num;
    var q', r' := x / num, x % num;
    assert l == q * num + r && x == q' * num + r';
    assert (k + q - q') * num == r' - r;
    if k + q - q' >= 1 {
      AtLeast(k + q - q', num);
    } else if k + q - q' <= -1 {
      AtLeast(q' - k - q, num);
    }
  }

  lemma AtLeast(d: nat, num: nat)
    requires d >= 1
    ensures d * num >= num
  {
  }

  lemma {:induction false} SameLow(a: Key, b: Key, n: nat)
    requires 2 * n <= |a| && 2 * n <= |b| && forall i :: 0 <= i < n ==> a[2 * i] == b[2 * i]
    ensures Low(a, n) == Low(b, n)
  {
    hide Byte, Index, LowStep;
    if n > 0 {
      SameLow(a, b, n - 1);
      assert a[2 * (n - 1)] == b[2 * (n - 1)];
    }
  }

  /** Names of two characters that begin alike share a bucket of the table as it is created, and of the next smaller one. */
  lemma SameStartCollides(c: char, d: char, d': char)
    ensures Hash([c, d], INITIAL_NUM) == Hash([c, d'], INITIAL_NUM)
    ensures Hash([c, d], INITIAL_NUM / 2) == Hash([c, d'], INITIAL_NUM / 2)
  {
    SameLow([c, d], [c, d'], 1);
    SmallTable([c, d], 128);
    SmallTable([c, d'], 128);
    SmallTable([c, d], 64);
    SmallTable([c, d'], 64);
  }

  /* ---- chains ---- */

  /** The position of the first element with the given key, or the length of the chain. */
  function Position<V>(c: seq<Element<V>>, key: Key): (i: nat)
    ensures i <= |c| && (i < |c| ==> c[i].key == key)
    ensures forall j :: 0 <= j < i ==> c[j].key != key
  {
    if c == [] then 0 else if c[0].key == key then 0 else 1 + Position(c[1..], key)
  }

  function Find<V>(c: seq<Element<V>>, key: Key): Option<V> {
    var i := Position(c, key);
    if i < |c| then Some(c[i].value) else None
  }

  /** Adding to a chain: the head is never compared with the new key. */
  function AddTo<V>(c: seq<Element<V>>, e: Element<V>): seq<Element<V>> {
    if c == [] then [e]
    else
      var i := 1 + Position(c[1..], e.key);
      if i < |c| then c[i := e] else c + [e]
  }

  /** Removing from a chain: relinking starts after the match when the match is first or second. */
  function RemoveFrom<V>(c: seq<Element<V>>, key: Key): seq<Element<V>> {
    var i := Position(c, key);
    if i == |c| then c else if i <= 1 then c[i + 1..] else c[..i] + c[i + 1..]
  }

  function Keep<V>(c: seq<Element<V>>, sel: (Key, V) -> bool): seq<Element<V>> {
    if c == [] then []
    else
      var n := |c| - 1;
      Keep(c[..n], sel) + if sel(c[n].key, c[n].value) then [] else [c[n]]
  }

  lemma {:induction false} KeepShrinks<V>(c: seq<Element<V>>, sel: (Key, V) -> bool)
    ensures |Keep(c, sel)| <= |c|
    decreases |c|
  {
    if c != [] {
      KeepShrinks(c[..|c| - 1], sel);
    }
  }

  /* ---- tables ---- */

  function Empty<V>(num: nat): Table<V> {
    Table(seq(num, _ => []), 0, num)
  }

  predicate Shaped<V>(t: Table<V>) {
    t.num > 0 && |t.store| == t.num
  }

  function Chain<V>(t: Table<V>, key: Key): seq<Element<V>>
    requires Shaped(t)
  {
    t.store[Hash(key, t.num)]
  }

  function WithChain<V>(t: Table<V>, key: Key, c: seq<Element<V>>, count: int): Table<V>
    requires Shaped(t)
  {
    t.(store := t.store[Hash(key, t.num) := c], count := count)
  }

  function Lookup<V>(t: Table<V>, key: Key): Option<V>
    requires Shaped(t)
  {
    Find(Chain(t, key), key)
  }

  function Elements<V>(store: seq<seq<Element<V>>>): seq<Element<V>> {
    if store == [] then [] else Elements(store[..|store| - 1]) + store[|store| - 1]
  }

  /** Adding without looking at the load factor. */
  function Insert<V>(t: Table<V>, e: Element<V>): Table<V>
    requires Shaped(t)
  {
    var c := Chain(t, e.key);
    var c' := AddTo(c, e);
    WithChain(t, e.key, c', t.count + |c'| - |c|)
  }

  /** Adding the elements of es from the last to the first. */
  function InsertBackwards<V>(t: Table<V>, es: seq<Element<V>>): (t': Table<V>)
    requires Shaped(t)
    ensures Shaped(t') && t'.num == t.num
    ensures t.count <= t'.count <= t.count + |es|
  {
    if es == [] then t else Insert(InsertBackwards(t, es[1..]), es[0])
  }

  function Resize<V>(t: Table<V>, len: nat): (t': Table<V>)
    requires Shaped(t) && len > 0
    ensures Shaped(t')
  {
    if Elements(t.store) == [] then t else InsertBackwards(Empty(len), Elements(t.store))
  }

  function Expand<V>(t: Table<V>): (t': Table<V>)
    requires Shaped(t)
    ensures Shaped(t')
  {
    if t.count / t.num >= KEY_RATIO then Resize(t, t.num * 2) else t
  }

  function Add<V>(t: Table<V>, key: Key, value: V): (t': Table<V>)
    requires Shaped(t)
    ensures Shaped(t')
  {
    Insert(Expand(t), Element(key, value))
  }

  function Contract<V>(t: Table<V>): (t': Table<V>)
    requires Shaped(t) && t.count > 0
    ensures Shaped(t')
  {
    LoadFactor(t.num, t.count);
    if t.num / t.count >= KEY_RATIO then Resize(t, t.num / 2) else t
  }

  function Delete<V>(t: Table<V>, key: Key): Table<V>
    requires Shaped(t)
  {
    var c := Chain(t, key);
    if Position(c, key) == |c| then t else WithChain(t, key, RemoveFrom(c, key), t.count - 1)
  }

  function Remove<V>(t: Table<V>, key: Key): (t': Table<V>)
    requires Shaped(t) && t.count > 0
    ensures Shaped(t')
  {
    Delete(Contract(t), key)
  }

  function Dropped<V>(store: seq<seq<Element<V>>>, sel: (Key, V) -> bool): nat {
    if store == [] then 0
    else
      var n := |store| - 1;
      KeepShrinks(store[n], sel);
      Dropped(store[..n], sel) + |store[n]| - |Keep(store[n], sel)|
  }

  function KeepAll<V>(store: seq<seq<Element<V>>>, sel: (Key, V) -> bool): seq<seq<Element<V>>> {
    seq(|store|, i requires 0 <= i < |store| => Keep(store[i], sel))
  }

  function Iterate<V>(t: Table<V>, sel: (Key, V) -> bool): Table<V>
  {
    t.(store := KeepAll(t.store, sel), count := t.count - Dropped(t.store, sel))
  }

  function Total<V>(store: seq<seq<Element<V>>>): nat {
    if store == [] then 0 else Total(store[..|store| - 1]) + |store[|store| - 1]|
  }

  /* ---- invariant and abstraction ---- */

  predicate PowerOfTwo(n: nat) {
    n == 1 || (n > 1 && n % 2 == 0 && PowerOfTwo(n / 2))
  }

  /** The load-factor arithmetic: 2 to 32768 buckets, at most four keys a bucket. */
  predicate Sized<V>(t: Table<V>) {
    && Shaped(t) && PowerOfTwo(t.num) && 2 <= t.num <= 32768
    && 0 <= t.count <= KEY_RATIO * t.num && t.count < MAX_KEYS
  }

  ghost predicate DistinctKeys<V>(c: seq<Element<V>>) {
    forall i, j :: 0 <= i < j < |c| ==> c[i].key != c[j].key
  }

  /** The chain holds distinct keys, all of which belong in bucket b. */
  ghost predicate GoodChain<V>(c: seq<Element<V>>, b: nat, num: nat)
    requires num > 0
  {
    DistinctKeys(c) && forall i :: 0 <= i < |c| ==> Hash(c[i].key, num) == b
  }

  /** Every element sits in the bucket of its key, once. */
  ghost predicate Chained<V>(t: Table<V>) {
    Shaped(t) && forall b :: 0 <= b < t.num ==> GoodChain(t.store[b], b, t.num)
  }

  ghost predicate Valid<V>(t: Table<V>) {
    Chained(t) && t.count == Total(t.store)
  }

  /** What every call keeps, losses included: key_count may be left above the number of elements. */
  ghost predicate Sound<V>(t: Table<V>) {
    && Chained(t) && PowerOfTwo(t.num) && 2 <= t.num <= 32768
    && Total(t.store) <= t.count < MAX_KEYS && Total(t.store) <= KEY_RATIO * t.num
  }

  function Get<V>(m: map<Key, V>, key: Key): Option<V> {
    if key in m then Some(m[key]) else None
  }

  /** The table answers every lookup as the finite map does. */
  ghost predicate Agrees<V>(t: Table<V>, m: map<Key, V>)
    requires Shaped(t)
  {
    forall key :: Lookup(t, key) == Get(m, key)
  }

  /* ---- chains ---- */

  lemma FindConcat<V>(a: seq<Element<V>>, b: seq<Element<V>>, key: Key)
    ensures Position(a + b, key) == if Position(a, key) < |a| then Position(a, key) else |a| + Position(b, key)
    ensures Find(a + b, key) == if Find(a, key).Some? then Find(a, key) else Find(b, key)
  {
    var j, k := Position(a, key), Position(b, key);
    var i := if j < |a| then j else |a| + k;
    assert forall l :: 0 <= l < |a + b| ==> (a + b)[l] == if l < |a| then a[l] else b[l - |a|];
    assert forall l :: 0 <= l < i ==> (a + b)[l].key != key;
    assert i < |a + b| ==> (a + b)[i].key == key;
  }

  predicate IsHead<V>(c: seq<Element<V>>, key: Key) {
    c != [] && c[0].key == key
  }

  lemma AddToGood<V>(c: seq<Element<V>>, e: Element<V>, b: nat, num: nat)
    requires num > 0 && GoodChain(c, b, num) && Hash(e.key, num) == b && !IsHead(c, e.key)
    ensures GoodChain(AddTo(c, e), b, num)
    ensures forall key :: Find(AddTo(c, e), key) == if key == e.key then Some(e.value) else Find(c, key)
    ensures |AddTo(c, e)| == |c| + if Find(c, e.key).Some? then 0 else 1
  {
    hide Hash;
    var c' := AddTo(c, e);
    if c == [] {
      assert forall key :: Position([e], key) == if key == e.key then 0 else 1;
    } else {
      var i := 1 + Position(c[1..], e.key);
      assert Position(c, e.key) == i;
      forall key ensures Find(c', key) == if key == e.key then Some(e.value) else Find(c, key) {
        if i == |c| {
          FindConcat(c, [e], key);
        } else {
          assert forall j :: 0 <= j < |c| && j != i ==> c'[j] == c[j];
          var p, p' := Position(c, key), Position(c', key);
          assert p < |c| && key != e.key ==> c'[p].key == key;
          assert c'[i].key == e.key;
        }
      }
    }
  }

  lemma CutOut<V>(c: seq<Element<V>>, i: nat, k: Key)
    requires DistinctKeys(c) && i < |c|
    ensures Find(c[..i] + c[i + 1..], k) == if k == c[i].key then None else Find(c, k)
  {
    var a, e, b := c[..i], c[i], c[i + 1..];
    assert c == a + ([e] + b);
    FindConcat(a, b, k);
    FindConcat(a, [e] + b, k);
    FindConcat([e], b, k);
    SingletonFind(e, k);
  }

  lemma CutGood<V>(c: seq<Element<V>>, i: nat, b: nat, num: nat)
    requires num > 0 && GoodChain(c, b, num) && i < |c|
    ensures GoodChain(c[..i] + c[i + 1..], b, num)
  {
    hide Hash;
    var c' := c[..i] + c[i + 1..];
    assert forall j :: 0 <= j < |c'| ==> c'[j] == if j < i then c[j] else c[j + 1];
  }

  lemma SingletonFind<V>(e: Element<V>, k: Key)
    ensures Find([e], k) == if k == e.key then Some(e.value) else None
  {
    assert Position([e], k) == if k == e.key then 0 else 1;
  }

  predicate IsSecond<V>(c: seq<Element<V>>, key: Key) {
    |c| >= 2 && c[0].key != key && c[1].key == key
  }

  /** The key in front of a second one, which goes with it. */
  function Front<V>(c: seq<Element<V>>, key: Key): set<Key> {
    if IsSecond(c, key) then {c[0].key} else {}
  }

  /** Removing takes the key out of the chain and, if it is second, the first key too. */
  lemma RemoveFromExact<V>(c: seq<Element<V>>, key: Key, b: nat, num: nat)
    requires num > 0 && GoodChain(c, b, num)
    ensures var c' := RemoveFrom(c, key);
      && GoodChain(c', b, num)
      && |c'| == |c| - (if Find(c, key).Some? then 1 else 0) - |Front(c, key)|
      && forall k :: Find(c', k) == if k == key || k in Front(c, key) then None else Find(c, k)
  {
    if IsSecond(c, key) {
      RemoveFromSecond(c, key, b, num);
    } else if Position(c, key) < |c| {
      hide Hash, Find, GoodChain;
      var i := Position(c, key);
      NotSecond(c, key);
      CutGood(c, i, b, num);
      forall k ensures Find(c[..i] + c[i + 1..], k) == if k == key then None else Find(c, k) {
        CutOut(c, i, k);
      }
    }
  }

  lemma RemoveFromSecond<V>(c: seq<Element<V>>, key: Key, b: nat, num: nat)
    requires num > 0 && GoodChain(c, b, num) && IsSecond(c, key)
    ensures RemoveFrom(c, key) == c[2..] && GoodChain(c[2..], b, num) && Find(c, key).Some?
    ensures forall k :: Find(c[2..], k) == if k == key || k == c[0].key then None else Find(c, k)
  {
    hide Hash;
    assert Position(c, key) == 1;
    forall k ensures Find(c[2..], k) == if k == key || k == c[0].key then None else Find(c, k) {
      TwoCutOut(c, k);
    }
  }

  lemma TwoCutOut<V>(c: seq<Element<V>>, k: Key)
    requires |c| >= 2 && DistinctKeys(c)
    ensures Find(c[2..], k) == if k == c[0].key || k == c[1].key then None else Find(c, k)
  {
    hide Find;
    CutOut(c, 0, k);
    CutOut(c[1..], 0, k);
    assert c[..0] + c[1..] == c[1..] && c[1..][..0] + c[1..][1..] == c[2..];
  }

  lemma NotSecond<V>(c: seq<Element<V>>, key: Key)
    requires Position(c, key) < |c| && !IsSecond(c, key)
    ensures var i := Position(c, key);
      i != 1 && RemoveFrom(c, key) == c[..i] + c[i + 1..]
  {
  }

  /* ---- inserting and deleting ---- */

  lemma {:induction false} TotalUpdate<V>(store: seq<seq<Element<V>>>, i: nat, c: seq<Element<V>>)
    requires i < |store|
    ensures Total(store[i := c]) == Total(store) - |store[i]| + |c|
    decreases |store|
  {
    var n := |store| - 1;
    if i < n {
      TotalUpdate(store[..n], i, c);
      assert store[i := c][..n] == store[..n][i := c];
    } else {
      assert store[i := c][..n] == store[..n];
    }
  }

  lemma WithChainChained<V>(t: Table<V>, key: Key, c: seq<Element<V>>, count: int)
    requires Chained(t) && GoodChain(c, Hash(key, t.num), t.num)
    ensures var t' := WithChain(t, key, c, count);
      && Chained(t') && Total(t'.store) == Total(t.store) - |Chain(t, key)| + |c|
      && forall k :: Lookup(t', k) == (if Hash(k, t.num) == Hash(key, t.num) then Find(c, k) else Lookup(t, k))
  {
    TotalUpdate(t.store, Hash(key, t.num), c);
  }

  /** Inserting refines map update unless the new key heads its chain. */
  lemma InsertGood<V>(t: Table<V>, e: Element<V>)
    requires Chained(t) && !IsHead(Chain(t, e.key), e.key)
    ensures Chained(Insert(t, e)) && (Valid(t) ==> Valid(Insert(t, e)))
    ensures forall k :: Lookup(Insert(t, e), k) == if k == e.key then Some(e.value) else Lookup(t, k)
    ensures Insert(t, e).count == t.count + if Lookup(t, e.key).Some? then 0 else 1
    ensures Total(Insert(t, e).store) == Total(t.store) + if Lookup(t, e.key).Some? then 0 else 1
  {
    hide Hash;
    var c := Chain(t, e.key);
    assert GoodChain(c, Hash(e.key, t.num), t.num);
    AddToGood(c, e, Hash(e.key, t.num), t.num);
    WithChainChained(t, e.key, AddTo(c, e), t.count + |AddTo(c, e)| - |c|);
  }

  /** A key that heads its chain is entered a second time, behind the old entry. */
  lemma InsertHead<V>(t: Table<V>, e: Element<V>)
    requires Chained(t) && IsHead(Chain(t, e.key), e.key)
    ensures !Chained(Insert(t, e)) && Lookup(Insert(t, e), e.key) == Lookup(t, e.key)
    ensures Insert(t, e).count == t.count + 1
  {
    var c := Chain(t, e.key);
    assert Position(c[1..], e.key) == |c| - 1;
    var t' := Insert(t, e);
    var c' := t'.store[Hash(e.key, t.num)];
    assert c' == c + [e] && c'[0].key == c'[|c|].key;
    assert !DistinctKeys(c');
  }

  /** Deleting takes out the key, and with a second element of a chain the one in front of it. */
  lemma DeleteExact<V>(t: Table<V>, key: Key)
    requires Chained(t)
    ensures var t', front, found := Delete(t, key), Front(Chain(t, key), key), if Lookup(t, key).Some? then 1 else 0;
      && Chained(t') && t'.num == t.num && t'.count == t.count - found && Total(t'.store) == Total(t.store) - found - |front|
      && forall k :: Lookup(t', k) == if k == key || k in front then None else Lookup(t, k)
  {
    hide Hash;
    var c := Chain(t, key);
    assert GoodChain(c, Hash(key, t.num), t.num);
    if Position(c, key) < |c| {
      RemoveFromExact(c, key, Hash(key, t.num), t.num);
      WithChainChained(t, key, RemoveFrom(c, key), t.count - 1);
      assert forall k :: k in Front(c, key) ==> Hash(k, t.num) == Hash(key, t.num);
    }
  }

  /* ---- resizing ---- */

  /** Looking a key up in its chain is looking it up among all elements. */
  lemma BucketFind<V>(t: Table<V>, b: nat, key: Key)
    requires Chained(t) && b < t.num
    ensures Find(t.store[b], key) == if Hash(key, t.num) == b then Lookup(t, key) else None
  {
    hide Hash;
    assert GoodChain(t.store[b], b, t.num);
  }

  lemma {:induction false} FindAmongFirst<V>(t: Table<V>, n: nat, key: Key)
    requires Chained(t) && n <= t.num
    ensures Find(Elements(t.store[..n]), key) == if Hash(key, t.num) < n then Lookup(t, key) else None
    ensures |Elements(t.store[..n])| == Total(t.store[..n])
  {
    hide Hash, Lookup;
    if n > 0 {
      assert t.store[..n][..n - 1] == t.store[..n - 1];
      FindAmongFirst(t, n - 1, key);
      FindConcat(Elements(t.store[..n - 1]), t.store[n - 1], key);
      BucketFind(t, n - 1, key);
    }
  }

  lemma FindAmongAll<V>(t: Table<V>, key: Key)
    requires Chained(t)
    ensures Find(Elements(t.store), key) == Lookup(t, key) && |Elements(t.store)| == Total(t.store)
  {
    FindAmongFirst(t, t.num, key);
    assert t.store[..t.num] == t.store;
  }

  lemma {:induction false} FirstDistinct<V>(t: Table<V>, n: nat)
    requires Chained(t) && n <= t.num
    ensures DistinctKeys(Elements(t.store[..n]))
    ensures forall i :: 0 <= i < |Elements(t.store[..n])| ==> Hash(Elements(t.store[..n])[i].key, t.num) < n
  {
    hide Hash;
    if n > 0 {
      assert t.store[..n][..n - 1] == t.store[..n - 1];
      FirstDistinct(t, n - 1);
      assert GoodChain(t.store[n - 1], n - 1, t.num);
      DistinctConcat(Elements(t.store[..n - 1]), t.store[n - 1], n - 1, t.num);
    }
  }

  /** Elements of earlier buckets and those of bucket n differ in their keys. */
  lemma DistinctConcat<V>(a: seq<Element<V>>, c: seq<Element<V>>, n: nat, num: nat)
    requires num > 0 && DistinctKeys(a) && GoodChain(c, n, num)
    requires forall i :: 0 <= i < |a| ==> Hash(a[i].key, num) < n
    ensures DistinctKeys(a + c) && forall i :: 0 <= i < |a + c| ==> Hash((a + c)[i].key, num) < n + 1
  {
    hide Hash;
    assert forall i :: 0 <= i < |a + c| ==> (a + c)[i] == if i < |a| then a[i] else c[i - |a|];
  }

  lemma EmptyValid<V>(num: nat)
    requires num > 0
    ensures Valid(Empty<V>(num)) && forall key :: Lookup(Empty<V>(num), key) == None
  {
    TotalEmpty<V>(num);
  }

  lemma {:induction false} TotalEmpty<V>(num: nat)
    ensures Total(Empty<V>(num).store) == 0
  {
    if num > 0 {
      TotalEmpty<V>(num - 1);
      assert Empty<V>(num).store[..num - 1] == Empty<V>(num - 1).store;
    }
  }

  /** Re-entering distinct elements into an empty table loses and changes nothing. */
  lemma {:induction false} InsertAll<V>(len: nat, es: seq<Element<V>>)
    requires len > 0 && DistinctKeys(es)
    ensures var t := InsertBackwards(Empty(len), es);
      Valid(t) && t.count == |es| && forall key :: Lookup(t, key) == Find(es, key)
  {
    hide Hash;
    EmptyValid<V>(len);
    if es != [] {
      var rest := es[1..];
      InsertAll(len, rest);
      var t := InsertBackwards(Empty(len), rest);
      assert Lookup(t, es[0].key) == Find(rest, es[0].key) == None;
      assert Position(Chain(t, es[0].key), es[0].key) == |Chain(t, es[0].key)|;
      InsertGood(t, es[0]);
    }
  }

  /** Resizing keeps the mapping and brings the count back to the number of elements, if there are any. */
  lemma ResizeGood<V>(t: Table<V>, len: nat)
    requires Chained(t) && len > 0
    ensures var t' := Resize(t, len);
      && Chained(t') && Total(t'.store) == Total(t.store)
      && (if Total(t.store) > 0 then Valid(t') && t'.num == len else t' == t)
      && forall key :: Lookup(t', key) == Lookup(t, key)
  {
    FirstDistinct(t, t.num);
    assert t.store[..t.num] == t.store;
    forall key ensures Find(Elements(t.store), key) == Lookup(t, key) && |Elements(t.store)| == Total(t.store) {
      FindAmongAll(t, key);
    }
    var k: Key := [];
    FindAmongAll(t, k);
    if Elements(t.store) != [] {
      InsertAll(len, Elements(t.store));
    }
  }

  /* ---- load-factor arithmetic ---- */

  lemma LoadFactor(a: nat, b: nat)
    requires b > 0
    ensures a / b >= KEY_RATIO <==> a >= KEY_RATIO * b
  {
    assert a == b * (a / b) + a % b;
    if a / b >= KEY_RATIO {
      assert b * (a / b) >= b * KEY_RATIO;
    } else {
      assert b * (a / b) <= b * (KEY_RATIO - 1);
    }
  }

  /** Expansion is asked for exactly at four keys a bucket, and the 16-bit bucket count never wraps. */
  lemma ExpandSized<V>(t: Table<V>)
    requires Valid(t) && Sized(t)
    ensures t.count / t.num >= KEY_RATIO <==> t.count == KEY_RATIO * t.num
    ensures t.count / t.num >= KEY_RATIO ==> t.num * 2 <= 32768
    ensures var t' := Expand(t);
      && Valid(t') && Sized(t') && t'.count == t.count && t'.count / t'.num < KEY_RATIO
      && forall key :: Lookup(t', key) == Lookup(t, key)
  {
    LoadFactor(t.count, t.num);
    if t.count / t.num >= KEY_RATIO {
      LoadFactor(t.count, t.num * 2);
      PowerBelow(t.num);
      ResizeGood(t, t.num * 2);
    }
  }

  /** What expansion does to any table the code can leave behind: the mapping stays, and there is room to add. */
  lemma ExpandSound<V>(t: Table<V>)
    requires Sound(t)
    ensures t.count / t.num >= KEY_RATIO ==> t.num * 2 <= 32768 && Total(t.store) <= KEY_RATIO * (t.num * 2)
    ensures var t' := Expand(t);
      && Sound(t') && t'.count <= t.count && Total(t'.store) == Total(t.store) && Total(t'.store) < KEY_RATIO * t'.num
      && forall key :: Lookup(t', key) == Lookup(t, key)
  {
    hide Hash, Lookup, Resize;
    LoadFactor(t.count, t.num);
    if t.count / t.num >= KEY_RATIO {
      PowerBelow(t.num);
      ResizeGood(t, t.num * 2);
    }
  }

  function Two(k: nat): nat {
    if k == 0 then 1 else 2 * Two(k - 1)
  }

  lemma {:induction false} PowerUnder(n: nat, k: nat)
    requires PowerOfTwo(n) && n < Two(k + 1)
    ensures n <= Two(k)
  {
    if n > 1 && k > 0 {
      PowerUnder(n / 2, k - 1);
    }
  }

  lemma PowerBelow(n: nat)
    requires PowerOfTwo(n) && n < 32768
    ensures n <= 16384 && PowerOfTwo(n * 2)
  {
    assert Two(14) == 16384;
    PowerUnder(n, 14);
  }

  lemma ContractSized<V>(t: Table<V>)
    requires Valid(t) && Sized(t) && t.count > 0
    ensures var t' := Contract(t);
      && Valid(t') && Sized(t') && t'.count == t.count
      && forall key :: Lookup(t', key) == Lookup(t, key)
  {
    LoadFactor(t.num, t.count);
    if t.num / t.count >= KEY_RATIO {
      ResizeGood(t, t.num / 2);
    }
  }

  lemma ContractSound<V>(t: Table<V>)
    requires Sound(t) && t.count > 0
    ensures t.num / t.count >= KEY_RATIO ==> 2 <= t.num / 2 && Total(t.store) <= KEY_RATIO * (t.num / 2)
    ensures var t' := Contract(t);
      && Sound(t') && Total(t'.store) == Total(t.store) && 0 < t'.count <= t.count
      && forall key :: Lookup(t', key) == Lookup(t, key)
  {
    hide Hash, Lookup, Resize;
    LoadFactor(t.num, t.count);
    if t.num / t.count >= KEY_RATIO {
      ResizeGood(t, t.num / 2);
    }
  }

  /** While a table of at most 4 * len elements is refilled, no addition asks for another expansion. */
  lemma NoNestedResize<V>(t: Table<V>, len: nat, j: nat)
    requires Chained(t) && len > 0 && Total(t.store) <= KEY_RATIO * len && j < |Elements(t.store)|
    ensures var t' := InsertBackwards(Empty(len), Elements(t.store)[j + 1..]);
      t'.count / t'.num < KEY_RATIO && Add(t', Elements(t.store)[j].key, Elements(t.store)[j].value)
        == InsertBackwards(Empty(len), Elements(t.store)[j..])
  {
    FindAmongAll(t, []);
    var es := Elements(t.store);
    assert es[j..][1..] == es[j + 1..];
    var t' := InsertBackwards(Empty(len), es[j + 1..]);
    LoadFactor(t'.count, t'.num);
  }

  /* ---- iterating ---- */

  lemma {:induction false} KeepFind<V>(c: seq<Element<V>>, sel: (Key, V) -> bool, k: Key)
    requires DistinctKeys(c)
    ensures Find(Keep(c, sel), k) == Kept(Find(c, k), k, sel)
    decreases |c|
  {
    if c != [] {
      var n := |c| - 1;
      KeepFind(c[..n], sel, k);
      assert c == c[..n] + [c[n]];
      FindConcat(c[..n], [c[n]], k);
      FindConcat(Keep(c[..n], sel), [c[n]], k);
      SingletonFind(c[n], k);
      var d := Keep(c[..n], sel);
      assert Keep(c, sel) == if sel(c[n].key, c[n].value) then d else d + [c[n]];
    }
  }

  lemma {:induction false} KeepChain<V>(c: seq<Element<V>>, sel: (Key, V) -> bool, b: nat, num: nat)
    requires num > 0 && GoodChain(c, b, num)
    ensures GoodChain(Keep(c, sel), b, num) && |Keep(c, sel)| <= |c|
    decreases |c|
  {
    hide Hash;
    if c != [] {
      var n := |c| - 1;
      var d := Keep(c[..n], sel);
      KeepChain(c[..n], sel, b, num);
      forall i | 0 <= i < |d| ensures d[i].key != c[n].key {
        KeepFind(c[..n], sel, d[i].key);
        assert Find(c[..n], d[i].key).Some?;
      }
    }
  }

  function Kept<V>(x: Option<V>, key: Key, sel: (Key, V) -> bool): Option<V> {
    if x.Some? && sel(key, x.value) then None else x
  }

  lemma {:induction false} DroppedTotal<V>(store: seq<seq<Element<V>>>, sel: (Key, V) -> bool)
    ensures Total(KeepAll(store, sel)) == Total(store) - Dropped(store, sel)
    decreases |store|
  {
    if store != [] {
      var n := |store| - 1;
      DroppedTotal(store[..n], sel);
      assert KeepAll(store, sel)[..n] == KeepAll(store[..n], sel);
    }
  }

  lemma {:induction false} DroppedBound<V>(store: seq<seq<Element<V>>>, sel: (Key, V) -> bool)
    ensures Dropped(store, sel) <= Total(store)
    decreases |store|
  {
    if store != [] {
      DroppedBound(store[..|store| - 1], sel);
    }
  }

  lemma IterateChained<V>(t: Table<V>, sel: (Key, V) -> bool)
    requires Chained(t)
    ensures var t' := Iterate(t, sel);
      Chained(t') && t'.count - Total(t'.store) == t.count - Total(t.store) && 0 <= Total(t'.store) <= Total(t.store)
  {
    hide Dropped, Keep, Total;
    DroppedTotal(t.store, sel);
    DroppedBound(t.store, sel);
    forall b | 0 <= b < t.num ensures GoodChain(Keep(t.store[b], sel), b, t.num) {
      KeepChain(t.store[b], sel, b, t.num);
    }
  }

  /** Iterating removes exactly the selected entries. */
  lemma IterateGood<V>(t: Table<V>, sel: (Key, V) -> bool)
    requires Chained(t)
    ensures Chained(Iterate(t, sel)) && (Valid(t) ==> Valid(Iterate(t, sel)) && 0 <= Iterate(t, sel).count <= t.count)
    ensures Sound(t) ==> Sound(Iterate(t, sel))
    ensures forall k :: Lookup(Iterate(t, sel), k) == Kept(Lookup(t, k), k, sel)
  {
    hide Dropped, Keep, Find, Hash, Total;
    IterateChained(t, sel);
    forall k ensures Lookup(Iterate(t, sel), k) == Kept(Lookup(t, k), k, sel) {
      KeepFind(Chain(t, k), sel, k);
    }
  }

  /* ---- exactly when the table is a map ---- */

  lemma {:induction false} DistinctCount<V>(es: seq<Element<V>>, keys: set<Key>)
    requires DistinctKeys(es) && forall k :: k in keys <==> Find(es, k).Some?
    ensures |keys| == |es|
    decreases |es|
  {
    if es == [] {
      assert keys == {};
    } else {
      var e, rest := es[0], es[1..];
      forall k ensures k in keys - {e.key} <==> Find(rest, k).Some? {
        assert es == [e] + rest;
        FindConcat([e], rest, k);
        SingletonFind(e, k);
      }
      DistinctCount(rest, keys - {e.key});
      assert Find(es, e.key).Some?;
    }
  }

  /** The number of elements is the number of keys of the map. */
  lemma TotalIsSize<V>(t: Table<V>, m: map<Key, V>)
    requires Chained(t) && Agrees(t, m)
    ensures Total(t.store) == |m|
  {
    FirstDistinct(t, t.num);
    assert t.store[..t.num] == t.store;
    forall k ensures k in m.Keys <==> Find(Elements(t.store), k).Some? {
      FindAmongAll(t, k);
    }
    FindAmongAll(t, []);
    DistinctCount(Elements(t.store), m.Keys);
  }

  /** key_count is the number of keys of the map. */
  lemma CountIsSize<V>(t: Table<V>, m: map<Key, V>)
    requires Valid(t) && Agrees(t, m)
    ensures t.count == |m|
  {
    TotalIsSize(t, m);
  }

  /** The chain in which a removal looks for the key, after any contraction. */
  function RemovalChain<V>(t: Table<V>, key: Key): seq<Element<V>>
    requires Shaped(t) && t.count > 0
  {
    Chain(Contract(t), key)
  }

  /** Removing the key would cut off the element in front of it. */
  predicate Loses<V>(t: Table<V>, key: Key)
    requires Shaped(t)
  {
    t.count > 0 && IsSecond(RemovalChain(t, key), key)
  }

  /** The key that goes with it: the head of the chain when the one removed is second. */
  function Victims<V>(t: Table<V>, key: Key): set<Key>
    requires Shaped(t)
  {
    if t.count > 0 then Front(RemovalChain(t, key), key) else {}
  }

  lemma VictimIsOther<V>(t: Table<V>, key: Key)
    requires Sound(t)
    ensures key !in Victims(t, key) && (Victims(t, key) == {} <==> !Loses(t, key))
    ensures forall k :: k in Victims(t, key) ==> Lookup(t, k).Some? && Lookup(t, key).Some?
  {
    hide Hash, Resize;
    if Loses(t, key) {
      ContractSound(t);
      var t' := Contract(t);
      var c := Chain(t', key);
      assert GoodChain(c, Hash(key, t'.num), t'.num);
      assert Position(c, c[0].key) == 0 && Position(c, key) == 1;
      assert Hash(c[0].key, t'.num) == Hash(key, t'.num);
      assert Victims(t, key) == {c[0].key};
    }
  }

  /** Removing, in every case: the key goes, its victim with it, and nothing else. */
  lemma RemoveExact<V>(t: Table<V>, key: Key)
    requires Sound(t) && t.count > 0
    ensures Sound(Remove(t, key)) && Remove(t, key).count <= t.count - if Lookup(t, key).Some? then 1 else 0
    ensures forall k :: Lookup(Remove(t, key), k) == if k == key || k in Victims(t, key) then None else Lookup(t, k)
  {
    hide Hash, Lookup, Resize, Delete, Front;
    ContractSound(t);
    DeleteExact(Contract(t), key);
  }

  /** Adding a key that does not head its chain sets it, after losses too. */
  lemma AddExact<V>(t: Table<V>, key: Key, value: V)
    requires Sound(t) && t.count + 1 < MAX_KEYS && !IsHead(Chain(Expand(t), key), key)
    ensures Sound(Add(t, key, value)) && Add(t, key, value).count <= t.count + 1
    ensures forall k :: Lookup(Add(t, key, value), k) == if k == key then Some(value) else Lookup(t, k)
  {
    hide Hash, Resize;
    ExpandSound(t);
    InsertGood(Expand(t), Element(key, value));
  }

  /** Adding updates the map if and only if the key does not head its chain (after any expansion). */
  lemma AddIff<V>(t: Table<V>, m: map<Key, V>, key: Key, value: V)
    requires Valid(t) && Sized(t) && Agrees(t, m)
    ensures Valid(Add(t, key, value)) && Agrees(Add(t, key, value), m[key := value])
      <==> !IsHead(Chain(Expand(t), key), key)
    ensures !IsHead(Chain(Expand(t), key), key) && t.count + 1 < MAX_KEYS ==> Sized(Add(t, key, value))
  {
    ExpandSized(t);
    var t' := Expand(t);
    if IsHead(Chain(t', key), key) {
      InsertHead(t', Element(key, value));
    } else {
      InsertGood(t', Element(key, value));
      LoadFactor(t'.count, t'.num);
    }
  }

  lemma SecondHasHead<V>(t: Table<V>, key: Key)
    requires Chained(t) && IsSecond(Chain(t, key), key)
    ensures var h := Chain(t, key)[0].key;
      h != key && Lookup(t, h).Some? && Hash(h, t.num) == Hash(key, t.num)
  {
    var c := Chain(t, key);
    assert GoodChain(c, Hash(key, t.num), t.num);
    assert Position(c, c[0].key) == 0;
  }

  /** Removing removes from the map if and only if the key is not second in its chain (after any contraction). */
  lemma RemoveIff<V>(t: Table<V>, m: map<Key, V>, key: Key)
    requires Valid(t) && Sized(t) && Agrees(t, m) && t.count > 0
    ensures Valid(Remove(t, key)) && Agrees(Remove(t, key), m - {key}) <==> !Loses(t, key)
    ensures !Loses(t, key) ==> Sized(Remove(t, key))
  {
    hide Hash, Resize, Delete;
    ContractSized(t);
    var t' := Contract(t);
    var c := Chain(t', key);
    DeleteExact(t', key);
    if IsSecond(c, key) {
      SecondHasHead(t', key);
      assert c[0].key in m - {key};
    } else {
      CountIsSize(t, m);
    }
  }

  /* ---- a run that loses a key ---- */

  lemma {:induction false} ElementsOfOne<V>(num: nat, i: nat, c: seq<Element<V>>)
    requires i < num
    ensures Elements(Empty<V>(num).store[i := c]) == c
  {
    var store := Empty<V>(num).store[i := c];
    if i < num - 1 {
      ElementsOfOne(num - 1, i, c);
      assert store[..num - 1] == Empty<V>(num - 1).store[i := c];
    } else {
      ElementsOfNone<V>(num - 1);
      assert store[..num - 1] == Empty<V>(num - 1).store;
    }
  }

  lemma {:induction false} ElementsOfNone<V>(num: nat)
    ensures Elements(Empty<V>(num).store) == []
  {
    if num > 0 {
      ElementsOfNone<V>(num - 1);
      assert Empty<V>(num).store[..num - 1] == Empty<V>(num - 1).store;
    }
  }

  /** Two keys of one bucket in an otherwise empty table stand in the order in which they came. */
  lemma TwoInserted<V>(num: nat, e: Element<V>, f: Element<V>)
    requires num > 0 && e.key != f.key && Hash(e.key, num) == Hash(f.key, num)
    ensures Insert(Insert(Empty<V>(num), e), f) == Table(Empty<V>(num).store[Hash(e.key, num) := [e, f]], 2, num)
  {
    hide Hash;
    var t := Insert(Empty<V>(num), e);
    assert Chain(Empty<V>(num), e.key) == [] && Chain(t, f.key) == [e];
    assert [e][1..] == [] && [e] + [f] == [e, f];
  }

  /**
   From the empty table: two keys of one bucket are added and the first is removed. The removal contracts
   the table, which turns the chain round; the key is now second and takes the other one along.
   */
  lemma RemovalForgetsOther<V>(a: Key, b: Key, x: V, y: V)
    requires a != b && Hash(a, INITIAL_NUM) == Hash(b, INITIAL_NUM) && Hash(a, INITIAL_NUM / 2) == Hash(b, INITIAL_NUM / 2)
    ensures var t := Add(Add(Empty<V>(INITIAL_NUM), a, x), b, y);
      && Sound(t) && t.count == 2 && Lookup(t, a) == Some(x) && Lookup(t, b) == Some(y)
      && Loses(t, a) && Victims(t, a) == {b} && Lookup(Remove(t, a), b) == None && Remove(t, a).count == 1
  {
    hide Hash, Sound, Lookup, Contract, Add, Remove;
    var e, f := Element(a, x), Element(b, y);
    var t := TwoAdded(e, f);
    Turned(e, f, t);
    var t' := Contract(t);
    assert Chain(t', a) == [f, e];
    VictimIsOther(t, a);
    RemoveExact(t, a);
    OneLess(t, a);
  }

  /** Contraction re-enters the elements from the last to the first and so turns a chain round. */
  lemma Turned<V>(e: Element<V>, f: Element<V>, t: Table<V>)
    requires e.key != f.key && Hash(e.key, INITIAL_NUM / 2) == Hash(f.key, INITIAL_NUM / 2)
    requires t == Table(Empty<V>(INITIAL_NUM).store[Hash(e.key, INITIAL_NUM) := [e, f]], 2, INITIAL_NUM)
    ensures Contract(t) == Table(Empty<V>(INITIAL_NUM / 2).store[Hash(e.key, INITIAL_NUM / 2) := [f, e]], 2, INITIAL_NUM / 2)
  {
    hide Hash, Elements, Insert;
    ElementsOfOne(INITIAL_NUM, Hash(e.key, INITIAL_NUM), [e, f]);
    var t0 := Empty<V>(INITIAL_NUM / 2);
    assert [e, f][1..] == [f] && [f][1..] == [];
    assert InsertBackwards(t0, [f]) == Insert(InsertBackwards(t0, []), f) == Insert(t0, f);
    assert InsertBackwards(t0, [e, f]) == Insert(Insert(t0, f), e);
    TwoInserted(INITIAL_NUM / 2, f, e);
  }

  lemma OneLess<V>(t: Table<V>, key: Key)
    requires Sound(t) && Loses(t, key)
    ensures Remove(t, key).count == Contract(t).count - 1
  {
    hide Hash, Contract;
    VictimIsOther(t, key);
    assert Position(RemovalChain(t, key), key) <= 1;
  }

  lemma TwoAdded<V>(e: Element<V>, f: Element<V>) returns (t: Table<V>)
    requires e.key != f.key && Hash(e.key, INITIAL_NUM) == Hash(f.key, INITIAL_NUM)
    ensures t == Add(Add(Empty<V>(INITIAL_NUM), e.key, e.value), f.key, f.value)
    ensures t == Table(Empty<V>(INITIAL_NUM).store[Hash(e.key, INITIAL_NUM) := [e, f]], 2, INITIAL_NUM)
    ensures Sound(t) && Lookup(t, e.key) == Some(e.value) && Lookup(t, f.key) == Some(f.value)
  {
    hide Hash, Chained;
    NewTable<V>();
    var t0 := Empty<V>(INITIAL_NUM);
    SizedSound(t0);
    TwoInserted(INITIAL_NUM, e, f);
    AddExact(t0, e.key, e.value);
    t := Add(Add(t0, e.key, e.value), f.key, f.value);
    AddExact(Add(t0, e.key, e.value), f.key, f.value);
  }

  lemma SizedSound<V>(t: Table<V>)
    requires Valid(t) && Sized(t)
    ensures Sound(t)
  {
  }

  /** Keys of a single character all share a bucket, whatever the size of the table. */
  lemma ShortKeysCollide(c: char, d: char, num: nat)
    requires num > 0
    ensures Hash([c], num) == Hash([d], num)
  {
    assert Hashed([c], 0) == Hashed([d], 0) == 0xbabe;
  }

  datatype Op<!V> = OpAdd(key: Key, value: V) | OpRemove(key: Key) | OpIterate(sel: (Key, V) -> bool)

  function Apply<V>(t: Table<V>, op: Op<V>): (t': Table<V>)
    requires Shaped(t)
    ensures Shaped(t')
    requires op.OpRemove? ==> t.count > 0
  {
    match op
    case OpAdd(k, v) => Add(t, k, v)
    case OpRemove(k) => Remove(t, k)
    case OpIterate(sel) => Iterate(t, sel)
  }

  function ApplyToMap<V>(m: map<Key, V>, op: Op<V>): map<Key, V> {
    match op
    case OpAdd(k, v) => m[k := v]
    case OpRemove(k) => m - {k}
    case OpIterate(sel) => map k | k in m && !sel(k, m[k]) :: m[k]
  }

  /** The caller's guard for one call. */
  predicate Clean<V>(t: Table<V>, op: Op<V>)
    requires Sized(t)
  {
    match op
    case OpAdd(k, _) => !IsHead(Chain(Expand(t), k), k)
    case OpRemove(k) => t.count > 0 && !Loses(t, k)
    case OpIterate(_) => true
  }

  ghost predicate CleanRun<V>(t: Table<V>, ops: seq<Op<V>>, t': Table<V>)
    decreases |ops|
  {
    if ops == [] then t == t'
    else Sized(t) && Clean(t, ops[0]) && CleanRun(Apply(t, ops[0]), ops[1..], t')
  }

  function RunOnMap<V>(m: map<Key, V>, ops: seq<Op<V>>): map<Key, V>
    decreases |ops|
  {
    if ops == [] then m else RunOnMap(ApplyToMap(m, ops[0]), ops[1..])
  }

  /** Over any guarded run, resizing included, the table answers as the finite map does. */
  lemma {:induction false} RunRefines<V>(t: Table<V>, m: map<Key, V>, ops: seq<Op<V>>, t': Table<V>)
    requires Valid(t) && Sized(t) && Agrees(t, m) && t.count + |ops| < MAX_KEYS
    requires CleanRun(t, ops, t')
    ensures Valid(t') && Sized(t') && Agrees(t', RunOnMap(m, ops)) && t'.count == |RunOnMap(m, ops)|
    decreases |ops|
  {
    if ops == [] {
      CountIsSize(t, m);
    } else {
      StepRefines(t, m, ops[0]);
      RunRefines(Apply(t, ops[0]), ApplyToMap(m, ops[0]), ops[1..], t');
    }
  }

  lemma StepRefines<V>(t: Table<V>, m: map<Key, V>, op: Op<V>)
    requires Valid(t) && Sized(t) && Agrees(t, m) && t.count + 1 < MAX_KEYS && Clean(t, op)
    ensures var t' := Apply(t, op);
      Valid(t') && Sized(t') && Agrees(t', ApplyToMap(m, op)) && t'.count <= t.count + 1
  {
    match op
    case OpAdd(k, v) =>
      AddIff(t, m, k, v);
      ExpandSized(t);
      InsertGood(Expand(t), Element(k, v));
    case OpRemove(k) =>
      RemoveIff(t, m, k);
      ContractSized(t);
      CountIsSize(t, m);
      CountIsSize(Remove(t, k), m - {k});
      assert (m - {k}).Keys <= m.Keys;
      SubsetSize((m - {k}).Keys, m.Keys);
    case OpIterate(sel) => IterateGood(t, sel);
  }

  /* ---- every run, removals of second elements included ---- */

  /** All the code asks of its caller: no key heading its chain is added, and nothing is removed at a count of zero. */
  predicate Callable<V>(t: Table<V>, op: Op<V>)
    requires Shaped(t)
  {
    match op
    case OpAdd(k, _) => !IsHead(Chain(Expand(t), k), k)
    case OpRemove(_) => t.count > 0
    case OpIterate(_) => true
  }

  /** The map afterwards: a removal takes its victim along. */
  function Effect<V>(t: Table<V>, m: map<Key, V>, op: Op<V>): map<Key, V>
    requires Shaped(t)
  {
    match op
    case OpAdd(k, v) => m[k := v]
    case OpRemove(k) => m - {k} - Victims(t, k)
    case OpIterate(sel) => map k | k in m && !sel(k, m[k]) :: m[k]
  }

  ghost predicate CallableRun<V>(t: Table<V>, m: map<Key, V>, ops: seq<Op<V>>, t': Table<V>, m': map<Key, V>)
    requires Shaped(t)
    decreases |ops|
  {
    if ops == [] then t == t' && m == m'
    else Callable(t, ops[0]) && CallableRun(Apply(t, ops[0]), Effect(t, m, ops[0]), ops[1..], t', m')
  }

  /** Over every such run the table answers as the map that loses the victims, and stays sound. */
  lemma {:induction false} RunExact<V>(t: Table<V>, m: map<Key, V>, ops: seq<Op<V>>, t': Table<V>, m': map<Key, V>)
    requires Sound(t) && Agrees(t, m) && t.count + |ops| < MAX_KEYS && CallableRun(t, m, ops, t', m')
    ensures Sound(t') && Agrees(t', m') && Total(t'.store) == |m'| <= t'.count
    decreases |ops|
  {
    hide Sound, Agrees, Effect, Apply;
    SoundChained(t);
    if ops == [] {
      SoundSize(t, m);
    } else {
      StepExact(t, m, ops[0]);
      RunExact(Apply(t, ops[0]), Effect(t, m, ops[0]), ops[1..], t', m');
    }
  }

  lemma SoundSize<V>(t: Table<V>, m: map<Key, V>)
    requires Sound(t) && Agrees(t, m)
    ensures Total(t.store) == |m| <= t.count
  {
    hide Agrees;
    TotalIsSize(t, m);
  }

  lemma StepExact<V>(t: Table<V>, m: map<Key, V>, op: Op<V>)
    requires Sound(t) && Agrees(t, m) && t.count + 1 < MAX_KEYS && Callable(t, op)
    ensures var t' := Apply(t, op);
      Sound(t') && Agrees(t', Effect(t, m, op)) && t'.count <= t.count + 1
  {
    hide Sound, Hash, Lookup, Add, Remove, Iterate, Expand, Chained, Valid, Victims;
    match op
    case OpAdd(k, v) => AddExact(t, k, v);
    case OpRemove(k) => RemoveExact(t, k);
    case OpIterate(sel) =>
      SoundChained(t);
      IterateGood(t, sel);
      IterateCount(t, sel);
  }

  lemma SoundChained<V>(t: Table<V>)
    requires Sound(t)
    ensures Chained(t)
  {
  }

  lemma IterateCount<V>(t: Table<V>, sel: (Key, V) -> bool)
    ensures Iterate(t, sel).count <= t.count
  {
  }

  lemma SubsetSize<T>(a: set<T>, b: set<T>)
    requires a <= b
    ensures |a| <= |b|
  {
    assert b == a + (b - a);
  }

  lemma NewTable<V>()
    ensures Valid(Empty<V>(INITIAL_NUM)) && Sized(Empty<V>(INITIAL_NUM)) && Agrees(Empty<V>(INITIAL_NUM), map[])
  {
    EmptyValid<V>(INITIAL_NUM);
    assert PowerOfTwo(1) && PowerOfTwo(2) && PowerOfTwo(4) && PowerOfTwo(8) && PowerOfTwo(16) && PowerOfTwo(32);
    assert PowerOfTwo(64) && PowerOfTwo(128);
  }
}
