/**
 The hash table as an object, with the loops of the original, and the table of client records the
 controller keeps in it. Every method is tied to the function of HashTable with the same purpose.
 */
module InfoTable {
  import opened Wrappers
  import opened HashTable

  class HashMap<V> {
    var storeHouse: seq<seq<Element<V>>>
    var keyCount: int
    var keyNum: nat

    constructor ()
      ensures View() == Empty<V>(INITIAL_NUM)
    {
      storeHouse := seq(INITIAL_NUM, _ => []);
      keyCount := 0;
      keyNum := INITIAL_NUM;
    }

    ghost function View(): Table<V>
      reads this
    {
      Table(storeHouse, keyCount, keyNum)
    }

    ghost predicate Ready()
      reads this
    {
      Sound(View())
    }

    static method DoHash(key: Key, maxKey: nat) returns (h: nat)
      requires maxKey > 0
      ensures h == Hash(key, maxKey) && h < maxKey
    {
      hide Mix, Word;
      var hash: bv16 := 0xbabe;
      for i := 0 to |key| / 2
        invariant hash == Hashed(key, i)
      {
        hash := Mix(hash, i, Word(key, i));
      }
      h := (hash as nat) % maxKey;
    }

    method HasKey(key: Key) returns (found: bool)
      requires Shaped(View())
      ensures found == HashTable.Lookup(View(), key).Some?
    {
      var r := LookUp(key);
      found := r.Some?;
    }

    method LookUp(key: Key) returns (r: Option<V>)
      requires Shaped(View())
      ensures r == HashTable.Lookup(View(), key)
    {
      var hash := DoHash(key, keyNum);
      var chain := storeHouse[hash];
      var i := 0;
      while i < |chain|
        invariant i <= Position(chain, key)
      {
        while i < |chain| && |chain[i].key| != |key|
          invariant i <= Position(chain, key)
        {
          i := i + 1;
        }
        if i < |chain| {
          if chain[i].key == key {
            return Some(chain[i].value);
          }
          i := i + 1;
        }
      }
      return None;
    }

    method GetElements() returns (es: seq<Element<V>>)
      requires |storeHouse| == keyNum
      ensures es == Elements(storeHouse)
    {
      es := [];
      for i := 0 to keyNum
        invariant es == Elements(storeHouse[..i])
      {
        assert storeHouse[..i + 1][..i] == storeHouse[..i];
        var chain := storeHouse[i];
        for j := 0 to |chain|
          invariant es == Elements(storeHouse[..i]) + chain[..j]
        {
          es := es + [chain[j]];
        }
        assert chain[..|chain|] == chain;
      }
      assert storeHouse[..keyNum] == storeHouse;
    }

    /** New store of len buckets, refilled from the last element to the first. */
    method ResizeTo(len: nat)
      requires Ready() && 2 <= len <= 32768 && PowerOfTwo(len) && Total(storeHouse) <= KEY_RATIO * len
      modifies this
      ensures View() == Resize(old(View()), len) && Ready()
      decreases 1
    {
      hide Sound, InsertBackwards, Add, Elements, Resize, Total;
      ghost var t := View();
      ReadyShaped(t);
      ResizeNothing(t, len);
      var es := GetElements();
      if |es| == 0 {
        return;
      }
      var count := |es|;
      Refill(t, len, count);
      storeHouse := seq(len, _ => []);
      keyNum := len;
      keyCount := 0;
      while count > 0
        invariant 0 <= count <= |es|
        invariant View() == InsertBackwards(Empty(len), es[count..])
      {
        Refill(t, len, count);
        count := count - 1;
        Refill(t, len, count);
        AddElement(es[count].key, es[count].value);
      }
      Refill(t, len, 0);
    }

    /** The walk along a chain that adding makes. */
    static method AddToChain(chain: seq<Element<V>>, e: Element<V>) returns (c: seq<Element<V>>)
      ensures c == AddTo(chain, e)
    {
      if |chain| == 0 {
        return [e];
      }
      var i := 0;
      while i + 1 < |chain|
        invariant 0 <= i < |chain| && i <= Position(chain[1..], e.key)
      {
        while i + 1 < |chain| && |chain[i + 1].key| != |e.key|
          invariant 0 <= i < |chain| && i <= Position(chain[1..], e.key)
        {
          i := i + 1;
        }
        if i + 1 < |chain| {
          if chain[i + 1].key == e.key {
            return chain[i + 1 := e];
          }
          i := i + 1;
        }
      }
      return chain + [e];
    }

    /** The walk along a chain that removing makes. */
    static method RemoveFromChain(chain: seq<Element<V>>, key: Key) returns (c: seq<Element<V>>, found: bool)
      ensures c == RemoveFrom(chain, key) && found == (Position(chain, key) < |chain|)
    {
      var i, prev := 0, 0;
      while i < |chain|
        invariant i <= Position(chain, key) && prev == if i == 0 then 0 else i - 1
      {
        while i < |chain| && |chain[i].key| != |key|
          invariant i <= Position(chain, key) && prev == if i == 0 then 0 else i - 1
        {
          prev := i;
          i := i + 1;
        }
        if i < |chain| {
          if chain[i].key == key {
            return if prev == 0 then chain[i + 1..] else chain[..prev + 1] + chain[i + 1..], true;
          }
          prev := i;
          i := i + 1;
        }
      }
      return chain, false;
    }

    /** Adds without comparing the head of the chain; expands first when the load factor is reached. */
    method AddElement(key: Key, value: V)
      requires Ready() && keyCount + 1 < MAX_KEYS
      modifies this
      ensures View() == Add(old(View()), key, value)
      ensures !IsHead(Chain(Expand(old(View())), key), key) ==> Ready()
      decreases if keyCount / keyNum >= KEY_RATIO then 2 else 0
    {
      hide Sound, Resize, AddTo, Hash, Total;
      ghost var t := View();
      ReadyShaped(t);
      ExpandSound(t);
      if !IsHead(Chain(Expand(t), key), key) {
        AddExact(t, key, value);
      }
      if keyCount / keyNum >= KEY_RATIO {
        ResizeTo(keyNum * 2);
      }
      var hash := DoHash(key, keyNum);
      var chain := storeHouse[hash];
      var chain' := AddToChain(chain, Element(key, value));
      storeHouse := storeHouse[hash := chain'];
      if |chain'| > |chain| {
        keyCount := keyCount + 1;
      }
      AddToLength(chain, Element(key, value));
    }

    /** Removes; when the match is the first or the second element the chain restarts behind it. */
    method RemoveKey(key: Key) returns (found: bool)
      requires Ready() && keyCount > 0
      modifies this
      ensures View() == Remove(old(View()), key) && Ready()
      ensures found == HashTable.Lookup(old(View()), key).Some?
    {
      hide Sound, Resize, RemoveFrom, Hash, Total;
      ghost var t := View();
      ReadyShaped(t);
      ContractSound(t);
      RemoveExact(t, key);
      if keyNum / keyCount >= KEY_RATIO {
        ResizeTo(keyNum / 2);
      }
      assert View() == Contract(t);
      var hash := DoHash(key, keyNum);
      var chain := storeHouse[hash];
      chain, found := RemoveFromChain(chain, key);
      if found {
        storeHouse := storeHouse[hash := chain];
        keyCount := keyCount - 1;
      }
    }

    /** Walks a chain, freeing the selected elements and counting them off. */
    method KeepInChain(chain: seq<Element<V>>, sel: (Key, V) -> bool) returns (kept: seq<Element<V>>)
      modifies this`keyCount
      ensures kept == Keep(chain, sel) && keyCount == old(keyCount) - (|chain| - |kept|)
    {
      kept := [];
      for j := 0 to |chain|
        invariant kept == Keep(chain[..j], sel) && keyCount == old(keyCount) - (j - |kept|)
      {
        assert chain[..j + 1][..j] == chain[..j];
        if sel(chain[j].key, chain[j].value) {
          keyCount := keyCount - 1;
        } else {
          kept := kept + [chain[j]];
        }
      }
      assert chain[..|chain|] == chain;
    }

    /** The buckets before i of t have been filtered, and the count adjusted. */
    ghost predicate Halfway(t: Table<V>, sel: (Key, V) -> bool, i: nat)
      reads this
      requires i <= |t.store|
    {
      && keyNum == t.num == |t.store|
      && storeHouse == KeepAll(t.store[..i], sel) + t.store[i..]
      && keyCount == t.count - Dropped(t.store[..i], sel)
    }

    method KeepInBucket(i: nat, sel: (Key, V) -> bool, ghost t: Table<V>)
      requires i < |t.store| && i < |storeHouse| && Halfway(t, sel, i)
      modifies this
      ensures |storeHouse| == old(|storeHouse|) && Halfway(t, sel, i + 1)
    {
      hide Dropped, KeepAll, Keep;
      KeepNext(t.store, i, sel);
      var kept := KeepInChain(storeHouse[i], sel);
      storeHouse := storeHouse[i := kept];
    }

    /** Removes every entry the callback selects. */
    method IterateAll(sel: (Key, V) -> bool)
      requires Ready()
      modifies this
      ensures View() == Iterate(old(View()), sel) && Ready()
    {
      hide Iterate, Dropped, KeepAll, Sound;
      ghost var t := View();
      ReadyShaped(t);
      KeepNone(t.store, sel);
      KeepLast(t, sel);
      IterateSound(t, sel);
      for i := 0 to keyNum
        invariant keyNum == |storeHouse| == |t.store| && Halfway(t, sel, i)
      {
        KeepInBucket(i, sel, t);
      }
    }
  }

  lemma ReadyShaped<V>(t: Table<V>)
    requires Sound(t)
    ensures Shaped(t) && t.num == |t.store| && t.num > 1 && t.count >= 0 && PowerOfTwo(t.num) && t.num <= 32768
    ensures t.count / t.num >= KEY_RATIO && t.count < MAX_KEYS ==> PowerOfTwo(t.num * 2)
    ensures t.count > 0 && t.num / t.count >= KEY_RATIO ==> PowerOfTwo(t.num / 2)
  {
    LoadFactor(t.count, t.num);
    if t.count / t.num >= KEY_RATIO { PowerBelow(t.num); }
    if t.count > 0 { LoadFactor(t.num, t.count); }
  }

  lemma IterateSound<V>(t: Table<V>, sel: (Key, V) -> bool)
    requires Sound(t)
    ensures Sound(Iterate(t, sel))
  {
    hide Iterate;
    SoundChained(t);
    IterateGood(t, sel);
  }

  lemma ResizeNothing<V>(t: Table<V>, len: nat)
    requires Shaped(t) && len > 0
    ensures Elements(t.store) == [] ==> Resize(t, len) == t
  {
  }

  lemma KeepNone<V>(store: seq<seq<Element<V>>>, sel: (Key, V) -> bool)
    ensures KeepAll(store[..0], sel) == [] && Dropped(store[..0], sel) == 0
    ensures KeepAll(store[..0], sel) + store[0..] == store
  {
  }

  lemma KeepLast<V>(t: Table<V>, sel: (Key, V) -> bool)
    ensures var n := |t.store|;
      Iterate(t, sel) == Table(KeepAll(t.store[..n], sel) + t.store[n..], t.count - Dropped(t.store[..n], sel), t.num)
  {
    assert t.store[..|t.store|] == t.store;
  }

  lemma KeepNext<V>(store: seq<seq<Element<V>>>, i: nat, sel: (Key, V) -> bool)
    requires i < |store|
    ensures var mixed := KeepAll(store[..i], sel) + store[i..];
      && |mixed| == |store| && mixed[i] == store[i]
      && KeepAll(store[..i + 1], sel) + store[i + 1..] == mixed[i := Keep(store[i], sel)]
    ensures Dropped(store[..i + 1], sel) == Dropped(store[..i], sel) + |store[i]| - |Keep(store[i], sel)|
  {
    assert store[..i + 1][..i] == store[..i];
  }

  lemma AddToLength<V>(c: seq<Element<V>>, e: Element<V>)
    ensures |c| <= |AddTo(c, e)| <= |c| + 1
  {
  }

  /** A table rebuilt from some of the elements of another. */
  lemma RefillState<V>(t: Table<V>, len: nat, count: nat)
    requires Sound(t) && 2 <= len <= 32768 && PowerOfTwo(len) && Total(t.store) <= KEY_RATIO * len
    requires count <= |Elements(t.store)|
    ensures var es := Elements(t.store);
      var t' := InsertBackwards(Empty(len), es[count..]);
      Sound(t') && t'.count == |es| - count && t'.count + (if count > 0 then 1 else 0) < MAX_KEYS
  {
    hide InsertBackwards, Elements, Hash, Lookup, Find;
    var es := Elements(t.store);
    FirstDistinct(t, t.num);
    assert t.store[..t.num] == t.store;
    FindAmongAll(t, []);
    InsertAll(len, es[count..]);
  }

  /** The state of a refill with `count` elements still to come. */
  lemma Refill<V>(t: Table<V>, len: nat, count: nat)
    requires Sound(t) && 2 <= len <= 32768 && PowerOfTwo(len) && Total(t.store) <= KEY_RATIO * len
    requires count <= |Elements(t.store)|
    ensures var es := Elements(t.store);
      var t' := InsertBackwards(Empty(len), es[count..]);
      && Sound(t') && t'.count == |es| - count && t'.count + (if count > 0 then 1 else 0) < MAX_KEYS
      && (count == |es| ==> t' == Table(seq(len, _ => []), 0, len))
      && (count == 0 && es != [] ==> t' == Resize(t, len))
      && (count > 0 ==> t'.count / t'.num < KEY_RATIO)
      && (count > 0 ==> Add(t', es[count - 1].key, es[count - 1].value) == InsertBackwards(Empty(len), es[count - 1..]))
  {
    hide Sound, Add, Elements;
    RefillState(t, len, count);
    SoundChained(t);
    if count > 0 {
      NoNestedResize(t, len, count - 1);
    } else {
      assert Elements(t.store)[0..] == Elements(t.store);
    }
  }

  /** The records of the connected clients, by identifier. */
  class ClientTable<V> {
    const table: HashMap<V>
    /** The finite map the table stands for. */
    ghost var contents: map<Key, V>

    constructor ()
      ensures Coherent() && contents == map[] && fresh(table) && table.View() == Empty<V>(INITIAL_NUM)
    {
      table := new HashMap<V>();
      contents := map[];
      new;
      NewTable<V>();
      SizedSound(table.View());
    }

    ghost predicate Coherent()
      reads this, table
    {
      table.Ready() && Agrees(table.View(), contents)
    }

    /** Adds a record unless there is one: the guard makes the addition safe. */
    method AddInfo(key: Key, info: V) returns (added: bool)
      requires Coherent() && table.keyCount + 1 < MAX_KEYS
      modifies this, table
      ensures Coherent() && added == (key !in old(contents))
      ensures contents == if added then old(contents)[key := info] else old(contents)
      ensures table.View() == WithInfo(old(table.View()), key, info) && table.keyCount <= old(table.keyCount) + 1
    {
      hide Sound, Add, HashTable.Lookup;
      ghost var t := table.View();
      ReadyShaped(t);
      var found := table.HasKey(key);
      added := !found;
      if added {
        ExpandSound(t);
        AbsentNotHead(Expand(t), key);
        AddExact(t, key, info);
        table.AddElement(key, info);
        contents := contents[key := info];
      }
    }

    method GetInfo(key: Key) returns (info: Option<V>)
      requires Coherent()
      ensures info == Get(contents, key) == HashTable.Lookup(table.View(), key)
    {
      info := table.LookUp(key);
    }

    method HasInfo(key: Key) returns (found: bool)
      requires Coherent()
      ensures found == (key in contents)
    {
      found := table.HasKey(key);
    }

    /** Deletes a record, and with one that is second in its chain the record in front of it. */
    method DeleteInfo(key: Key) returns (found: bool)
      requires Coherent() && table.keyCount > 0
      modifies this, table
      ensures Coherent() && found == (key in old(contents))
      ensures contents == old(contents) - {key} - Victims(old(table.View()), key)
      ensures contents == old(contents) - {key} <==> !Loses(old(table.View()), key)
      ensures table.View() == Remove(old(table.View()), key) && table.keyCount <= old(table.keyCount) - if found then 1 else 0
    {
      hide Sound, Loses, Remove, HashTable.Lookup, Victims;
      ghost var t := table.View();
      ReadyShaped(t);
      RemoveExact(t, key);
      VictimIsOther(t, key);
      found := table.RemoveKey(key);
      contents := contents - {key} - Victims(t, key);
    }

    /** Moves a record to a new key, if the old key has one and the new key has none; the victim of the old key goes. */
    method ModifyKey(oldKey: Key, newKey: Key) returns (moved: bool)
      requires Coherent()
      modifies this, table
      ensures Coherent() && moved == (oldKey in old(contents) && newKey !in old(contents))
      ensures contents == if !moved then old(contents)
        else (old(contents) - {oldKey} - Victims(old(table.View()), oldKey))[newKey := old(contents)[oldKey]]
      ensures moved ==>
        (contents == (old(contents) - {oldKey})[newKey := old(contents)[oldKey]] <==> !Loses(old(table.View()), oldKey))
    {
      hide Sound, Loses, Remove, HashTable.Lookup, Victims, WithInfo;
      ghost var t, m := table.View(), contents;
      ReadyShaped(t);
      var info := table.LookUp(oldKey);
      moved := false;
      if info.Some? {
        var taken := table.HasKey(newKey);
        if !taken {
          HasCount(t, oldKey);
          VictimIsOther(t, oldKey);
          MovedIff(m, oldKey, newKey, info.value, Victims(t, oldKey));
          var _ := DeleteInfo(oldKey);
          moved := AddInfo(newKey, info.value);
        }
      }
    }
  }

  /** table__add_info on values: nothing is added for a key that is there. */
  function WithInfo<V>(t: Table<V>, key: Key, info: V): (t': Table<V>)
    requires Shaped(t)
    ensures Shaped(t')
  {
    if Lookup(t, key).Some? then t else Add(t, key, info)
  }

  lemma WithInfoExact<V>(t: Table<V>, key: Key, info: V)
    requires Sound(t) && t.count + 1 < MAX_KEYS
    ensures Sound(WithInfo(t, key, info)) && WithInfo(t, key, info).count <= t.count + 1
    ensures forall k ::
      Lookup(WithInfo(t, key, info), k) == if k == key && Lookup(t, key).None? then Some(info) else Lookup(t, k)
  {
    hide Sound, Add, Lookup;
    ReadyShaped(t);
    if Lookup(t, key).None? {
      ExpandSound(t);
      AbsentNotHead(Expand(t), key);
      AddExact(t, key, info);
    }
  }

  lemma MovedIff<V>(m: map<Key, V>, oldKey: Key, newKey: Key, info: V, victims: set<Key>)
    requires newKey !in m && oldKey !in victims && forall k :: k in victims ==> k in m
    ensures (m - {oldKey} - victims)[newKey := info] == (m - {oldKey})[newKey := info] <==> victims == {}
  {
    if k :| k in victims {
      assert k in (m - {oldKey})[newKey := info] && k !in (m - {oldKey} - victims)[newKey := info];
    }
  }

  lemma HasCount<V>(t: Table<V>, key: Key)
    requires Sound(t) && Lookup(t, key).Some?
    ensures 0 < t.count < MAX_KEYS
  {
    hide Hash;
    TotalUpdate(t.store, Hash(key, t.num), []);
  }

  lemma AbsentNotHead<V>(t: Table<V>, key: Key)
    requires Shaped(t) && Lookup(t, key) == None
    ensures !IsHead(Chain(t, key), key)
  {
  }
}
