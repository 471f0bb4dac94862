/** Ruby's `Hash`: a finite map that also remembers the order in which keys
    were first inserted; assigning to an existing key keeps its position.
    Rulebooks and environment definitions are enumerated in this order. */
module OrderedHashes {
  import opened Values

  datatype Hash<K(==), V> = Hash(keys: seq<K>, entries: map<K, V>)

  /** The keys listed, as a set. */
  function KeySet<K>(keys: seq<K>): set<K> {
    if keys == [] then {} else {keys[0]} + KeySet(keys[1..])
  }

  /** No key is listed twice. */
  predicate Distinct<K(==)>(keys: seq<K>) {
    keys == [] || (keys[0] !in KeySet(keys[1..]) && Distinct(keys[1..]))
  }

  /** The keys are distinct and are exactly the keys of the entries. */
  predicate Valid<K(==), V>(h: Hash<K, V>) {
    Distinct(h.keys) && h.entries.Keys == KeySet(h.keys)
  }

  lemma {:induction false} KeySetMembers<K>(keys: seq<K>, k: K)
    ensures k in KeySet(keys) <==> k in keys
  {
    if keys != [] {
      KeySetMembers(keys[1..], k);
      assert k in keys <==> k == keys[0] || k in keys[1..];
    }
  }

  /** Appending a key adds it to the set, and keeps the keys distinct iff it is new. */
  lemma {:induction false} KeySetAppend<K>(keys: seq<K>, k: K)
    ensures KeySet(keys + [k]) == KeySet(keys) + {k}
    ensures Distinct(keys + [k]) <==> Distinct(keys) && k !in KeySet(keys)
  {
    if keys != [] {
      assert (keys + [k])[1..] == keys[1..] + [k];
      KeySetAppend(keys[1..], k);
    } else {
      assert [] + [k] == [k];
      assert [k][1..] == [];
    }
  }

  function Empty<K(==), V>(): (h: Hash<K, V>)
    ensures Valid(h)
  {
    Hash([], map[])
  }

  /** `hash[key] = value`. */
  function Store<K(==), V>(h: Hash<K, V>, key: K, value: V): (r: Hash<K, V>)
    ensures Valid(h) ==> Valid(r)
    ensures r.entries == h.entries[key := value]
    ensures key in h.entries ==> r.keys == h.keys
    ensures key !in h.entries ==> r.keys == h.keys + [key]
  {
    KeySetAppend(h.keys, key);
    Hash(if key in h.entries then h.keys else h.keys + [key], h.entries[key := value])
  }

  /** `hash[key]`: the stored value, or nil. */
  function Fetch<K(==), V>(h: Hash<K, V>, key: K): (r: Option<V>)
    ensures r.Some? <==> key in h.entries
  {
    if key in h.entries then Some(h.entries[key]) else None
  }

  /** Storing `keys` (those present in `entries`) one after another. */
  function StoreAll<K(==), V>(acc: Hash<K, V>, keys: seq<K>, entries: map<K, V>): (r: Hash<K, V>)
    ensures Valid(acc) ==> Valid(r)
    decreases |keys|
  {
    if keys == [] then acc
    else if keys[0] in entries then StoreAll(Store(acc, keys[0], entries[keys[0]]), keys[1..], entries)
    else StoreAll(acc, keys[1..], entries)
  }

  /** After storing, a key is present iff it was before or was stored, and
      holds the stored value if it was stored. */
  lemma {:induction false} StoreAllEntries<K, V>(acc: Hash<K, V>, keys: seq<K>, entries: map<K, V>, k: K)
    ensures k in StoreAll(acc, keys, entries).entries <==> (k in acc.entries || (k in keys && k in entries))
    ensures k in keys && k in entries ==> StoreAll(acc, keys, entries).entries[k] == entries[k]
    ensures !(k in keys && k in entries) && k in acc.entries ==> StoreAll(acc, keys, entries).entries[k] == acc.entries[k]
    decreases |keys|
  {
    if keys != [] {
      if keys[0] in entries {
        StoreAllEntries(Store(acc, keys[0], entries[keys[0]]), keys[1..], entries, k);
      } else {
        StoreAllEntries(acc, keys[1..], entries, k);
      }
      assert k in keys <==> k == keys[0] || k in keys[1..];
    }
  }

  /** Distinct keys, all present in `entries` and new to `acc`. */
  ghost predicate FreshKeys<K, V>(acc: Hash<K, V>, keys: seq<K>, entries: map<K, V>) {
    Distinct(keys) && KeySet(keys) <= entries.Keys && KeySet(keys) !! acc.entries.Keys
  }

  /** Storing the first fresh key leaves the others fresh. */
  lemma FreshKeysStep<K, V>(acc: Hash<K, V>, keys: seq<K>, entries: map<K, V>)
    requires keys != [] && FreshKeys(acc, keys, entries)
    ensures keys[0] in entries && keys[0] !in acc.entries
    ensures FreshKeys(Store(acc, keys[0], entries[keys[0]]), keys[1..], entries)
  {
  }

  /** Storing a present first key is storing it, then the rest. */
  lemma StoreAllHead<K, V>(acc: Hash<K, V>, keys: seq<K>, entries: map<K, V>)
    requires keys != [] && keys[0] in entries
    ensures StoreAll(acc, keys, entries) == StoreAll(Store(acc, keys[0], entries[keys[0]]), keys[1..], entries)
  {
  }

  /** Proof helper: a key appended and then a rest is the key and the rest
      appended. */
  lemma AppendAssociative<K>(a: seq<K>, k: K, rest: seq<K>)
    ensures (a + [k]) + rest == a + ([k] + rest)
  {
  }

  /** One step of storing fresh keys: the first key is appended. */
  lemma StoreAllKeysStep<K, V>(acc: Hash<K, V>, keys: seq<K>, entries: map<K, V>)
    requires keys != [] && keys[0] in entries && keys[0] !in acc.entries
    requires StoreAll(Store(acc, keys[0], entries[keys[0]]), keys[1..], entries).keys
      == Store(acc, keys[0], entries[keys[0]]).keys + keys[1..]
    ensures StoreAll(acc, keys, entries).keys == acc.keys + keys
  {
    StoreAllHead(acc, keys, entries);
    AppendAssociative(acc.keys, keys[0], keys[1..]);
    assert [keys[0]] + keys[1..] == keys;
  }

  /** Storing distinct new keys, all present in `entries`, appends them in order. */
  lemma {:induction false} StoreAllKeys<K, V>(acc: Hash<K, V>, keys: seq<K>, entries: map<K, V>)
    requires FreshKeys(acc, keys, entries)
    ensures StoreAll(acc, keys, entries).keys == acc.keys + keys
    decreases |keys|
  {
    if keys != [] {
      FreshKeysStep(acc, keys, entries);
      StoreAllKeys(Store(acc, keys[0], entries[keys[0]]), keys[1..], entries);
      StoreAllKeysStep(acc, keys, entries);
    }
  }

  /** Storing every entry of a hash into an empty one copies it. */
  lemma StoreAllCopies<K, V>(h: Hash<K, V>)
    requires Valid(h)
    ensures StoreAll(Empty(), h.keys, h.entries) == h
  {
    var e: Hash<K, V> := Empty();
    StoreAllKeys(e, h.keys, h.entries);
    var r := StoreAll(e, h.keys, h.entries);
    forall k | k in h.entries
      ensures k in r.entries && r.entries[k] == h.entries[k]
    {
      StoreAllEntries(e, h.keys, h.entries, k);
      KeySetMembers(h.keys, k);
    }
    forall k | k in r.entries
      ensures k in h.entries
    {
      StoreAllEntries(e, h.keys, h.entries, k);
    }
    assert r.entries == h.entries;
  }
}
