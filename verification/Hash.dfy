/** The hash table: an array of buckets, each a circular queue of entries, as a map from keys to values. */
module Hash {
  import opened Basics
  import opened Queue

  const HASH_SIZE := 1031

  /** A character of a key as it is added up: a signed char widened to 32 bits without a sign. */
  function Widened(c: char): nat {
    var byte := c as int % 256;
    if byte < 128 then byte else 0x1_0000_0000 + byte - 256
  }

  function KeySum(key: string): (n: nat)
    ensures n < 0x1_0000_0000
  {
    if key == "" then 0 else (KeySum(key[..|key| - 1]) + Widened(key[|key| - 1])) % 0x1_0000_0000
  }

  function BucketOf(key: string): (b: nat)
    ensures b < HASH_SIZE
  {
    KeySum(key) % HASH_SIZE
  }

  /** hash_bucket */
  method HashBucket(key: string) returns (b: nat)
    ensures b == BucketOf(key)
  {
    var n, i := 0, 0;
    while i < |key|
      invariant 0 <= i <= |key| && n == KeySum(key[..i])
    {
      assert key[..i + 1][..i] == key[..i];
      n := (n + Widened(key[i])) % 0x1_0000_0000;
      i := i + 1;
    }
    assert key[..|key|] == key;
    b := n % HASH_SIZE;
  }

  datatype Entry<V> = Entry(key: string, val: V)

  // ---------------------------------------------------------------- the table as values

  /** Entries with distinct keys. */
  ghost predicate Distinct<V>(items: seq<Entry<V>>) {
    forall i, j :: 0 <= i < j < |items| ==> items[i].key != items[j].key
  }

  ghost predicate Has<V>(items: seq<Entry<V>>, key: string) {
    exists i :: 0 <= i < |items| && items[i].key == key
  }

  /** A bucket: entries with distinct keys that hash to it, each with the value the table has for its key. */
  ghost predicate BucketOk<V>(items: seq<Entry<V>>, b: nat, contents: map<string, V>) {
    && Distinct(items)
    && (forall i :: 0 <= i < |items| ==>
          BucketOf(items[i].key) == b && items[i].key in contents && contents[items[i].key] == items[i].val)
  }

  /** The buckets hold exactly the contents. */
  ghost predicate TableOk<V>(entries: seq<seq<Entry<V>>>, contents: map<string, V>) {
    && |entries| == HASH_SIZE
    && (forall b {:trigger BucketOk(entries[b], b, contents)} :: 0 <= b < HASH_SIZE ==> BucketOk(entries[b], b, contents))
    && (forall k {:trigger Has(entries[BucketOf(k)], k)} :: k in contents ==> Has(entries[BucketOf(k)], k))
  }

  /** The key is in the table just when it is in its bucket. */
  lemma FoundInBucket<V>(entries: seq<seq<Entry<V>>>, contents: map<string, V>, key: string)
    requires TableOk(entries, contents)
    ensures Has(entries[BucketOf(key)], key) <==> key in contents
    ensures forall i :: 0 <= i < |entries[BucketOf(key)]| && entries[BucketOf(key)][i].key == key ==>
              key in contents && entries[BucketOf(key)][i] == Entry(key, contents[key])
  {
    hide BucketOf, Distinct;
    assert BucketOk(entries[BucketOf(key)], BucketOf(key), contents);
  }

  /** One bucket is replaced by one that holds the new contents. */
  lemma OneBucket<V>(entries: seq<seq<Entry<V>>>, contents: map<string, V>, key: string, items: seq<Entry<V>>,
                     now: map<string, V>)
    requires TableOk(entries, contents) && BucketOk(items, BucketOf(key), now)
    requires forall k :: k != key ==> (k in now <==> k in contents) && (k in now ==> now[k] == contents[k])
    requires forall k :: k in now && BucketOf(k) == BucketOf(key) ==> Has(items, k)
    ensures TableOk(entries[BucketOf(key) := items], now)
  {
    hide BucketOf, Distinct;
    var after := entries[BucketOf(key) := items];
    forall b | 0 <= b < HASH_SIZE ensures BucketOk(after[b], b, now) {
      assert b != BucketOf(key) ==> BucketOk(entries[b], b, contents);
    }
    forall k | k in now ensures Has(after[BucketOf(k)], k) {
      assert k != key ==> Has(entries[BucketOf(k)], k);
    }
  }

  lemma Inserted<V>(entries: seq<seq<Entry<V>>>, contents: map<string, V>, key: string, val: V)
    requires TableOk(entries, contents) && key !in contents
    ensures TableOk(entries[BucketOf(key) := [Entry(key, val)] + entries[BucketOf(key)]], contents[key := val])
  {
    hide BucketOf;
    var was := entries[BucketOf(key)];
    var items := [Entry(key, val)] + was;
    assert BucketOk(was, BucketOf(key), contents);
    forall k | k in contents[key := val] && BucketOf(k) == BucketOf(key) ensures Has(items, k) {
      if k == key {
        assert items[0].key == key;
      } else {
        assert Has(entries[BucketOf(k)], k);
        var i :| 0 <= i < |was| && was[i].key == k;
        assert items[i + 1].key == k;
      }
    }
    OneBucket(entries, contents, key, items, contents[key := val]);
  }

  lemma Replaced<V>(entries: seq<seq<Entry<V>>>, contents: map<string, V>, key: string, val: V, i: nat)
    requires TableOk(entries, contents) && i < |entries[BucketOf(key)]| && entries[BucketOf(key)][i].key == key
    ensures TableOk(entries[BucketOf(key) := entries[BucketOf(key)][i := Entry(key, val)]], contents[key := val])
  {
    hide BucketOf;
    var was := entries[BucketOf(key)];
    var items := was[i := Entry(key, val)];
    assert BucketOk(was, BucketOf(key), contents);
    forall k | k in contents[key := val] && BucketOf(k) == BucketOf(key) ensures Has(items, k) {
      if k == key {
        assert items[i].key == key;
      } else {
        assert Has(entries[BucketOf(k)], k);
        var j :| 0 <= j < |was| && was[j].key == k;
        assert items[j].key == k;
      }
    }
    OneBucket(entries, contents, key, items, contents[key := val]);
  }

  lemma Removed<V>(entries: seq<seq<Entry<V>>>, contents: map<string, V>, key: string, i: nat)
    requires TableOk(entries, contents) && i < |entries[BucketOf(key)]| && entries[BucketOf(key)][i].key == key
    ensures var was := entries[BucketOf(key)];
            TableOk(entries[BucketOf(key) := was[..i] + was[i + 1..]], contents - {key})
  {
    hide BucketOf;
    var was := entries[BucketOf(key)];
    var items := was[..i] + was[i + 1..];
    assert BucketOk(was, BucketOf(key), contents);
    assert forall j :: 0 <= j < |items| ==> items[j] == was[if j < i then j else j + 1];
    forall k | k in contents - {key} && BucketOf(k) == BucketOf(key) ensures Has(items, k) {
      assert Has(entries[BucketOf(k)], k);
      var j :| 0 <= j < |was| && was[j].key == k;
      assert items[if j < i then j else j - 1].key == k;
    }
    OneBucket(entries, contents, key, items, contents - {key});
  }

  // ---------------------------------------------------------------- the table in memory

  /** A bucket in memory: a queue whose elements carry these entries. */
  ghost predicate Linked<V>(q: seq<Elem<Entry<V>>>, head: Elem?<Entry<V>>, items: seq<Entry<V>>)
    reads q
  {
    Ring(q) && head == HeadOf(q) && |q| == |items| && forall i :: 0 <= i < |q| ==> q[i].item == items[i]
  }

  /** The loop of hash_lookup round one bucket. */
  method FindIn<V>(head: Elem?<Entry<V>>, key: string, ghost q: seq<Elem<Entry<V>>>, ghost items: seq<Entry<V>>)
    returns (h: Elem?<Entry<V>>, ghost i: nat)
    requires Linked(q, head, items)
    ensures h == null ==> !Has(items, key)
    ensures h != null ==> i < |q| && h == q[i] && items[i].key == key
  {
    hide Ring;
    i := 0;
    h := head;
    if h == null {
      return;
    }
    while true
      invariant 0 <= i < |q| && h == q[i] && forall j :: 0 <= j < i ==> items[j].key != key
      decreases |q| - i
    {
      if h.item.key == key {
        return;
      }
      NextInRing(q, i);
      h := h.next;
      if h == head {
        break;
      }
      i := i + 1;
    }
    h := null;
  }

  /** INSQ, DELQ and the change of a value, on a bucket. */
  method PushEntry<V>(h: Elem<Entry<V>>, head: Elem?<Entry<V>>, ghost q: seq<Elem<Entry<V>>>, ghost items: seq<Entry<V>>)
    returns (now: Elem<Entry<V>>)
    requires Linked(q, head, items) && h !in q
    modifies h`next, h`prev, q`next, q`prev
    ensures Linked([h] + q, now, [h.item] + items)
  {
    hide Ring, HeadOf;
    now := Insq(h, head, q);
  }

  method CutEntry<V>(h: Elem<Entry<V>>, head: Elem?<Entry<V>>, ghost q: seq<Elem<Entry<V>>>, ghost items: seq<Entry<V>>,
                     ghost i: nat) returns (now: Elem?<Entry<V>>)
    requires Linked(q, head, items) && i < |q| && q[i] == h
    modifies q`next, q`prev
    ensures Linked(Cut(q, i), now, items[..i] + items[i + 1..])
  {
    hide Ring, HeadOf;
    now := Delq(h, head, q, i);
  }

  method SetEntry<V>(h: Elem<Entry<V>>, e: Entry<V>, ghost head: Elem?<Entry<V>>, ghost q: seq<Elem<Entry<V>>>,
                     ghost items: seq<Entry<V>>, ghost i: nat)
    requires Linked(q, head, items) && i < |q| && q[i] == h
    modifies h`item
    ensures Linked(q, head, items[i := e])
  {
    RingDistinct(q);
    hide Ring;
    h.item := e;
  }

  lemma LinkedItem<V>(q: seq<Elem<Entry<V>>>, head: Elem?<Entry<V>>, items: seq<Entry<V>>, i: nat)
    requires Linked(q, head, items) && i < |q|
    ensures i < |items| && q[i].item == items[i]
  {
    hide Ring;
  }

  class Table<V(==)> {
    const bucket: array<Elem?<Entry<V>>>
    ghost var rings: seq<seq<Elem<Entry<V>>>>
    ghost var entries: seq<seq<Entry<V>>>
    ghost var contents: map<string, V>
    ghost var repr: set<Elem<Entry<V>>>

    ghost predicate Valid()
      reads this, bucket, repr
    {
      && bucket.Length == |rings| == |entries| == HASH_SIZE && TableOk(entries, contents)
      && (forall b, i :: 0 <= b < HASH_SIZE && 0 <= i < |rings[b]| ==> rings[b][i] in repr)
      && (forall b {:trigger Linked(rings[b], bucket[b], entries[b])} :: 0 <= b < HASH_SIZE ==>
            Linked(rings[b], bucket[b], entries[b]))
    }

    /** hash_init */
    constructor ()
      ensures Valid() && fresh(bucket) && repr == {} && contents == map[]
    {
      bucket := new Elem?<Entry<V>>[HASH_SIZE](_ => null);
      rings, entries := seq(HASH_SIZE, _ => []), seq(HASH_SIZE, _ => []);
      repr, contents := {}, map[];
    }

    /** Different buckets share no element. */
    lemma BucketsApart(a: nat, b: nat, i: nat, j: nat)
      requires Valid() && a < HASH_SIZE && b < HASH_SIZE && a != b && i < |rings[a]| && j < |rings[b]|
      ensures rings[a][i] != rings[b][j]
    {
      hide BucketOf, Ring, Distinct;
      assert Linked(rings[a], bucket[a], entries[a]) && Linked(rings[b], bucket[b], entries[b]);
      assert BucketOk(entries[a], a, contents) && BucketOk(entries[b], b, contents);
    }

    /** hash_lookup */
    method Lookup(key: string) returns (h: Elem?<Entry<V>>, ghost i: nat)
      requires Valid()
      ensures h != null <==> key in contents
      ensures h != null ==> i < |rings[BucketOf(key)]| && h == rings[BucketOf(key)][i]
      ensures h != null ==> h.item == Entry(key, contents[key])
      ensures h != null ==> i < |entries[BucketOf(key)]| && entries[BucketOf(key)][i].key == key
    {
      hide BucketOf, TableOk, Ring, Has;
      var bkt := HashBucket(key);
      FoundInBucket(entries, contents, key);
      assert Linked(rings[bkt], bucket[bkt], entries[bkt]);
      h, i := FindIn(bucket[bkt], key, rings[bkt], entries[bkt]);
    }

    /** hash_value */
    method Value(key: string) returns (r: Option<V>)
      requires Valid()
      ensures r == if key in contents then Some(contents[key]) else None
    {
      var h, i := Lookup(key);
      r := if h == null then None else Some(h.item.val);
    }

    /** The buckets other than one, in memory. */
    ghost predicate OthersLinked(bkt: nat)
      requires bucket.Length == |rings| == |entries| == HASH_SIZE
      reads this, bucket, set b, i | 0 <= b < |rings| && 0 <= i < |rings[b]| :: rings[b][i]
    {
      forall b {:trigger Linked(rings[b], bucket[b], entries[b])} :: 0 <= b < HASH_SIZE && b != bkt ==>
        Linked(rings[b], bucket[b], entries[b])
    }

    lemma AllApart(bkt: nat)
      requires Valid() && bkt < HASH_SIZE
      ensures forall b, k :: 0 <= b < HASH_SIZE && b != bkt && 0 <= k < |rings[b]| ==> rings[b][k] !in rings[bkt]
    {
      forall b, k, l | 0 <= b < HASH_SIZE && b != bkt && 0 <= k < |rings[b]| && 0 <= l < |rings[bkt]|
        ensures rings[b][k] != rings[bkt][l]
      {
        BucketsApart(b, bkt, k, l);
      }
    }

    /** A new entry in front of its bucket. */
    method Insert(key: string, val: V, bkt: nat) returns (h: Elem<Entry<V>>)
      requires Valid() && key !in contents && bkt == BucketOf(key)
      modifies this, bucket, repr
      ensures Valid() && fresh(repr - old(repr)) && contents == old(contents)[key := val]
      ensures fresh(h) && h in repr && h.item == Entry(key, val)
    {
      hide BucketOf, TableOk, Ring, Has, HeadOf, Linked;
      AllApart(bkt);
      Inserted(entries, contents, key, val);
      assert Linked(rings[bkt], bucket[bkt], entries[bkt]);
      h := new Elem(Entry(key, val));
      var head := PushEntry(h, bucket[bkt], rings[bkt], entries[bkt]);
      assert OthersLinked(bkt);
      bucket[bkt] := head;
      rings, repr := rings[bkt := [h] + rings[bkt]], repr + {h};
      entries, contents := entries[bkt := [Entry(key, val)] + entries[bkt]], contents[key := val];
    }

    /** A new value for an entry. */
    method Replace(h: Elem<Entry<V>>, key: string, val: V, ghost bkt: nat, ghost i: nat)
      requires Valid() && bkt == BucketOf(key) && i < |entries[bkt]| && entries[bkt][i].key == key
      requires i < |rings[bkt]| && rings[bkt][i] == h
      modifies this, h
      ensures Valid() && repr == old(repr) && contents == old(contents)[key := val]
      ensures h.item == Entry(key, val)
    {
      hide BucketOf, TableOk, Ring, Has, HeadOf, Linked;
      AllApart(bkt);
      Replaced(entries, contents, key, val, i);
      assert Linked(rings[bkt], bucket[bkt], entries[bkt]);
      SetEntry(h, Entry(key, val), bucket[bkt], rings[bkt], entries[bkt], i);
      LinkedItem(rings[bkt], bucket[bkt], entries[bkt][i := Entry(key, val)], i);
      assert OthersLinked(bkt);
      entries, contents := entries[bkt := entries[bkt][i := Entry(key, val)]], contents[key := val];
    }

    /** hash_add */
    method Add(key: string, val: V) returns (h: Elem<Entry<V>>)
      requires Valid()
      modifies this, bucket, repr
      ensures Valid() && fresh(repr - old(repr)) && contents == old(contents)[key := val]
      ensures h in repr && h.item == Entry(key, val) && (if key in old(contents) then h in old(repr) else fresh(h))
    {
      hide BucketOf, TableOk, Ring, Has, HeadOf, Linked;
      var found, i := Lookup(key);
      var bkt := HashBucket(key);
      if found == null {
        h := Insert(key, val, bkt);
      } else {
        h := found;
        Replace(h, key, val, bkt, i);
      }
    }

    /** hash_del */
    method Del(key: string) returns (ok: bool)
      requires Valid()
      modifies this, bucket, repr
      ensures Valid() && repr == old(repr)
      ensures ok == (key in old(contents)) && contents == old(contents) - {key}
    {
      hide BucketOf, TableOk, Ring, Has, HeadOf, Linked;
      var h, i := Lookup(key);
      if h == null {
        return false;
      }
      var bkt := HashBucket(key);
      AllApart(bkt);
      Removed(entries, contents, key, i);
      assert Linked(rings[bkt], bucket[bkt], entries[bkt]);
      var head := CutEntry(h, bucket[bkt], rings[bkt], entries[bkt], i);
      assert OthersLinked(bkt);
      bucket[bkt] := head;
      rings, entries := rings[bkt := Cut(rings[bkt], i)], entries[bkt := entries[bkt][..i] + entries[bkt][i + 1..]];
      contents := contents - {key};
      ok := true;
    }

    /** hash_keys: every key of the table, once. */
    method Keys() returns (keys: seq<string>)
      requires Valid()
      ensures NoDup(keys) && forall k :: k in keys <==> k in contents
    {
      hide BucketOf, Has, HeadOf;
      keys := [];
      var bkt := 0;
      while bkt < HASH_SIZE
        invariant 0 <= bkt <= HASH_SIZE && NoDup(keys)
        invariant forall k :: k in keys <==> k in contents && BucketOf(k) < bkt
      {
        assert Linked(rings[bkt], bucket[bkt], entries[bkt]);
        var some := KeysOf(bucket[bkt], rings[bkt], entries[bkt]);
        BucketKeys(entries, contents, bkt, some);
        NoDupConcat(keys, some);
        keys := keys + some;
        bkt := bkt + 1;
      }
    }
  }

  /** The loop of hash_keys round one bucket. */
  method KeysOf<V>(head: Elem?<Entry<V>>, ghost q: seq<Elem<Entry<V>>>, ghost items: seq<Entry<V>>)
    returns (keys: seq<string>)
    requires Linked(q, head, items)
    ensures |keys| == |items| && forall i :: 0 <= i < |keys| ==> keys[i] == items[i].key
  {
    hide Ring;
    keys := [];
    if head == null {
      return;
    }
    var h: Elem<Entry<V>> := head;
    while true
      invariant |keys| < |q| && h == q[|keys|]
      invariant forall i :: 0 <= i < |keys| ==> keys[i] == items[i].key
      decreases |q| - |keys|
    {
      NextInRing(q, |keys|);
      keys := keys + [h.item.key];
      h := h.next;
      if h == head {
        break;
      }
    }
  }

  /** The keys of one bucket are the keys of the table that hash to it. */
  lemma BucketKeys<V>(entries: seq<seq<Entry<V>>>, contents: map<string, V>, b: nat, keys: seq<string>)
    requires TableOk(entries, contents) && b < HASH_SIZE
    requires |keys| == |entries[b]| && forall i :: 0 <= i < |keys| ==> keys[i] == entries[b][i].key
    ensures NoDup(keys) && forall k :: k in keys <==> k in contents && BucketOf(k) == b
  {
    hide BucketOf;
    assert BucketOk(entries[b], b, contents);
    forall k | k in contents && BucketOf(k) == b ensures k in keys {
      assert Has(entries[BucketOf(k)], k);
    }
  }
}
