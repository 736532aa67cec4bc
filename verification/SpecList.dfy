/** db_spec_tailadd: the database specification as a linked list with a tail pointer and a hashed index of its keys. */
module SpecList {
  import opened Basics
  import opened Cvec
  import opened Hash

  /** dbspec_key. Only the first element of a list has an index and a tail. */
  class Spec {
    const key: string
    var vec: Vec
    var vector: int
    var next: Spec?
    var index: Table?<Spec>
    var tail: Spec?

    constructor (key: string, vec: Vec, vector: int)
      ensures this.key == key && this.vec == vec && this.vector == vector && next == null
    {
      this.key, this.vec, this.vector, next, index, tail := key, vec, vector, null, null, null;
    }
  }

  /** The variables of `orig`, and after them those of `add` whose names are not there yet. */
  function AddMissing(orig: Vec, add: Vec): Vec {
    if add == [] then orig
    else
      var had := AddMissing(orig, add[..|add| - 1]);
      var cv := add[|add| - 1];
      if Find(had, cv.name).Some? then had else had + [cv]
  }

  /** A variable keeps its first description. */
  lemma {:induction false} AddMissingFinds(orig: Vec, add: Vec, name: string)
    ensures orig <= AddMissing(orig, add)
    ensures Find(AddMissing(orig, add), name) == if Find(orig, name).Some? then Find(orig, name) else Find(add, name)
  {
    if add != [] {
      var n := |add| - 1;
      AddMissingFinds(orig, add[..n], name);
      FindAppend(AddMissing(orig, add[..n]), [add[n]], name);
      assert add == add[..n] + [add[n]];
      FindAppend(add[..n], [add[n]], name);
      AddMissingFinds(orig, add[..n], add[n].name);
    }
  }

  /** The elements are linked in this order, and have different keys. */
  ghost predicate Chain(nodes: seq<Spec>)
    reads nodes`next
  {
    && (forall i, j :: 0 <= i < j < |nodes| ==> nodes[i] != nodes[j] && nodes[i].key != nodes[j].key)
    && (forall i :: 0 <= i < |nodes| ==> nodes[i].next == if i + 1 < |nodes| then nodes[i + 1] else null)
  }

  /** The index has exactly the keys of the elements, and each key leads to its element. */
  ghost predicate Indexes(contents: map<string, Spec>, nodes: seq<Spec>) {
    && (forall k :: k in contents ==> contents[k] in nodes && contents[k].key == k)
    && (forall i :: 0 <= i < |nodes| ==> nodes[i].key in contents && contents[nodes[i].key] == nodes[i])
  }

  /** The pointer to a list, and the elements it reaches. */
  class List {
    var first: Spec?
    ghost var nodes: seq<Spec>

    ghost predicate Valid()
      reads this, nodes
      reads if nodes == [] || nodes[0].index == null then {}
            else {nodes[0].index as object, nodes[0].index.bucket} + nodes[0].index.repr
    {
      && Chain(nodes)
      && if nodes == [] then first == null
         else
           && first == nodes[0] && first.tail == nodes[|nodes| - 1]
           && first.index != null && first.index.Valid() && Indexes(first.index.contents, nodes)
    }

    /** The first line of a specification. */
    method Start(ds: Spec)
      requires Valid() && nodes == [] && ds.next == null
      modifies this, ds`index, ds`tail
      ensures Valid() && nodes == [ds]
    {
      first := ds;
      ds.index := new Table();
      ds.tail := ds;
      var h := ds.index.Add(ds.key, ds);
      nodes := [ds];
    }

    /** A line with a new key. */
    method Append(ds: Spec)
      requires Valid() && nodes != [] && ds !in nodes && ds.next == null && ds.key !in nodes[0].index.contents
      modifies this, nodes`next, nodes`tail, nodes[0].index, nodes[0].index.bucket, nodes[0].index.repr
      ensures Valid() && nodes == old(nodes) + [ds]
    {
      hide Chain, Indexes;
      ghost var index := first.index;
      KeyIsNew(index.contents, nodes, ds);
      IndexesMore(index.contents, nodes, ds);
      var h := first.index.Add(ds.key, ds);
      LinkLast(first, ds, nodes);
      nodes := nodes + [ds];
    }

    /** A line with a key that is there already. */
    method MergeInto(ds1: Spec, ds: Spec, ghost i: nat)
      requires Valid() && i < |nodes| && nodes[i] == ds1 && ds !in nodes
      modifies ds1`vec, ds1`vector
      ensures Valid() && ds1.vec == AddMissing(old(ds1.vec), ds.vec) && ds1.vector == ds.vector
    {
      hide Chain, Indexes;
      AddVars(ds1, ds.vec);
      ds1.vector := ds.vector;
    }

    /** The place of a key in the list, by way of the index. */
    method FindKey(key: string) returns (r: Option<Spec>, ghost i: nat)
      requires Valid() && nodes != []
      ensures r.Some? ==> i < |nodes| && r.value == nodes[i] && nodes[i].key == key
                          && forall j :: 0 <= j < |nodes| && j != i ==> nodes[j] != nodes[i]
      ensures r.None? ==> key !in nodes[0].index.contents && forall j :: 0 <= j < |nodes| ==> nodes[j].key != key
    {
      i := 0;
      r := first.index.Value(key);
      if r.Some? {
        i :| 0 <= i < |nodes| && nodes[i] == r.value;
      }
    }

    /** db_spec_tailadd. `at` is the place of the line in the list. */
    method TailAdd(ds: Spec) returns (ghost at: nat)
      requires Valid() && ds !in nodes && ds.next == null
      modifies this, nodes, ds
      modifies if nodes == [] then {} else {nodes[0].index as object?, nodes[0].index.bucket} + nodes[0].index.repr
      ensures Valid() && at < |nodes| && nodes[at].key == ds.key
      ensures at >= |old(nodes)| ==> nodes == old(nodes) + [ds]
      ensures at >= |old(nodes)| ==> forall i :: 0 <= i < |old(nodes)| ==> old(nodes)[i].key != ds.key
      ensures at < |old(nodes)| ==> nodes == old(nodes) && nodes[at].vector == old(ds.vector)
                                    && nodes[at].vec == AddMissing(old(nodes[at].vec), old(ds.vec))
      ensures forall i :: 0 <= i < |old(nodes)| && i != at ==>
                nodes[i].vec == old(nodes[i].vec) && nodes[i].vector == old(nodes[i].vector)
      ensures at >= |old(nodes)| ==> ds.vec == old(ds.vec) && ds.vector == old(ds.vector)
    {
      hide Chain, Indexes, AddMissing, TableOk, Linked, BucketOf;
      at := 0;
      if first == null {
        Start(ds);
        return;
      }
      ghost var i;
      var found;
      found, i := FindKey(ds.key);
      if found.None? {
        at := |nodes|;
        Append(ds);
        return;
      }
      at := i;
      MergeInto(found.value, ds, i);
    }
  }

  lemma KeyIsNew(contents: map<string, Spec>, nodes: seq<Spec>, ds: Spec)
    requires Indexes(contents, nodes) && ds.key !in contents
    ensures forall i :: 0 <= i < |nodes| ==> nodes[i].key != ds.key
  {}

  lemma IndexesMore(contents: map<string, Spec>, nodes: seq<Spec>, ds: Spec)
    requires Indexes(contents, nodes) && ds.key !in contents
    ensures Indexes(contents[ds.key := ds], nodes + [ds])
  {}

  /** The new element behind the last one. */
  method LinkLast(first: Spec, ds: Spec, ghost nodes: seq<Spec>)
    requires nodes != [] && Chain(nodes) && first == nodes[0] && first.tail == nodes[|nodes| - 1]
    requires ds !in nodes && ds.next == null && forall i :: 0 <= i < |nodes| ==> nodes[i].key != ds.key
    modifies nodes`next, first`tail
    ensures Chain(nodes + [ds]) && first.tail == ds
  {
    first.tail.next := ds;
    first.tail := ds;
  }

  /** The loop over the variables of the new line. */
  method AddVars(ds: Spec, add: Vec)
    modifies ds`vec
    ensures ds.vec == AddMissing(old(ds.vec), add)
  {
    var i := 0;
    while i < |add|
      invariant 0 <= i <= |add| && ds.vec == AddMissing(old(ds.vec), add[..i])
    {
      assert add[..i + 1][..i] == add[..i];
      if Find(ds.vec, add[i].name).None? {
        ds.vec := ds.vec + [add[i]];
      }
      i := i + 1;
    }
    assert add[..|add|] == add;
  }
}
