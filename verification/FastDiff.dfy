/** The sort-and-merge comparison of lists with one unique variable, and that it refines the quadratic one. */
module FastDiff {
  import opened Basics
  import opened Cvec
  import opened ListIndex
  import opened ScanList
  import opened Sorting
  import opened DbDiff

  /** An item with its cached unique variable. */
  datatype DbVar = DbVar(item: Item, cv: Cv)

  /** cv_cmp on variables of one type: a total order of the values. */
  ghost predicate ValueOrder(cmp: (string, string) -> int) {
    Preorder(cmp) && forall a, b :: cmp(a, b) == 0 ==> a == b
  }

  lemma LessTrans(cmp: (string, string) -> int, a: string, b: string, c: string)
    requires ValueOrder(cmp) && cmp(a, b) <= 0 && cmp(b, c) < 0
    ensures cmp(a, c) < 0
  {
    assert Chain(cmp, a, b, c) && Mirrored(cmp, b, c);
    assert cmp(a, c) == 0 ==> a == c;
    assert Mirrored(cmp, a, b);
  }

  /** Mirrored the other way round, and equality to itself. */
  lemma Flip(cmp: (string, string) -> int, a: string, b: string)
    requires ValueOrder(cmp)
    ensures cmp(a, a) == 0
    ensures cmp(a, b) > 0 ==> cmp(b, a) < 0
  {
    assert Mirrored(cmp, a, a) && Mirrored(cmp, b, a);
  }

  function Dbcmp(cmp: (string, string) -> int): (DbVar, DbVar) -> int {
    (a: DbVar, b: DbVar) => cmp(a.cv.val, b.cv.val)
  }

  lemma DbcmpPreorder(cmp: (string, string) -> int)
    requires Preorder(cmp)
    ensures Preorder(Dbcmp(cmp))
  {
    var f := Dbcmp(cmp);
    forall a: DbVar, b: DbVar ensures Mirrored(f, a, b) {
      assert Mirrored(cmp, a.cv.val, b.cv.val);
    }
    forall a: DbVar, b: DbVar, c: DbVar ensures Chain(f, a, b, c) {
      assert Chain(cmp, a.cv.val, b.cv.val, c.cv.val);
    }
  }

  /** The specification has exactly one unique variable, called `name`. */
  ghost predicate OneUnique(spec: Vec, name: string) {
    exists i :: 0 <= i < |spec| && spec[i].unique && spec[i].name == name
                && forall k :: 0 <= k < |spec| && spec[k].unique ==> k == i
  }

  lemma {:induction false} OneUniqueTuple(spec: Vec, name: string, vars: Vec)
    requires OneUnique(spec, name)
    ensures UniqueValues(spec, vars) ==
            if Find(vars, name).Some? then Some([Find(vars, name).value.val]) else None
  {
    var i :| 0 <= i < |spec| && spec[i].unique && spec[i].name == name
             && forall k :: 0 <= k < |spec| && spec[k].unique ==> k == i;
    if i == 0 {
      NoUniqueTuple(spec[1..], vars);
      assert Find(vars, name).Some? ==> [Find(vars, name).value.val] + [] == [Find(vars, name).value.val];
    } else {
      assert spec[1..][i - 1] == spec[i];
      assert forall k :: 0 <= k < |spec[1..]| && spec[1..][k].unique ==> spec[k + 1].unique;
      assert OneUnique(spec[1..], name);
      OneUniqueTuple(spec[1..], name, vars);
    }
  }

  lemma {:induction false} NoUniqueTuple(spec: Vec, vars: Vec)
    requires forall k :: 0 <= k < |spec| ==> !spec[k].unique
    ensures UniqueValues(spec, vars) == Some([])
  {
    if spec != [] {
      NoUniqueTuple(spec[1..], vars);
    }
  }

  function Items(v: seq<DbVar>): (r: seq<Item>)
    ensures |r| == |v| && forall i :: 0 <= i < |v| ==> r[i] == v[i].item
  {
    seq(|v|, i requires 0 <= i < |v| => v[i].item)
  }

  lemma SameItems(v: seq<DbVar>, r: seq<DbVar>)
    requires forall x :: x in v <==> x in r
    ensures forall x :: x in Items(r) <==> x in Items(v)
  {
    forall x | x in Items(r) ensures x in Items(v) {
      var i :| 0 <= i < |r| && Items(r)[i] == x;
      assert r[i] in v;
      var k :| 0 <= k < |v| && v[k] == r[i];
      assert Items(v)[k] == x;
    }
    forall x | x in Items(v) ensures x in Items(r) {
      var k :| 0 <= k < |v| && Items(v)[k] == x;
      assert v[k] in r;
      var i :| 0 <= i < |r| && r[i] == v[k];
      assert Items(r)[i] == x;
    }
  }

  /** The merge as a function of the two sorted vectors. */
  function MergeDiff(cmp: (string, string) -> int, v1: seq<DbVar>, v2: seq<DbVar>): seq<DiffEnt> {
    if v1 == [] && v2 == [] then []
    else if v2 == [] then [First(v1[0].item)] + MergeDiff(cmp, v1[1..], v2)
    else if v1 == [] then [Second(v2[0].item)] + MergeDiff(cmp, v1, v2[1..])
    else
      var res := cmp(v1[0].cv.val, v2[0].cv.val);
      if res < 0 then [First(v1[0].item)] + MergeDiff(cmp, v1[1..], v2)
      else if res > 0 then [Second(v2[0].item)] + MergeDiff(cmp, v1, v2[1..])
      else
        (if Matches(v1[0].item.vars, v2[0].item.vars, true) then [] else [Both(v1[0].item, v2[0].item)])
        + MergeDiff(cmp, v1[1..], v2[1..])
  }

  /** The cached form of the items of a list, in ascending order of their unique values. */
  ghost predicate Cached(spec: Vec, cmp: (string, string) -> int, v: seq<DbVar>) {
    && (forall i :: 0 <= i < |v| ==> Conforms(spec, v[i].item.vars) && ItemKey(spec, v[i].item) == Some([v[i].cv.val]))
    && (forall i, j :: 0 <= i < j < |v| ==> cmp(v[i].cv.val, v[j].cv.val) < 0)
  }

  /** Every value of `v` is above `val`. */
  ghost predicate Above(cmp: (string, string) -> int, val: string, v: seq<DbVar>) {
    forall i :: 0 <= i < |v| ==> cmp(val, v[i].cv.val) < 0
  }

  lemma TailAbove(spec: Vec, cmp: (string, string) -> int, val: string, v: seq<DbVar>)
    requires ValueOrder(cmp) && Cached(spec, cmp, v) && v != [] && cmp(val, v[0].cv.val) <= 0
    ensures Above(cmp, val, v[1..]) && (cmp(val, v[0].cv.val) < 0 ==> Above(cmp, val, v))
  {
    forall i | 0 < i < |v| ensures cmp(val, v[i].cv.val) < 0 {
      LessTrans(cmp, val, v[0].cv.val, v[i].cv.val);
    }
  }

  /** An item below every item of `v` has no partner there. */
  lemma NoPartner(spec: Vec, cmp: (string, string) -> int, x: DbVar, v: seq<DbVar>)
    requires ValueOrder(cmp) && Cached(spec, cmp, v) && Above(cmp, x.cv.val, v)
    requires ItemKey(spec, x.item) == Some([x.cv.val])
    ensures forall y :: y in Items(v) ==> ItemKey(spec, y) != ItemKey(spec, x.item)
  {
    forall y | y in Items(v) ensures ItemKey(spec, y) != ItemKey(spec, x.item) {
      var i :| 0 <= i < |v| && Items(v)[i] == y;
      Flip(cmp, x.cv.val, x.cv.val);
      assert v[i].cv.val != x.cv.val;
      assert [v[i].cv.val][0] != [x.cv.val][0];
    }
  }

  lemma ItemsHead(v: seq<DbVar>)
    requires v != []
    ensures forall y :: y in Items(v) <==> y == v[0].item || y in Items(v[1..])
  {
    assert Items(v) == [v[0].item] + Items(v[1..]);
  }

  lemma CachedTail(spec: Vec, cmp: (string, string) -> int, v: seq<DbVar>)
    requires Cached(spec, cmp, v) && v != []
    ensures Cached(spec, cmp, v[1..])
  {}

  /** Putting the entries of the smallest item in front of a difference of the rest. */
  lemma AddLeft(spec: Vec, cmp: (string, string) -> int, v1: seq<DbVar>, v2: seq<DbVar>, rest: seq<DiffEnt>)
    requires ValueOrder(cmp) && Cached(spec, cmp, v1) && Cached(spec, cmp, v2) && v1 != []
    requires Above(cmp, v1[0].cv.val, v2)
    requires IsDiff(spec, Items(v1[1..]), Items(v2), rest)
    ensures IsDiff(spec, Items(v1), Items(v2), [First(v1[0].item)] + rest)
  {
    var x := v1[0];
    ItemsHead(v1);
    CachedTail(spec, cmp, v1);
    assert Above(cmp, x.cv.val, v1[1..]);
    NoPartner(spec, cmp, x, v1[1..]);
    NoPartner(spec, cmp, x, v2);
    NoDupConcat([First(x.item)], rest);
  }

  lemma AddRight(spec: Vec, cmp: (string, string) -> int, v1: seq<DbVar>, v2: seq<DbVar>, rest: seq<DiffEnt>)
    requires ValueOrder(cmp) && Cached(spec, cmp, v1) && Cached(spec, cmp, v2) && v2 != []
    requires Above(cmp, v2[0].cv.val, v1)
    requires IsDiff(spec, Items(v1), Items(v2[1..]), rest)
    ensures IsDiff(spec, Items(v1), Items(v2), [Second(v2[0].item)] + rest)
  {
    var y := v2[0];
    ItemsHead(v2);
    CachedTail(spec, cmp, v2);
    assert Above(cmp, y.cv.val, v2[1..]);
    NoPartner(spec, cmp, y, v2[1..]);
    NoPartner(spec, cmp, y, v1);
    NoDupConcat([Second(y.item)], rest);
  }

  lemma AddPair(spec: Vec, cmp: (string, string) -> int, v1: seq<DbVar>, v2: seq<DbVar>, rest: seq<DiffEnt>)
    requires ValueOrder(cmp) && Cached(spec, cmp, v1) && Cached(spec, cmp, v2) && v1 != [] && v2 != []
    requires v1[0].cv.val == v2[0].cv.val
    requires IsDiff(spec, Items(v1[1..]), Items(v2[1..]), rest)
    ensures IsDiff(spec, Items(v1), Items(v2),
                   (if Matches(v1[0].item.vars, v2[0].item.vars, true) then [] else [Both(v1[0].item, v2[0].item)]) + rest)
  {
    var x, y := v1[0], v2[0];
    var head := if Matches(x.item.vars, y.item.vars, true) then [] else [Both(x.item, y.item)];
    ItemsHead(v1);
    ItemsHead(v2);
    CachedTail(spec, cmp, v1);
    CachedTail(spec, cmp, v2);
    NoPartner(spec, cmp, x, v1[1..]);
    NoPartner(spec, cmp, y, v2[1..]);
    forall e: DiffEnt
      ensures Expected(spec, Items(v1), Items(v2), e) <==>
              e in head || Expected(spec, Items(v1[1..]), Items(v2[1..]), e)
    {
      match e
      case First(one) =>
      case Second(two) =>
      case Both(one, two) =>
    }
    NoDupConcat(head, rest);
  }

  /** The merge of two sorted lists is their difference. */
  lemma {:induction false} MergeIsDiff(spec: Vec, cmp: (string, string) -> int, v1: seq<DbVar>, v2: seq<DbVar>)
    requires ValueOrder(cmp) && Cached(spec, cmp, v1) && Cached(spec, cmp, v2)
    ensures IsDiff(spec, Items(v1), Items(v2), MergeDiff(cmp, v1, v2))
    decreases |v1| + |v2|
  {
    if v1 == [] && v2 == [] {
    } else if v2 == [] || (v1 != [] && cmp(v1[0].cv.val, v2[0].cv.val) < 0) {
      CachedTail(spec, cmp, v1);
      MergeIsDiff(spec, cmp, v1[1..], v2);
      if v2 != [] {
        TailAbove(spec, cmp, v1[0].cv.val, v2);
      }
      AddLeft(spec, cmp, v1, v2, MergeDiff(cmp, v1[1..], v2));
    } else if v1 == [] || cmp(v1[0].cv.val, v2[0].cv.val) > 0 {
      CachedTail(spec, cmp, v2);
      MergeIsDiff(spec, cmp, v1, v2[1..]);
      if v1 != [] {
        Flip(cmp, v1[0].cv.val, v2[0].cv.val);
        TailAbove(spec, cmp, v2[0].cv.val, v1);
      }
      AddRight(spec, cmp, v1, v2, MergeDiff(cmp, v1, v2[1..]));
    } else {
      CachedTail(spec, cmp, v1);
      CachedTail(spec, cmp, v2);
      MergeIsDiff(spec, cmp, v1[1..], v2[1..]);
      AddPair(spec, cmp, v1, v2, MergeDiff(cmp, v1[1..], v2[1..]));
    }
  }

  /** The loop that looks up and caches the unique variable of every item; None when an item lacks it. */
  method Cache(items: seq<Item>, name: string) returns (v: Option<seq<DbVar>>)
    ensures v.None? <==> exists x :: x in items && Find(x.vars, name).None?
    ensures v.Some? ==> Items(v.value) == items
    ensures v.Some? ==> forall i :: 0 <= i < |v.value| ==> Find(v.value[i].item.vars, name) == Some(v.value[i].cv)
  {
    var r: seq<DbVar> := [];
    var i := 0;
    while i < |items|
      invariant 0 <= i <= |items|
      invariant Items(r) == items[..i]
      invariant forall k :: 0 <= k < i ==> Find(r[k].item.vars, name) == Some(r[k].cv)
      invariant forall k :: 0 <= k < i ==> Find(items[k].vars, name).Some?
    {
      var cv := Find(items[i].vars, name);
      if cv.None? {
        assert items[i] in items;
        return None;
      }
      r := r + [DbVar(items[i], cv.value)];
      i := i + 1;
    }
    v := Some(r);
  }

  /** qsort of the cached items. */
  method SortCache(ghost spec: Vec, cmp: (string, string) -> int, items: seq<Item>, name: string, v: seq<DbVar>)
    returns (r: seq<DbVar>)
    requires ValueOrder(cmp) && OneUnique(spec, name) && IsList(spec, items)
    requires Items(v) == items
    requires forall i :: 0 <= i < |v| ==> Find(v[i].item.vars, name) == Some(v[i].cv)
    ensures Cached(spec, cmp, r)
    ensures forall x :: x in Items(r) <==> x in items
  {
    DbcmpPreorder(cmp);
    r := Qsort(v, Dbcmp(cmp));
    PermutationMembers(v, r);
    forall i | 0 <= i < |v| ensures Conforms(spec, v[i].item.vars) && ItemKey(spec, v[i].item) == Some([v[i].cv.val]) {
      assert Items(v)[i] in items;
      OneUniqueTuple(spec, name, v[i].item.vars);
    }
    forall i | 0 <= i < |r| ensures Conforms(spec, r[i].item.vars) && ItemKey(spec, r[i].item) == Some([r[i].cv.val]) {
      assert r[i] in v;
      var k :| 0 <= k < |v| && v[k] == r[i];
    }
    SortedStrict(spec, cmp, items, v, r);
    SameItems(v, r);
  }

  /** Distinct keys make the sorted order strict. */
  lemma SortedStrict(spec: Vec, cmp: (string, string) -> int, items: seq<Item>, v: seq<DbVar>, r: seq<DbVar>)
    requires ValueOrder(cmp) && IsList(spec, items) && Items(v) == items
    requires forall i :: 0 <= i < |v| ==> ItemKey(spec, v[i].item) == Some([v[i].cv.val])
    requires Permutation(v, r) && Sorted(Dbcmp(cmp), r)
    ensures forall i, j :: 0 <= i < j < |r| ==> cmp(r[i].cv.val, r[j].cv.val) < 0
  {
    forall k, l | 0 <= k < l < |v| ensures v[k] != v[l] && v[k].cv.val != v[l].cv.val {
      assert ItemKey(spec, items[k]) != ItemKey(spec, items[l]);
    }
    PermutationNoDup(v, r);
    PermutationMembers(v, r);
    forall i, j | 0 <= i < j < |r| ensures cmp(r[i].cv.val, r[j].cv.val) < 0 {
      assert Dbcmp(cmp)(r[i], r[j]) <= 0;
      assert r[i] in v && r[j] in v && r[i] != r[j];
      var k :| 0 <= k < |v| && v[k] == r[i];
      var l :| 0 <= l < |v| && v[l] == r[j];
    }
  }

  /** The three merge loops of dbdiff_vector_1. */
  method MergeLoops(cmp: (string, string) -> int, v1: seq<DbVar>, v2: seq<DbVar>, df: Diff)
    modifies df
    ensures df.ents == old(df.ents) + MergeDiff(cmp, v1, v2)
  {
    var i1, i2 := 0, 0;
    assert v1[0..] == v1 && v2[0..] == v2;
    while i1 < |v1| && i2 < |v2|
      invariant 0 <= i1 <= |v1| && 0 <= i2 <= |v2|
      invariant df.ents + MergeDiff(cmp, v1[i1..], v2[i2..]) == old(df.ents) + MergeDiff(cmp, v1, v2)
      decreases |v1| - i1 + |v2| - i2
    {
      assert v1[i1..][1..] == v1[i1 + 1..] && v2[i2..][1..] == v2[i2 + 1..];
      ghost var was := df.ents;
      var res := cmp(v1[i1].cv.val, v2[i2].cv.val);
      if res < 0 {
        df.Add(First(v1[i1].item));
        ConcatAssoc(was, [First(v1[i1].item)], MergeDiff(cmp, v1[i1 + 1..], v2[i2..]));
        i1 := i1 + 1;
      } else if res > 0 {
        df.Add(Second(v2[i2].item));
        ConcatAssoc(was, [Second(v2[i2].item)], MergeDiff(cmp, v1[i1..], v2[i2 + 1..]));
        i2 := i2 + 1;
      } else {
        var equal := LvMatchvar(v1[i1].item.vars, v2[i2].item.vars, true);
        if !equal {
          df.Add(Both(v1[i1].item, v2[i2].item));
        }
        ConcatAssoc(was, if equal then [] else [Both(v1[i1].item, v2[i2].item)],
                    MergeDiff(cmp, v1[i1 + 1..], v2[i2 + 1..]));
        assert was + [] == was;
        i1, i2 := i1 + 1, i2 + 1;
      }
    }
    RestLeft(cmp, v1, v2, i1, i2, df, old(df.ents) + MergeDiff(cmp, v1, v2));
  }

  /** What is left of one side after the merge. */
  method RestLeft(cmp: (string, string) -> int, v1: seq<DbVar>, v2: seq<DbVar>, k1: nat, k2: nat, df: Diff,
                  ghost goal: seq<DiffEnt>)
    requires k1 <= |v1| && k2 <= |v2| && (k1 == |v1| || k2 == |v2|)
    requires df.ents + MergeDiff(cmp, v1[k1..], v2[k2..]) == goal
    modifies df
    ensures df.ents == goal
  {
    var i1, i2 := k1, k2;
    while i1 < |v1|
      invariant k1 <= i1 <= |v1|
      invariant df.ents + MergeDiff(cmp, v1[i1..], v2[i2..]) == goal
    {
      assert v1[i1..][1..] == v1[i1 + 1..];
      ghost var was := df.ents;
      df.Add(First(v1[i1].item));
      ConcatAssoc(was, [First(v1[i1].item)], MergeDiff(cmp, v1[i1 + 1..], v2[i2..]));
      i1 := i1 + 1;
    }
    while i2 < |v2|
      invariant k2 <= i2 <= |v2|
      invariant df.ents + MergeDiff(cmp, v1[i1..], v2[i2..]) == goal
    {
      assert v2[i2..][1..] == v2[i2 + 1..];
      ghost var was := df.ents;
      df.Add(Second(v2[i2].item));
      ConcatAssoc(was, [Second(v2[i2].item)], MergeDiff(cmp, v1[i1..], v2[i2 + 1..]));
      i2 := i2 + 1;
    }
  }

  /** dbdiff_vector_1: the entries it adds are those that the quadratic comparison adds, in another order. */
  method DbdiffVector1(ghost spec: Vec, cmp: (string, string) -> int, items1: seq<Item>, items2: seq<Item>,
                       name: string, df: Diff) returns (ok: bool, ghost added: seq<DiffEnt>)
    requires ValueOrder(cmp) && OneUnique(spec, name) && IsList(spec, items1) && IsList(spec, items2)
    modifies df
    ensures ok && df.ents == old(df.ents) + added
    ensures IsDiff(spec, items1, items2, added)
    ensures multiset(added) == multiset(LeftPart(items1, items2) + RightPart(items2, items1))
  {
    ghost var was := df.ents;
    var c1 := Cache(items1, name);
    forall x | x in items1 || x in items2 ensures Find(x.vars, name).Some? {
      OneUniqueTuple(spec, name, x.vars);
    }
    if c1.None? {
      return false, [];
    }
    var v1 := SortCache(spec, cmp, items1, name, c1.value);
    var c2 := Cache(items2, name);
    if c2.None? {
      return false, [];
    }
    var v2 := SortCache(spec, cmp, items2, name, c2.value);
    MergeLoops(cmp, v1, v2, df);
    added := MergeDiff(cmp, v1, v2);
    MergeIsDiff(spec, cmp, v1, v2);
    assert IsDiff(spec, items1, items2, added);
    SlowIsDiff(spec, items1, items2);
    DiffUnique(spec, items1, items2, added, LeftPart(items1, items2) + RightPart(items2, items1));
    ok := true;
  }
}
