/** CLIgen variable vectors: the values the database stores and the operations on them that the
    list index, the diff and the commit share. */
module Cvec {
  import opened Basics

  /** One variable. `val` is its printed value; two values of one type are equal exactly when they print
      alike. The flags are V_UNIQUE, V_WILDCARD and V_UNSET. */
  datatype Cv = Cv(name: string, ty: nat, val: string, unique: bool, wildcard: bool, unset: bool)

  type Vec = seq<Cv>

  /** First variable called `name`. */
  function Find(vec: Vec, name: string): (r: Option<Cv>)
    ensures r.Some? ==> r.value in vec && r.value.name == name
    ensures r.None? ==> forall cv :: cv in vec ==> cv.name != name
  {
    if vec == [] then None
    else if vec[0].name == name then Some(vec[0])
    else Find(vec[1..], name)
  }

  lemma {:induction false} FindAppend(a: Vec, b: Vec, name: string)
    ensures Find(a + b, name) == if Find(a, name).Some? then Find(a, name) else Find(b, name)
  {
    if a == [] {
      assert a + b == b;
    } else {
      assert (a + b)[1..] == a[1..] + b;
      FindAppend(a[1..], b, name);
    }
  }

  /** What a variable keeps when it is written to the database and read back: of the flags only V_UNIQUE. */
  function Carried(cv: Cv): Cv {
    cv.(wildcard := false, unset := false)
  }

  function CarriedVec(vec: Vec): (r: Vec)
    ensures |r| == |vec|
    ensures forall i :: 0 <= i < |vec| ==> r[i] == Carried(vec[i])
  {
    seq(|vec|, i requires 0 <= i < |vec| => Carried(vec[i]))
  }

  lemma {:induction false} FindCarried(vec: Vec, name: string)
    ensures Find(CarriedVec(vec), name) ==
            if Find(vec, name).Some? then Some(Carried(Find(vec, name).value)) else None
  {
    if vec != [] {
      assert CarriedVec(vec)[1..] == CarriedVec(vec[1..]);
      FindCarried(vec[1..], name);
    }
  }

  // ---------------------------------------------------------------- merging

  /** `orig` followed by the set variables of `add` whose names are not there yet. */
  function Merge(orig: Vec, add: Vec): Vec
    decreases |add|
  {
    if add == [] then orig
    else if add[0].unset || Find(orig, add[0].name).Some? then Merge(orig, add[1..])
    else Merge(orig + [add[0]], add[1..])
  }

  /** First variable called `name` that has a value. */
  function FindSet(vec: Vec, name: string): Option<Cv> {
    if vec == [] then None
    else if vec[0].name == name && !vec[0].unset then Some(vec[0])
    else FindSet(vec[1..], name)
  }

  /** Looking a name up in a merge: the original value wins, the added one fills the gap. */
  lemma {:induction false} MergeLookup(orig: Vec, add: Vec, name: string)
    ensures Find(Merge(orig, add), name) ==
            if Find(orig, name).Some? then Find(orig, name) else FindSet(add, name)
    decreases |add|
  {
    if add != [] {
      if add[0].unset || Find(orig, add[0].name).Some? {
        MergeLookup(orig, add[1..], name);
      } else {
        MergeLookup(orig + [add[0]], add[1..], name);
        FindAppend(orig, [add[0]], name);
      }
    }
  }

  /** A merge only appends, and only variables of `add` whose names `orig` lacks. */
  lemma {:induction false} MergeExtends(orig: Vec, add: Vec)
    ensures orig <= Merge(orig, add)
    ensures forall i :: |orig| <= i < |Merge(orig, add)| ==>
                          var cv := Merge(orig, add)[i];
                          cv in add && !cv.unset && Find(orig, cv.name).None?
    decreases |add|
  {
    if add != [] {
      if add[0].unset || Find(orig, add[0].name).Some? {
        MergeExtends(orig, add[1..]);
      } else {
        var next := orig + [add[0]];
        MergeExtends(next, add[1..]);
        forall i | |orig| <= i < |Merge(orig, add)|
          ensures var cv := Merge(orig, add)[i]; cv in add && !cv.unset && Find(orig, cv.name).None?
        {
          if i == |orig| {
            assert Merge(orig, add)[i] == next[i];
          } else {
            FindAppend(orig, [add[0]], Merge(orig, add)[i].name);
          }
        }
      }
    }
  }

  /** cvec_merge: append to `orig` in place. */
  method CvecMerge(orig: Vec, add: Vec) returns (merged: Vec, added: nat)
    ensures merged == Merge(orig, add)
    ensures added == |merged| - |orig|
  {
    merged, added := orig, 0;
    var i := 0;
    while i < |add|
      invariant 0 <= i <= |add|
      invariant Merge(merged, add[i..]) == Merge(orig, add)
      invariant added == |merged| - |orig|
    {
      var cv := add[i];
      assert add[i..][0] == cv && add[i..][1..] == add[i + 1..];
      i := i + 1;
      if cv.unset {
        continue;
      }
      if Find(merged, cv.name).Some? {
        continue;
      }
      merged := merged + [cv];
      added := added + 1;
    }
  }

  // ---------------------------------------------------------------- matching

  /** One variable of the first vector against the second one. */
  predicate MatchOne(cv: Cv, vec2: Vec) {
    var found := Find(vec2, cv.name);
    found.Some? && (found.value.wildcard || (cv.ty == found.value.ty && cv.val == found.value.val))
  }

  /** Every (unique) variable of `vec1` has a match in `vec2`. Variables that only `vec2` has do not count. */
  predicate Matches(vec1: Vec, vec2: Vec, cmpall: bool) {
    forall i :: 0 <= i < |vec1| && (cmpall || vec1[i].unique) ==> MatchOne(vec1[i], vec2)
  }

  /** lv_matchvar: both laps walk the first vector against the second one; the swapped handles are not used. */
  method LvMatchvar(vec1: Vec, vec2: Vec, cmpall: bool) returns (r: bool)
    ensures r == Matches(vec1, vec2, cmpall)
  {
    var v1, v2 := vec1, vec2;
    var laps := 2;
    while laps > 0
      invariant 0 <= laps <= 2
      invariant laps < 2 ==> Matches(vec1, vec2, cmpall)
    {
      laps := laps - 1;
      var i := 0;
      while i < |vec1|
        invariant 0 <= i <= |vec1|
        invariant forall k :: 0 <= k < i && (cmpall || vec1[k].unique) ==> MatchOne(vec1[k], vec2)
      {
        var cv1 := vec1[i];
        i := i + 1;
        if !cmpall && !cv1.unique {
          continue;
        }
        var cv2 := Find(vec2, cv1.name);
        if cv2.None? {
          return false;
        }
        if cv2.value.wildcard {
          continue;
        }
        if cv1.ty != cv2.value.ty {
          return false;
        }
        if cv1.val != cv2.value.val {
          return false;
        }
      }
      v1, v2 := v2, v1;
    }
    return true;
  }

  /** The order of the variables does not matter. */
  lemma OrderDoesNotMatter(a: Vec, b: Vec, cmpall: bool)
    requires multiset(a) == multiset(b)
    requires forall i, j :: 0 <= i < j < |b| ==> b[i].name != b[j].name
    ensures Matches(a, b, cmpall)
  {
    forall i | 0 <= i < |a| ensures MatchOne(a[i], b) {
      assert a[i] in multiset(a);
      assert a[i] in b;
      var found := Find(b, a[i].name);
      var j :| 0 <= j < |b| && b[j] == found.value;
      var k :| 0 <= k < |b| && b[k] == a[i];
      assert j == k;
    }
  }

  /** The comparison looks one way only: a vector may match one that has more variables, and not the other way. */
  lemma MatchIsOneWay()
    ensures exists a: Vec, b: Vec :: Matches(a, b, true) && !Matches(b, a, true)
  {
    var x := Cv("x", 1, "1", false, false, false);
    var y := Cv("y", 1, "2", false, false, false);
    assert Matches([x], [x, y], true);
    assert !MatchOne([x, y][1], [x]);
    assert !Matches([x, y], [x], true);
  }
}
