/** Where the two variants of the list index come apart: an operation that does not agree with the specification makes
    them differ in some run of operations that otherwise do. */
module ListApart {
  import opened Basics
  import opened Cvec
  import opened ListIndex
  import opened ScanList
  import opened ListVariants

  /** A unique name has one type, however often it is specified. */
  ghost predicate OneTypeEach(spec: Vec) {
    forall i, j :: 0 <= i < |spec| && 0 <= j < |spec| && spec[i].unique && spec[j].unique && spec[i].name == spec[j].name ==>
                     spec[i].ty == spec[j].ty
  }

  /** The unique variable `key` with the value that `a` has for it, or `val` if it is called `name`. */
  function KeyCv(key: Cv, a: Vec, name: string, val: string): Cv {
    var cv := Find(a, key.name);
    Cv(key.name, key.ty, if key.name == name then val else if cv.Some? then cv.value.val else "", true, false, false)
  }

  /** An item with no more than the unique variables: those of `a`, with `val` for `name`. */
  function KeyVec(spec: Vec, a: Vec, name: string, val: string): Vec {
    if spec == [] then []
    else if spec[0].unique then [KeyCv(spec[0], a, name, val)] + KeyVec(spec[1..], a, name, val)
    else KeyVec(spec[1..], a, name, val)
  }

  lemma {:induction false} KeyVecFind(spec: Vec, a: Vec, name: string, val: string)
    requires OneTypeEach(spec)
    ensures forall i :: 0 <= i < |spec| && spec[i].unique ==>
                          Find(KeyVec(spec, a, name, val), spec[i].name) == Some(KeyCv(spec[i], a, name, val))
    ensures forall k :: 0 <= k < |KeyVec(spec, a, name, val)| ==> IsKeyCv(spec, a, name, val, KeyVec(spec, a, name, val)[k])
  {
    if spec != [] {
      var rest := spec[1..];
      assert forall i :: 0 <= i < |rest| ==> rest[i] == spec[i + 1];
      KeyVecFind(rest, a, name, val);
      forall cv | IsKeyCv(rest, a, name, val, cv) ensures IsKeyCv(spec, a, name, val, cv) {
        var i :| 0 <= i < |rest| && rest[i].unique && cv == KeyCv(rest[i], a, name, val);
        assert spec[i + 1] == rest[i];
      }
      forall i | 0 <= i < |spec| && spec[i].unique
        ensures Find(KeyVec(spec, a, name, val), spec[i].name) == Some(KeyCv(spec[i], a, name, val))
      {
        if i > 0 {
          assert spec[i] == rest[i - 1];
        }
      }
    }
  }

  ghost predicate IsKeyCv(spec: Vec, a: Vec, name: string, val: string, cv: Cv) {
    exists i :: 0 <= i < |spec| && spec[i].unique && cv == KeyCv(spec[i], a, name, val)
  }

  lemma KeyVecFlags(spec: Vec, a: Vec, name: string, val: string)
    requires OneTypeEach(spec)
    ensures Flagged(spec, KeyVec(spec, a, name, val))
  {
    hide KeyVec;
    var c := KeyVec(spec, a, name, val);
    KeyVecFind(spec, a, name, val);
    forall j | 0 <= j < |spec| && spec[j].unique ensures KeyFlagged(spec[j], c) {
      var k :| 0 <= k < |c| && c[k] == Find(c, spec[j].name).value;
    }
    forall k | 0 <= k < |c| ensures UniqueName(spec, c[k].name) && SameValue(Find(c, c[k].name).value, c[k]) {
      assert IsKeyCv(spec, a, name, val, c[k]);
      var j :| 0 <= j < |spec| && spec[j].unique && c[k] == KeyCv(spec[j], a, name, val);
    }
  }

  /** Such an item conforms, and has another tuple than `a` exactly when the value is another one. */
  lemma KeyVecConforms(spec: Vec, a: Vec, i: nat, val: string)
    requires OneTypeEach(spec) && TupleOf(spec, a).Some? && i < |spec| && spec[i].unique
    ensures var c := KeyVec(spec, a, spec[i].name, val);
            && Conforms(spec, c)
            && (TupleOf(spec, c) == TupleOf(spec, a) <==> val == Find(a, spec[i].name).value.val)
  {
    hide KeyVec, Flagged;
    var name := spec[i].name;
    var c := KeyVec(spec, a, name, val);
    KeyVecFind(spec, a, name, val);
    KeyVecFlags(spec, a, name, val);
    forall j | 0 <= j < |spec| && spec[j].unique ensures KeyTyped(spec[j], c) && KeyConcrete(spec[j], c) {
      assert Find(c, spec[j].name) == Some(KeyCv(spec[j], a, name, val));
    }
    BoundHasValues(spec, c);
    if val == Find(a, name).value.val {
      UniqueValuesAgree(spec, c, a);
    } else if TupleOf(spec, c) == TupleOf(spec, a) {
      TupleBinds(spec, c, a, i);
    }
  }

  /** A row whose flags are not those of the specification is compared wrongly with some conforming item. */
  lemma FlagsNeeded(spec: Vec, a: Vec) returns (c: Vec)
    requires OneTypeEach(spec) && TupleOf(spec, a).Some? && Typed(spec, a) && !Flagged(spec, a)
    ensures Conforms(spec, c)
    ensures Matches(a, c, false) != (TupleOf(spec, a) == TupleOf(spec, c))
  {
    var i := SomeUnique(spec, a);
    if !FlagsAreKeys(spec, a) || !FlagsAgree(a) {
      c := KeyVec(spec, a, spec[i].name, Find(a, spec[i].name).value.val);
      KeyVecConforms(spec, a, i, Find(a, spec[i].name).value.val);
      KeyVecFind(spec, a, spec[i].name, Find(a, spec[i].name).value.val);
      BadFlagMissed(spec, a, c, i);
    } else {
      i :| 0 <= i < |spec| && spec[i].unique && !KeyFlagged(spec[i], a);
      var val := Find(a, spec[i].name).value.val + "x";
      c := KeyVec(spec, a, spec[i].name, val);
      KeyVecConforms(spec, a, i, val);
      KeyVecFind(spec, a, spec[i].name, val);
      forall k | 0 <= k < |a| && a[k].unique ensures MatchOne(a[k], c) {
        assert UniqueName(spec, a[k].name) && SameValue(Find(a, a[k].name).value, a[k]);
        var j :| 0 <= j < |spec| && spec[j].unique && spec[j].name == a[k].name;
        assert KeyTyped(spec[j], a);
      }
    }
  }

  lemma SomeUnique(spec: Vec, a: Vec) returns (i: nat)
    requires TupleOf(spec, a).Some?
    ensures i < |spec| && spec[i].unique
  {
    BoundHasValues(spec, a);
    i :| 0 <= i < |spec| && spec[i].unique;
  }

  /** A flagged variable that is no key, or differs from the first of its name, is not in the item of the same keys. */
  lemma BadFlagMissed(spec: Vec, a: Vec, c: Vec, i: nat)
    requires OneTypeEach(spec) && TupleOf(spec, a).Some? && Typed(spec, a)
    requires i < |spec| && spec[i].unique && c == KeyVec(spec, a, spec[i].name, Find(a, spec[i].name).value.val)
    requires !FlagsAreKeys(spec, a) || !FlagsAgree(a)
    ensures !Matches(a, c, false)
  {
    var name, val := spec[i].name, Find(a, spec[i].name).value.val;
    KeyVecFind(spec, a, name, val);
    if !FlagsAreKeys(spec, a) {
      var k :| 0 <= k < |a| && a[k].unique && !UniqueName(spec, a[k].name);
      forall m | 0 <= m < |c| ensures c[m].name != a[k].name {
        assert IsKeyCv(spec, a, name, val, c[m]);
      }
      assert !MatchOne(a[k], c);
    } else {
      var k :| 0 <= k < |a| && a[k].unique && !SameValue(Find(a, a[k].name).value, a[k]);
      assert UniqueName(spec, a[k].name);
      var j :| 0 <= j < |spec| && spec[j].unique && spec[j].name == a[k].name;
      assert KeyTyped(spec[j], a);
      assert !MatchOne(a[k], c);
    }
  }

  /** The flags of a row decide, for every conforming item, whether the comparison is equality of unique tuples. */
  lemma FlagsDecide(spec: Vec, a: Vec)
    requires OneTypeEach(spec) && TupleOf(spec, a).Some? && Typed(spec, a) && Concrete(spec, a)
    ensures Flagged(spec, a) <==>
            forall c :: Conforms(spec, c) ==> (Matches(a, c, false) <==> TupleOf(spec, a) == TupleOf(spec, c))
  {
    if Flagged(spec, a) {
      forall c | Conforms(spec, c) ensures Matches(a, c, false) <==> TupleOf(spec, a) == TupleOf(spec, c) {
        MatchIsTupleEquality(spec, a, c);
      }
    } else {
      var c := FlagsNeeded(spec, a);
    }
  }

  // ---------------------------------------------------------------- short runs

  /** A list of one item. */
  function Single(base: string, vec: Vec): Db {
    map[Max(base) := Number(1), Entry(base, 0) := Vars(vec)]
  }

  lemma FirstSet(base: string, spec: Vec, b: Vec, merge: bool)
    ensures ScanSet(base, spec, map[], b, merge) == Single(base, Filled(spec, b))
  {
    MergeNothing(b);
  }

  lemma NextSet(base: string, spec: Vec, a: Vec, b: Vec, merge: bool)
    requires a != []
    ensures Matches(a, b, false) ==>
              ScanSet(base, spec, Single(base, a), b, merge) == Single(base, Filled(spec, if merge then Merge(b, a) else b))
    ensures !Matches(a, b, false) ==>
              ScanSet(base, spec, Single(base, a), b, merge) ==
              map[Max(base) := Number(2), Entry(base, 0) := Vars(a), Entry(base, 1) := Vars(Filled(spec, b))]
  {
    MergeNothing(b);
    hide Matches, Filled, Merge;
    assert Read(base, Single(base, a), 0) == a && Read(base, Single(base, a), 1) == [];
    assert FirstHit(base, Single(base, a), b, 1, 1) == None && FirstHole(base, Single(base, a), 1, 1) == None;
  }

  lemma NextDel(base: string, a: Vec, b: Vec)
    requires a != []
    ensures HasItem(base, ScanDel(base, Single(base, a), b), a) <==> !Matches(a, b, false)
  {
    hide Matches;
    var db := Single(base, a);
    assert Read(base, db, 0) == a;
    var after := ScanDel(base, db, b);
    if !Matches(a, b, false) {
      assert Entry(base, 0) in after && after[Entry(base, 0)] == Vars(a);
    }
  }

  lemma TwoSteps(base: string, spec: Vec, x: Op, y: Op)
    ensures Steps(spec, map[], [x, y]) == Step(spec, Step(spec, map[], x), y)
    ensures ScanRun(base, spec, map[], [x, y]) == ScanExec(base, spec, ScanExec(base, spec, map[], x), y)
  {
    assert [x, y][1..] == [y] && [y][1..] == [];
    var r, d := Step(spec, map[], x), ScanExec(base, spec, map[], x);
    assert Steps(spec, r, [y]) == Step(spec, r, y);
    assert ScanRun(base, spec, d, [y]) == ScanExec(base, spec, d, y);
  }

  // ---------------------------------------------------------------- the condition is exact

  /** After these operations on empty lists the variants hold different items. */
  ghost predicate ComeApart(base: string, spec: Vec, ops: seq<Op>) {
    exists item :: HasItem(base, ScanRun(base, spec, map[], ops), item) != IsRow(Steps(spec, map[], ops), item)
  }

  ghost predicate AllAgree(spec: Vec, ops: seq<Op>) {
    forall op :: op in ops ==> Agrees(spec, op)
  }

  /** Among operations that agree, this one makes no difference between the variants, wherever it stands. */
  ghost predicate Harmless(base: string, spec: Vec, op: Op) {
    forall before, after :: AllAgree(spec, before) && AllAgree(spec, after) ==> !ComeApart(base, spec, before + [op] + after)
  }

  lemma AgreeingRuns(base: string, spec: Vec, ops: seq<Op>)
    requires AllAgree(spec, ops)
    ensures !ComeApart(base, spec, ops)
  {
    RunActsAsSteps(base, spec, map[], map[], ops);
    forall item ensures HasItem(base, ScanRun(base, spec, map[], ops), item) == IsRow(Steps(spec, map[], ops), item) {
      ScanItems(base, spec, ScanRun(base, spec, map[], ops), Steps(spec, map[], ops), item);
    }
  }

  lemma Harm(base: string, spec: Vec, before: seq<Op>, op: Op, after: seq<Op>, item: Vec)
    requires AllAgree(spec, before) && AllAgree(spec, after)
    requires var ops := before + [op] + after;
             HasItem(base, ScanRun(base, spec, map[], ops), item) != IsRow(Steps(spec, map[], ops), item)
    ensures !Harmless(base, spec, op)
  {
    assert ComeApart(base, spec, before + [op] + after);
  }

  /** A unique name of another type: the item that is there is not found. A wildcard: an item of another tuple is. */
  lemma KeyApart(spec: Vec, b: Vec) returns (c: Vec)
    requires OneTypeEach(spec) && TupleOf(spec, b).Some? && !(Typed(spec, b) && Concrete(spec, b))
    ensures Conforms(spec, c)
    ensures Covers(spec, Filled(spec, c), b) != (TupleOf(spec, c) == TupleOf(spec, b))
    ensures TupleOf(spec, c) == TupleOf(spec, b) ==>
              exists i :: 0 <= i < |spec| && spec[i].unique && !KeyTyped(spec[i], b)
  {
    hide KeyVec, Flagged, Filled;
    var i := SomeUnique(spec, b);
    if TypedOrWild(spec, b) {
      i := WildKey(spec, b);
      var val := Find(b, spec[i].name).value.val + "x";
      c := KeyVec(spec, b, spec[i].name, val);
      KeyVecConforms(spec, b, i, val);
      KeyVecFind(spec, b, spec[i].name, val);
      forall j | 0 <= j < |spec| && spec[j].unique ensures KeyCovered(spec[j], Filled(spec, c), b) {
        FilledFind(spec, c, j);
        assert KeyTypedOrWild(spec[j], b);
      }
    } else {
      c := KeyVec(spec, b, spec[i].name, Find(b, spec[i].name).value.val);
      KeyVecConforms(spec, b, i, Find(b, spec[i].name).value.val);
      FilledTuple(spec, c);
      CoverIsTupleEquality(spec, Filled(spec, c), b);
      i :| 0 <= i < |spec| && spec[i].unique && !KeyTypedOrWild(spec[i], b);
      assert !KeyTyped(spec[i], b);
    }
  }

  lemma WildKey(spec: Vec, b: Vec) returns (i: nat)
    requires TypedOrWild(spec, b) && !(Typed(spec, b) && Concrete(spec, b))
    ensures i < |spec| && spec[i].unique && Find(b, spec[i].name).Some? && Find(b, spec[i].name).value.wildcard
  {
    if !Typed(spec, b) {
      i :| 0 <= i < |spec| && spec[i].unique && !KeyTyped(spec[i], b);
      assert KeyTypedOrWild(spec[i], b);
    } else {
      i :| 0 <= i < |spec| && spec[i].unique && !KeyConcrete(spec[i], b);
    }
  }

  /** What is stored binds the unique names as what was sent. */
  lemma FilledFind(spec: Vec, c: Vec, i: nat)
    requires i < |spec| && Find(c, spec[i].name).Some?
    ensures Find(Filled(spec, c), spec[i].name) == Some(Carried(Find(c, spec[i].name).value))
  {
    MergeLookup(c, spec, spec[i].name);
    FindCarried(Merge(c, spec), spec[i].name);
  }

  /** Storing an item that leaves a unique name open adds one that the map does not have. */
  lemma OpenHarms(base: string, spec: Vec, op: Op)
    requires !op.Delete? && TupleOf(spec, op.vec).None?
    ensures !Harmless(base, spec, op)
  {
    var item := Filled(spec, op.vec);
    FirstSet(base, spec, op.vec, op.MergeOp?);
    assert [op][1..] == [] && [] + [op] + [] == [op];
    assert Steps(spec, map[], [op]) == map[];
    var db := Single(base, item);
    assert ScanRun(base, spec, map[], [op]) == db;
    assert Entry(base, 0) in db && db[Entry(base, 0)] == Vars(item);
    Harm(base, spec, [], op, [], item);
  }

  /** What the first item of a run leaves. */
  lemma AfterFirst(base: string, spec: Vec, op: Op)
    requires !op.Delete? && TupleOf(spec, op.vec).Some?
    ensures ScanExec(base, spec, map[], op) == Single(base, Filled(spec, op.vec))
    ensures Step(spec, map[], op) == map[TupleOf(spec, op.vec).value := Filled(spec, op.vec)]
    ensures TupleOf(spec, Filled(spec, op.vec)) == TupleOf(spec, op.vec) && Filled(spec, op.vec) != []
  {
    FirstSet(base, spec, op.vec, op.MergeOp?);
    FilledTuple(spec, op.vec);
    TupleNeedsVariables(spec, Filled(spec, op.vec));
  }

  /** Unique names of other types, or wildcards. */
  lemma KeysHarm(base: string, spec: Vec, op: Op)
    requires OneTypeEach(spec) && TupleOf(spec, op.vec).Some? && !(Typed(spec, op.vec) && Concrete(spec, op.vec))
    ensures !Harmless(base, spec, op)
  {
    hide Conforms, Typed, Concrete, Flagged, Covers, Matches, TupleOf, Filled, Merge, ScanSet, ScanDel, Find, Single;
    var b := op.vec;
    var c := KeyApart(spec, b);
    ConformsTuple(spec, c);
    var first, a := Set(c), Filled(spec, c);
    AfterFirst(base, spec, first);
    StoredMatch(spec, c, b);
    TwoSteps(base, spec, first, op);
    assert [first] + [op] + [] == [first, op];
    var db, rows := ScanRun(base, spec, map[], [first, op]), Steps(spec, map[], [first, op]);
    assert HasItem(base, db, a) != IsRow(rows, a) by {
      if op.Delete? {
        NextDel(base, a, b);
        DelRows(spec, c, b);
      } else {
        KeysSet(base, spec, c, op);
      }
    }
    Harm(base, spec, [first], op, [], a);
  }

  lemma ConformsTuple(spec: Vec, c: Vec)
    requires Conforms(spec, c)
    ensures TupleOf(spec, c).Some? && Agrees(spec, Set(c)) && Conforms(spec, Filled(spec, c))
  {
    FilledConforms(spec, c);
  }

  lemma StoredMatch(spec: Vec, c: Vec, b: Vec)
    requires Conforms(spec, c)
    ensures Matches(Filled(spec, c), b, false) <==> Covers(spec, Filled(spec, c), b)
  {
    FilledConforms(spec, c);
    MatchIsCover(spec, Filled(spec, c), b);
  }

  lemma DelRows(spec: Vec, c: Vec, b: Vec)
    requires TupleOf(spec, c).Some? && TupleOf(spec, b).Some?
    ensures var rows := Step(spec, map[TupleOf(spec, c).value := Filled(spec, c)], Delete(b));
            IsRow(rows, Filled(spec, c)) <==> TupleOf(spec, c) != TupleOf(spec, b)
  {
    hide TupleOf, Filled;
    var t, u, a := TupleOf(spec, c).value, TupleOf(spec, b).value, Filled(spec, c);
    var rows := Step(spec, map[t := a], Delete(b));
    assert rows == map[t := a] - {u};
    if t != u {
      assert t in rows && rows[t] == a;
    }
  }

  lemma KeysSet(base: string, spec: Vec, c: Vec, op: Op)
    requires Conforms(spec, c) && TupleOf(spec, op.vec).Some? && !op.Delete?
    requires Matches(Filled(spec, c), op.vec, false) != (TupleOf(spec, c) == TupleOf(spec, op.vec))
    requires TupleOf(spec, c) == TupleOf(spec, op.vec) ==>
               exists i :: 0 <= i < |spec| && spec[i].unique && !KeyTyped(spec[i], op.vec)
    ensures var a := Filled(spec, c);
            HasItem(base, ScanExec(base, spec, Single(base, a), op), a) !=
            IsRow(Step(spec, map[TupleOf(spec, c).value := a], op), a)
  {
    hide Flagged, Concrete, Covers, Matches, TupleOf, Filled, Merge, ScanSet, Find;
    var b, a, merge, t := op.vec, Filled(spec, c), op.MergeOp?, TupleOf(spec, op.vec).value;
    ConformsTuple(spec, c);
    AfterFirst(base, spec, Set(c));
    NextSet(base, spec, a, b, merge);
    var after := ScanSet(base, spec, Single(base, a), b, merge);
    var stored := Filled(spec, if merge then Merge(b, a) else b);
    MergeKeepsTuple(spec, b, a);
    FilledTuple(spec, if merge then Merge(b, a) else b);
    var tc := TupleOf(spec, c).value;
    var rows := Step(spec, map[tc := a], op);
    if t == tc {
      assert after[Entry(base, 0)] == Vars(a);
      var i :| 0 <= i < |spec| && spec[i].unique && !KeyTyped(spec[i], b);
      StoredType(spec, b, a, merge, i);
      assert KeyTyped(spec[i], a);
      assert rows == map[t := stored];
    } else {
      assert rows == map[tc := a, t := Filled(spec, b)];
      assert rows[tc] == a;
      assert after == Single(base, stored);
    }
  }

  /** What is stored binds a unique name to the type that was sent. */
  lemma StoredType(spec: Vec, b: Vec, a: Vec, merge: bool, i: nat)
    requires TupleOf(spec, b).Some? && i < |spec| && spec[i].unique
    ensures KeyTyped(spec[i], Filled(spec, if merge then Merge(b, a) else b)) <==> KeyTyped(spec[i], b)
  {
    var all := if merge then Merge(b, a) else b;
    MergeLookup(b, a, spec[i].name);
    FilledFind(spec, all, i);
  }

  /** Flags that are not those of the specification: the next item is not told apart from this one. */
  lemma FlagsHarm(base: string, spec: Vec, op: Op)
    requires OneTypeEach(spec) && !op.Delete? && TupleOf(spec, op.vec).Some?
    requires Typed(spec, op.vec) && !Flagged(spec, op.vec)
    ensures !Harmless(base, spec, op)
  {
    hide Typed, Flagged, Covers, Matches, TupleOf, Filled, Merge, ScanSet, ScanDel, Find, Single;
    var a := Filled(spec, op.vec);
    AfterFirst(base, spec, op);
    FilledConforms(spec, op.vec);
    var c := FlagsNeeded(spec, a);
    ConformsTuple(spec, c);
    var next := Set(c);
    TwoSteps(base, spec, op, next);
    assert [] + [op] + [next] == [op, next];
    NextSet(base, spec, a, c, false);
    FlagsApart(base, spec, a, c);
    Harm(base, spec, [], op, [next], a);
  }

  lemma FlagsApart(base: string, spec: Vec, a: Vec, c: Vec)
    requires a != [] && TupleOf(spec, a).Some? && !Flagged(spec, a) && Conforms(spec, c)
    requires Matches(a, c, false) != (TupleOf(spec, a) == TupleOf(spec, c))
    ensures HasItem(base, ScanExec(base, spec, Single(base, a), Set(c)), a) !=
            IsRow(Step(spec, map[TupleOf(spec, a).value := a], Set(c)), a)
  {
    ConformsTuple(spec, c);
    assert Filled(spec, c) != a;
    hide Conforms, Flagged, Matches, TupleOf, Filled, ScanSet;
    NextSet(base, spec, a, c, false);
    var after := ScanSet(base, spec, Single(base, a), c, false);
    var t, u := TupleOf(spec, a).value, TupleOf(spec, c).value;
    var rows := Step(spec, map[t := a], Set(c));
    assert rows == map[t := a][u := Filled(spec, c)];
    if t == u {
      assert after[Entry(base, 0)] == Vars(a);
    } else {
      assert rows[t] == a;
      assert after == Single(base, Filled(spec, c));
    }
  }

  /** The condition is exact: an operation makes no difference between the two variants, in any run of operations that
      agree with the specification, if and only if it agrees with it too. */
  lemma AgreesExactly(base: string, spec: Vec, op: Op)
    requires OneTypeEach(spec)
    ensures Agrees(spec, op) <==> Harmless(base, spec, op)
  {
    if Agrees(spec, op) {
      forall before, after | AllAgree(spec, before) && AllAgree(spec, after)
        ensures !ComeApart(base, spec, before + [op] + after)
      {
        AgreeingRuns(base, spec, before + [op] + after);
      }
    } else if TupleOf(spec, op.vec).None? {
      OpenHarms(base, spec, op);
    } else if Typed(spec, op.vec) && Concrete(spec, op.vec) {
      FlagsHarm(base, spec, op);
    } else {
      KeysHarm(base, spec, op);
    }
  }

  /** The shortest case: the item that is set again with a variable of another type is there twice for the scan, and
      once with content keys. */
  lemma OtherTypeComesApart(base: string) returns (spec: Vec, first: Op, second: Op)
    ensures |spec| == 1 && OneTypeEach(spec) && first == Set(spec) && second == Set([spec[0].(ty := spec[0].ty + 1)])
    ensures Agrees(spec, first) && TupleOf(spec, first.vec) == TupleOf(spec, second.vec)
    ensures HasItem(base, ScanRun(base, spec, map[], [first, second]), first.vec)
    ensures !IsRow(Steps(spec, map[], [first, second]), first.vec)
  {
    var k := Cv("k", 1, "x", true, false, false);
    var k2 := k.(ty := 2);
    spec := [k];
    first, second := Set([k]), Set([k2]);
    assert spec[1..] == [] && UniqueValues([], [k]) == Some([]) && UniqueValues([], [k2]) == Some([]);
    assert ["x"] + [] == ["x"];
    assert Find([k], "k") == Some(k) && Find([k2], "k") == Some(k2);
    assert TupleOf(spec, [k]) == Some(["x"]) && TupleOf(spec, [k2]) == Some(["x"]);
    assert UniqueName(spec, "k") by { assert spec[0].unique && spec[0].name == "k"; }
    assert KeyFlagged(spec[0], [k]) by { assert [k][0].unique; }
    assert Conforms(spec, [k]);
    assert Filled(spec, [k]) == [k] && Filled(spec, [k2]) == [k2] by {
      assert Merge([k], [k]) == [k] && Merge([k2], [k]) == [k2];
    }
    assert !MatchOne([k][0], [k2]);
    assert !Matches([k], [k2], false);
    AfterFirst(base, spec, first);
    TwoSteps(base, spec, first, second);
    NextSet(base, spec, [k], [k2], false);
    assert Steps(spec, map[], [first, second]) == map[["x"] := [k2]];
  }
}
