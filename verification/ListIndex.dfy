/** What both compile-time variants of the list index share: the keys of one list `A[]` inside the key-value
    database, the unique tuple of an item, and the abstract meaning of set, merge and delete. */
module ListIndex {
  import opened Basics
  import opened Cvec

  /** `Max(A)` is the key `A.n`, `Content(A, d)` is `A.n.<digests of the unique values>`, `Entry(A, i)` is `A.<i>`;
      `Plain` stands for every key that is not part of a list. */
  datatype Key =
    | Max(base: string)
    | Content(base: string, digest: seq<string>)
    | Entry(base: string, index: nat)
    | Plain(name: string)

  datatype Value = Number(n: nat) | Vars(vec: Vec)

  type Db = map<Key, Value>

  predicate OfList(base: string, key: Key) {
    !key.Plain? && key.base == base
  }

  /** keyindex_max_get: a missing `A.n` counts as 0. */
  function MaxIndex(db: Db, base: string): nat {
    if Max(base) in db && db[Max(base)].Number? then db[Max(base)].n else 0
  }

  /** The part of a database that belongs to other lists and to plain keys. */
  ghost function Others(base: string, db: Db): Db {
    map k | k in db && !OfList(base, k) :: db[k]
  }

  lemma OthersWrite(base: string, db: Db, key: Key, value: Value)
    requires OfList(base, key)
    ensures Others(base, db[key := value]) == Others(base, db)
  {}

  lemma OthersErase(base: string, db: Db, key: Key)
    requires OfList(base, key)
    ensures Others(base, db - {key}) == Others(base, db)
  {}

  datatype Op = Set(vec: Vec) | MergeOp(vec: Vec) | Delete(vec: Vec)

  /** The values of the unique variables of an item, in the order of the specification. */
  type Tuple = seq<string>

  type Rows = map<Tuple, Vec>

  /** The values that `vec` gives to the unique variables of `spec`, or None when one of them is missing. */
  function UniqueValues(spec: Vec, vec: Vec): (r: Option<Tuple>)
    ensures r.Some? ==> forall i :: 0 <= i < |spec| && spec[i].unique ==> Find(vec, spec[i].name).Some?
  {
    if spec == [] then Some([])
    else
      var rest := UniqueValues(spec[1..], vec);
      if !spec[0].unique then rest
      else
        var cv := Find(vec, spec[0].name);
        if cv.None? || rest.None? then None else Some([cv.value.val] + rest.value)
  }

  /** The unique tuple of an item. A list whose specification has no unique variable has none. */
  function TupleOf(spec: Vec, vec: Vec): Option<Tuple> {
    var t := UniqueValues(spec, vec);
    if t == Some([]) then None else t
  }

  /** The tuple depends only on what the unique names of the specification are bound to. */
  lemma {:induction false} UniqueValuesAgree(spec: Vec, a: Vec, b: Vec)
    requires forall i :: 0 <= i < |spec| && spec[i].unique ==>
               var x, y := Find(a, spec[i].name), Find(b, spec[i].name);
               x.Some? == y.Some? && (x.Some? ==> x.value.val == y.value.val)
    ensures UniqueValues(spec, a) == UniqueValues(spec, b)
  {
    if spec != [] {
      forall i | 0 <= i < |spec[1..]| && spec[1..][i].unique
        ensures var x, y := Find(a, spec[1..][i].name), Find(b, spec[1..][i].name);
                x.Some? == y.Some? && (x.Some? ==> x.value.val == y.value.val)
      {
        assert spec[1..][i] == spec[i + 1];
      }
      UniqueValuesAgree(spec[1..], a, b);
    }
  }

  /** What is stored for an item: its variables, then the defaults of the specification that it lacks. */
  function Filled(spec: Vec, vec: Vec): Vec {
    CarriedVec(Merge(vec, spec))
  }

  /** The effect of one operation on the list seen as a map from unique tuple to variables. An operation whose
      variables do not cover the unique ones is refused and changes nothing. */
  function Step(spec: Vec, rows: Rows, op: Op): Rows {
    var t := TupleOf(spec, op.vec);
    if t.None? then rows
    else match op
      case Set(vec) => rows[t.value := Filled(spec, vec)]
      case MergeOp(vec) =>
        var all := if t.value in rows then Merge(vec, rows[t.value]) else vec;
        rows[t.value := Filled(spec, all)]
      case Delete(_) => rows - {t.value}
  }

  function Steps(spec: Vec, rows: Rows, ops: seq<Op>): Rows
    decreases |ops|
  {
    if ops == [] then rows else Steps(spec, Step(spec, rows, ops[0]), ops[1..])
  }

  lemma {:induction false} StepsSnoc(spec: Vec, rows: Rows, ops: seq<Op>, op: Op)
    ensures Steps(spec, rows, ops + [op]) == Step(spec, Steps(spec, rows, ops), op)
    decreases |ops|
  {
    if ops == [] {
      assert (ops + [op])[1..] == [];
    } else {
      assert (ops + [op])[1..] == ops[1..] + [op];
      StepsSnoc(spec, Step(spec, rows, ops[0]), ops[1..], op);
    }
  }

  /** Adding variables that the item lacks does not move it: the tuple of the merge is the tuple of the item. */
  lemma MergeKeepsTuple(spec: Vec, vec: Vec, add: Vec)
    requires TupleOf(spec, vec).Some?
    ensures TupleOf(spec, Merge(vec, add)) == TupleOf(spec, vec)
  {
    forall i | 0 <= i < |spec| && spec[i].unique
      ensures Find(Merge(vec, add), spec[i].name) == Find(vec, spec[i].name)
    {
      MergeLookup(vec, add, spec[i].name);
    }
    UniqueValuesAgree(spec, Merge(vec, add), vec);
  }

  /** A stored item hashes back to the tuple it was stored under. */
  lemma FilledTuple(spec: Vec, vec: Vec)
    requires TupleOf(spec, vec).Some?
    ensures TupleOf(spec, Filled(spec, vec)) == TupleOf(spec, vec)
  {
    MergeKeepsTuple(spec, vec, spec);
    forall i | 0 <= i < |spec| && spec[i].unique
      ensures var x, y := Find(Filled(spec, vec), spec[i].name), Find(Merge(vec, spec), spec[i].name);
              x.Some? == y.Some? && (x.Some? ==> x.value.val == y.value.val)
    {
      FindCarried(Merge(vec, spec), spec[i].name);
    }
    UniqueValuesAgree(spec, Filled(spec, vec), Merge(vec, spec));
  }

  /** An item with a tuple has at least one variable, so it never reads back as a missing key. */
  lemma {:induction false} TupleNeedsVariables(spec: Vec, vec: Vec)
    requires TupleOf(spec, vec).Some?
    ensures vec != []
  {
    if vec == [] {
      NothingUnique(spec);
    }
  }

  lemma {:induction false} NothingUnique(spec: Vec)
    ensures UniqueValues(spec, []).Some? ==> UniqueValues(spec, []) == Some([])
  {
    if spec != [] {
      NothingUnique(spec[1..]);
    }
  }

  /** After a set every name reads as the new value, else the default of the specification. */
  lemma SetLookup(spec: Vec, rows: Rows, vec: Vec, name: string)
    requires TupleOf(spec, vec).Some?
    ensures var t := TupleOf(spec, vec).value;
            var after := Step(spec, rows, Set(vec));
            && t in after && (forall u :: u != t ==> (u in after <==> u in rows) && (u in rows ==> after[u] == rows[u]))
            && Find(after[t], name) ==
               var v := if Find(vec, name).Some? then Find(vec, name) else FindSet(spec, name);
               if v.Some? then Some(Carried(v.value)) else None
  {
    FindCarried(Merge(vec, spec), name);
    MergeLookup(vec, spec, name);
  }

  /** After a merge every name reads as the new value, else the stored one, else the default of the specification. */
  lemma OverlayLookup(spec: Vec, rows: Rows, vec: Vec, name: string)
    requires TupleOf(spec, vec).Some?
    ensures var t := TupleOf(spec, vec).value;
            var after := Step(spec, rows, MergeOp(vec));
            t in after
            && Find(after[t], name) ==
               (var stored := if t in rows then FindSet(rows[t], name) else None;
                var v := if Find(vec, name).Some? then Find(vec, name)
                         else if stored.Some? then stored
                         else FindSet(spec, name);
                if v.Some? then Some(Carried(v.value)) else None)
  {
    var t := TupleOf(spec, vec).value;
    var all := if t in rows then Merge(vec, rows[t]) else vec;
    FindCarried(Merge(all, spec), name);
    MergeLookup(all, spec, name);
    if t in rows {
      MergeLookup(vec, rows[t], name);
    }
  }

  /** db_lv_set with LV_SET on a key of list `base`: fill in the defaults and write the entry. */
  method LvSet(db: Db, spec: Vec, base: string, key: Key, vec: Vec) returns (after: Db)
    requires OfList(base, key)
    ensures Others(base, after) == Others(base, db)
    ensures after == db[key := Vars(Filled(spec, vec))]
  {
    var vec2, n := CvecMerge(vec, spec);
    OthersWrite(base, db, key, Vars(CarriedVec(vec2)));
    after := db[key := Vars(CarriedVec(vec2))];
  }

  /** The LV_MERGE branch of db_lv_vec_set: append what is stored to what is being set. */
  method MergeStored(db: Db, key: Key, setvars: Vec, merge: bool) returns (vars: Vec)
    requires key in db ==> db[key].Vars?
    ensures vars == if merge && key in db then Merge(setvars, db[key].vec) else setvars
  {
    vars := setvars;
    if merge {
      if key in db {
        var n;
        vars, n := CvecMerge(setvars, db[key].vec);
      }
    }
  }
}
