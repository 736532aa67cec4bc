/** dbdep_commitvec: which callbacks a difference concerns, and in which order. */
module CommitVec {
  import opened Basics
  import opened KeyPattern
  import opened Sorting
  import opened DbDiff
  import opened DbDep

  /** The key that decides whether a dependency is concerned: that of the first database if there is one. */
  function KeyOf(e: DiffEnt): string {
    match e
    case First(x) => x.key
    case Second(y) => y.key
    case Both(x, _) => x.key
  }

  predicate Bracketless(e: DiffEnt) {
    && (!e.Second? ==> BracketFree(e.one.key))
    && (!e.First? ==> BracketFree(e.two.key))
  }

  /** The part of a key that a dependency is told about: for a tree the matched part. */
  function Part(dep: Dep, key: string): string {
    if dep.tree && Starred(dep.pattern) then
      var n := Scan(Init(dep.pattern), key);
      if n.Some? then key[..n.value] else ""
    else key
  }

  lemma PartIsMatched(dep: Dep, key: string, matched: string)
    requires dep.tree && BracketFree(key) && DepPattern(dep.pattern)
    requires Accepts(dep.pattern, key) && IsMatchedPart(dep.pattern, key, matched)
    ensures matched == Part(dep, key)
  {
    if Starred(dep.pattern) {
      InitPattern(dep.pattern);
      ScanFindsLongest(Init(dep.pattern), key);
    }
  }

  ghost predicate Concerns(dep: Dep, e: DiffEnt) {
    Accepts(dep.pattern, KeyOf(e))
  }

  /** The entry of the vector that pairs `dep` with the change at `at`. */
  function Pair(dep: Dep, ents: seq<DiffEnt>, at: nat): DD
    requires at < |ents|
  {
    var e := ents[at];
    DD(dep, at, e,
       if e.Second? then None else Some(Part(dep, e.one.key)),
       if e.First? then None else Some(Part(dep, e.two.key)))
  }

  /** What an entry is about: one change for a key dependency, one matched part for a tree dependency. */
  datatype Slot = KeySlot(dep: Dep, at: nat) | TreeSlot(dep: Dep, part: string)

  function SlotOf(dep: Dep, e: DiffEnt, at: nat): Slot {
    if dep.tree then TreeSlot(dep, Part(dep, KeyOf(e))) else KeySlot(dep, at)
  }

  function Slotted(dd: DD): Slot {
    SlotOf(dd.dep, dd.ent, dd.at)
  }

  ghost predicate Covered(vec: seq<DD>, slot: Slot) {
    exists dd :: dd in vec && Slotted(dd) == slot
  }

  /** A tree dependency that matches the first key of a change but not the second: the one error of the function. */
  ghost predicate HalfMatched(dep: Dep, e: DiffEnt) {
    dep.tree && e.Both? && Concerns(dep, e) && !Accepts(dep.pattern, e.two.key)
  }

  /** The entry pairs a registered dependency with a change that concerns it, both keys of it when it is a tree. */
  ghost predicate SoundEntry(deps: seq<Dep>, ents: seq<DiffEnt>, dd: DD) {
    dd.dep in deps && dd.at < |ents| && Concerns(dd.dep, ents[dd.at]) && !HalfMatched(dd.dep, ents[dd.at])
    && dd == Pair(dd.dep, ents, dd.at)
  }

  ghost predicate Sound(deps: seq<Dep>, ents: seq<DiffEnt>, vec: seq<DD>) {
    forall dd :: dd in vec ==> SoundEntry(deps, ents, dd)
  }

  /** No slot is filled twice. */
  ghost predicate OncePerSlot(vec: seq<DD>) {
    forall i, j :: 0 <= i < j < |vec| ==> Slotted(vec[i]) != Slotted(vec[j])
  }

  /** The slots of everything that concerns a dependency are filled. */
  ghost predicate Complete(deps: seq<Dep>, ents: seq<DiffEnt>, vec: seq<DD>) {
    forall dep, k :: dep in deps && 0 <= k < |ents| && Concerns(dep, ents[k]) ==> Covered(vec, SlotOf(dep, ents[k], k))
  }

  /** Such a change is an error unless an earlier one has the same matched part, so that it is passed over. */
  ghost predicate FirstHalfMatched(dep: Dep, ents: seq<DiffEnt>, k: nat)
    requires k < |ents|
  {
    HalfMatched(dep, ents[k]) && !Earlier(dep, ents, k, SlotOf(dep, ents[k], k))
  }

  /** A change before `k` fills the slot. */
  ghost predicate Earlier(dep: Dep, ents: seq<DiffEnt>, k: nat, slot: Slot)
    requires k <= |ents|
  {
    exists j :: 0 <= j < k && Concerns(dep, ents[j]) && SlotOf(dep, ents[j], j) == slot
  }

  function ByRow(): (DD, DD) -> int {
    (a: DD, b: DD) => a.dep.row - b.dep.row
  }

  lemma CoveredMonotone(vec: seq<DD>, dd: DD, slot: Slot)
    ensures Covered(vec + [dd], slot) <==> Covered(vec, slot) || Slotted(dd) == slot
  {
    if Slotted(dd) == slot {
      assert dd in vec + [dd];
    }
    if Covered(vec, slot) {
      var d :| d in vec && Slotted(d) == slot;
      assert d in vec + [dd];
    }
  }

  /** The loop that looks for an earlier entry of a tree dependency with the same matched part. */
  method TreeSeen(ghost deps: seq<Dep>, ghost ents: seq<DiffEnt>, vec: seq<DD>, dep: Dep, part: string)
    returns (seen: bool)
    requires dep.tree && Sound(deps, ents, vec)
    ensures seen <==> Covered(vec, TreeSlot(dep, part))
  {
    var j := 0;
    while j < |vec|
      invariant 0 <= j <= |vec|
      invariant forall k :: 0 <= k < j ==> Slotted(vec[k]) != TreeSlot(dep, part)
    {
      assert SoundEntry(deps, ents, vec[j]);
      var ddkey := if vec[j].ent.Second? then vec[j].mkey2 else vec[j].mkey1;
      if vec[j].dep == dep && Some(part) == ddkey {
        assert Slotted(vec[j]) == TreeSlot(dep, part);
        return true;
      }
      j := j + 1;
    }
    seen := false;
  }

  /** The vector with the entry for `dep` and the change at `at`, if there is to be one. */
  ghost function Extended(vec: seq<DD>, dep: Dep, ents: seq<DiffEnt>, at: nat): seq<DD>
    requires at < |ents|
  {
    if Concerns(dep, ents[at]) && !Covered(vec, SlotOf(dep, ents[at], at)) then vec + [Pair(dep, ents, at)] else vec
  }

  /** One round of the inner loop: None is the error return. */
  method AddPair(ghost deps: seq<Dep>, vec: seq<DD>, dep: Dep, ents: seq<DiffEnt>, at: nat) returns (r: Option<seq<DD>>)
    requires at < |ents| && DepPattern(dep.pattern) && Bracketless(ents[at]) && Sound(deps, ents, vec)
    requires !dep.tree ==> !Covered(vec, SlotOf(dep, ents[at], at))
    ensures r.None? <==> HalfMatched(dep, ents[at]) && !Covered(vec, SlotOf(dep, ents[at], at))
    ensures r.Some? ==> r.value == Extended(vec, dep, ents, at)
  {
    var e := ents[at];
    var ok, matched := DbdepMatchKey(KeyOf(e), dep.pattern);
    if !ok {
      return Some(vec);
    }
    if dep.tree {
      PartIsMatched(dep, KeyOf(e), matched);
      var seen := TreeSeen(deps, ents, vec, dep, matched);
      if seen {
        return Some(vec);
      }
    }
    var dd := DD(dep, at, e, None, None);
    if dep.tree {
      if !e.Second? {
        var ok1, m1 := DbdepMatchKey(e.one.key, dep.pattern);
        if !ok1 {
          return None;
        }
        PartIsMatched(dep, e.one.key, m1);
        dd := dd.(mkey1 := Some(m1));
      }
      if !e.First? {
        var ok2, m2 := DbdepMatchKey(e.two.key, dep.pattern);
        if !ok2 {
          return None;
        }
        PartIsMatched(dep, e.two.key, m2);
        dd := dd.(mkey2 := Some(m2));
      }
    } else {
      if !e.Second? {
        dd := dd.(mkey1 := Some(e.one.key));
      }
      if !e.First? {
        dd := dd.(mkey2 := Some(e.two.key));
      }
    }
    r := Some(vec + [dd]);
  }

  /** The vector after the first `i` changes, and the first `d` dependencies for the next one. */
  ghost predicate Filled(deps: seq<Dep>, ents: seq<DiffEnt>, vec: seq<DD>, i: nat, d: nat)
    requires i <= |ents| && d <= |deps|
  {
    && Sound(deps, ents, vec)
    && OncePerSlot(vec)
    && (forall dd :: dd in vec ==> dd.at < i || (dd.at == i && dd.dep in deps[..d]))
    && (forall m, k :: 0 <= m < |deps| && 0 <= k < |ents| && (k < i || (k == i && m < d)) ==>
          !FirstHalfMatched(deps[m], ents, k))
    && (forall m, k :: 0 <= m < |deps| && 0 <= k < |ents| && (k < i || (k == i && m < d)) && Concerns(deps[m], ents[k])
          ==> Covered(vec, SlotOf(deps[m], ents[k], k)))
  }

  /** A slot is filled before its turn when an earlier change has filled it; that of a key dependency never is. */
  lemma NotYet(deps: seq<Dep>, ents: seq<DiffEnt>, vec: seq<DD>, i: nat, d: nat)
    requires i < |ents| && d < |deps| && NoDup(deps)
    requires Filled(deps, ents, vec, i, d)
    ensures Covered(vec, SlotOf(deps[d], ents[i], i)) <==> Earlier(deps[d], ents, i, SlotOf(deps[d], ents[i], i))
    ensures !deps[d].tree ==> !Covered(vec, SlotOf(deps[d], ents[i], i))
    ensures HalfMatched(deps[d], ents[i]) && !Covered(vec, SlotOf(deps[d], ents[i], i)) ==>
              FirstHalfMatched(deps[d], ents, i)
  {
    hide Concerns, Part;
    var slot := SlotOf(deps[d], ents[i], i);
    if Covered(vec, slot) {
      var dd :| dd in vec && Slotted(dd) == slot;
      assert SoundEntry(deps, ents, dd);
      assert dd.dep == deps[d] && dd.dep !in deps[..d];
      assert dd.at < i && SlotOf(deps[d], ents[dd.at], dd.at) == slot;
    }
    if Earlier(deps[d], ents, i, slot) {
      var j :| 0 <= j < i && Concerns(deps[d], ents[j]) && SlotOf(deps[d], ents[j], j) == slot;
    }
  }

  lemma ExtendedCovers(vec: seq<DD>, dep: Dep, ents: seq<DiffEnt>, at: nat, slot: Slot)
    requires at < |ents|
    ensures Covered(vec, slot) ==> Covered(Extended(vec, dep, ents, at), slot)
    ensures Concerns(dep, ents[at]) ==> Covered(Extended(vec, dep, ents, at), SlotOf(dep, ents[at], at))
  {
    CoveredMonotone(vec, Pair(dep, ents, at), slot);
    CoveredMonotone(vec, Pair(dep, ents, at), SlotOf(dep, ents[at], at));
  }

  lemma ExtendedOnce(vec: seq<DD>, dep: Dep, ents: seq<DiffEnt>, at: nat)
    requires at < |ents| && OncePerSlot(vec)
    ensures OncePerSlot(Extended(vec, dep, ents, at))
  {
    var next := Extended(vec, dep, ents, at);
    forall k, l | 0 <= k < l < |next| ensures Slotted(next[k]) != Slotted(next[l]) {
      if l == |vec| {
        assert next[k] in vec;
      }
    }
  }

  lemma FillOne(deps: seq<Dep>, ents: seq<DiffEnt>, vec: seq<DD>, i: nat, d: nat)
    requires i < |ents| && d < |deps| && NoDup(deps)
    requires Filled(deps, ents, vec, i, d) && !FirstHalfMatched(deps[d], ents, i)
    ensures Filled(deps, ents, Extended(vec, deps[d], ents, i), i, d + 1)
  {
    hide Concerns, Covered, OncePerSlot, Part, FirstHalfMatched;
    var next := Extended(vec, deps[d], ents, i);
    assert deps[..d + 1] == deps[..d] + [deps[d]];
    NotYet(deps, ents, vec, i, d);
    ExtendedOnce(vec, deps[d], ents, i);
    forall slot ensures Covered(vec, slot) ==> Covered(next, slot) {
      ExtendedCovers(vec, deps[d], ents, i, slot);
    }
    ExtendedCovers(vec, deps[d], ents, i, SlotOf(deps[d], ents[i], i));
    assert Concerns(deps[d], ents[i]) && next != vec ==> SoundEntry(deps, ents, Pair(deps[d], ents, i));
  }

  /** The entries stay the same entries when the vector is sorted. */
  lemma SortKeeps(deps: seq<Dep>, ents: seq<DiffEnt>, vec: seq<DD>, sorted: seq<DD>)
    requires Permutation(vec, sorted) && Sound(deps, ents, vec) && OncePerSlot(vec) && Complete(deps, ents, vec)
    ensures Sound(deps, ents, sorted) && OncePerSlot(sorted) && Complete(deps, ents, sorted)
  {
    PermutationMembers(vec, sorted);
    assert NoDup(vec);
    PermutationNoDup(vec, sorted);
    forall i, j | 0 <= i < j < |sorted| ensures Slotted(sorted[i]) != Slotted(sorted[j]) {
      assert sorted[i] in vec && sorted[j] in vec && sorted[i] != sorted[j];
      var k :| 0 <= k < |vec| && vec[k] == sorted[i];
      var l :| 0 <= l < |vec| && vec[l] == sorted[j];
      assert k < l || l < k;
    }
    forall slot | Covered(vec, slot) ensures Covered(sorted, slot) {
      var dd :| dd in vec && Slotted(dd) == slot;
      assert dd in sorted;
    }
  }

  lemma AllFilled(deps: seq<Dep>, ents: seq<DiffEnt>, vec: seq<DD>)
    requires Filled(deps, ents, vec, |ents|, 0)
    ensures Complete(deps, ents, vec)
    ensures forall dep, k :: dep in deps && 0 <= k < |ents| ==> !FirstHalfMatched(dep, ents, k)
  {
    forall dep, k | dep in deps && 0 <= k < |ents| ensures !FirstHalfMatched(dep, ents, k) {
      var m :| 0 <= m < |deps| && deps[m] == dep;
    }
    forall dep, k | dep in deps && 0 <= k < |ents| && Concerns(dep, ents[k])
      ensures Covered(vec, SlotOf(dep, ents[k], k))
    {
      var m :| 0 <= m < |deps| && deps[m] == dep;
    }
  }

  lemma ByRowPreorder()
    ensures Preorder(ByRow())
  {
    forall a, b ensures Mirrored(ByRow(), a, b) {
    }
    forall a, b, c ensures Chain(ByRow(), a, b, c) {
    }
  }

  /** dbdep_commitvec */
  method DbdepCommitvec(deps: seq<Dep>, ents: seq<DiffEnt>) returns (r: Option<seq<DD>>)
    requires NoDup(deps) && forall dep :: dep in deps ==> DepPattern(dep.pattern)
    requires forall e :: e in ents ==> Bracketless(e)
    ensures r.None? <==> exists dep, k :: dep in deps && 0 <= k < |ents| && FirstHalfMatched(dep, ents, k)
    ensures r.Some? ==> Sorted(ByRow(), r.value)
    ensures r.Some? ==> Sound(deps, ents, r.value) && OncePerSlot(r.value) && Complete(deps, ents, r.value)
  {
    hide Concerns, Slotted, SlotOf, Complete, OncePerSlot, HalfMatched, Earlier;
    var vec: seq<DD> := [];
    if deps == [] {
      NothingToPair(ents);
      return Some([]);
    }
    var i := 0;
    StartFilled(deps, ents);
    while i < |ents|
      invariant 0 <= i <= |ents| && Filled(deps, ents, vec, i, 0)
    {
      var d := 0;
      while d < |deps|
        invariant 0 <= d <= |deps| && Filled(deps, ents, vec, i, d)
      {
        NotYet(deps, ents, vec, i, d);
        var next := AddPair(deps, vec, deps[d], ents, i);
        if next.None? {
          assert deps[d] in deps && FirstHalfMatched(deps[d], ents, i);
          return None;
        }
        FillOne(deps, ents, vec, i, d);
        vec := next.value;
        d := d + 1;
      }
      assert Filled(deps, ents, vec, i + 1, 0);
      i := i + 1;
    }
    ByRowPreorder();
    var sorted := Qsort(vec, ByRow());
    AllFilled(deps, ents, vec);
    SortKeeps(deps, ents, vec, sorted);
    r := Some(sorted);
  }

  lemma StartFilled(deps: seq<Dep>, ents: seq<DiffEnt>)
    ensures Filled(deps, ents, [], 0, 0)
  {}

  lemma NothingToPair(ents: seq<DiffEnt>)
    ensures Sound([], ents, []) && OncePerSlot([]) && Complete([], ents, [])
  {}
}
