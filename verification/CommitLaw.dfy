/** What the plugins hear of a commit, in terms of the two databases alone: which dependency is called for which change,
    with which operation, keys and variables, and how it is taken back. */
module CommitLaw {
  import opened Basics
  import opened Cvec
  import opened KeyPattern
  import opened Sorting
  import opened DbDiff
  import opened DbDep
  import opened CommitVec
  import opened CommitTrace
  import opened DatabaseDiff
  import opened CommitLog
  import opened CommitSteps

  // ---------------------------------------------------------------- the law

  /** The change is one that the dependency asked for: its key in running, or in candidate if it is new. */
  ghost predicate AskedFor(dep: Dep, e: DiffEnt) {
    match e
    case First(x) => Accepts(dep.pattern, x.key)
    case Second(y) => Accepts(dep.pattern, y.key)
    case Both(x, _) => Accepts(dep.pattern, x.key)
  }

  /** What a plugin is told of a key: of a tree the longest part that the pattern matches, else the whole key. */
  ghost predicate ToldKey(dep: Dep, key: string, told: string) {
    if dep.tree && Starred(dep.pattern) then
      |told| <= |key| && told == key[..|told|] && LongestPrefix(Init(dep.pattern), key, |told|)
    else told == key
  }

  ghost predicate ToldSide(dep: Dep, x: Item, key: Option<string>, vec: Option<Vec>) {
    key.Some? && ToldKey(dep, x.key, key.value) && vec == Some(x.vars)
  }

  /** The call goes from running to candidate, and carries the side of the change that each of them has. */
  ghost predicate Carries(job: Job, dep: Dep, e: DiffEnt, c: Call) {
    && c.dep == dep && c.sourceDb == job.running && c.targetDb == job.candidate
    && match e
       case First(x) => ToldSide(dep, x, c.sourceKey, c.sourceVec) && c.targetKey.None? && c.targetVec.None?
       case Second(y) => c.sourceKey.None? && c.sourceVec.None? && ToldSide(dep, y, c.targetKey, c.targetVec)
       case Both(x, y) => ToldSide(dep, x, c.sourceKey, c.sourceVec) && ToldSide(dep, y, c.targetKey, c.targetVec)
  }

  /** The operations of a commit: what is lost is deleted, what is new is added, what differs is changed, which in order 2
      is a deletion and an addition. A validation always hears of a change as one. */
  predicate Due(job: Job, stage: Stage, e: DiffEnt, op: CommitOp) {
    match e
    case First(_) => op.CoDelete?
    case Second(_) => op.CoAdd?
    case Both(_, _) => if job.order == 2 && !stage.Validating? then !op.CoChange? else op.CoChange?
  }

  predicate Calls(stage: Stage, dep: Dep) {
    if stage.Validating? then !dep.cb.CommitCb? else !dep.cb.ValidateCb?
  }

  /** Event `i` is a call of the dependency for the change, which went well. */
  ghost predicate Heard(job: Job, log: seq<Event>, stage: Stage, dep: Dep, e: DiffEnt, op: CommitOp, i: nat) {
    && i < |log| && log[i].Made? && log[i].stage == stage && log[i].ok
    && log[i].call.op == op && Carries(job, dep, e, log[i].call)
  }

  ghost predicate HeardOnce(job: Job, log: seq<Event>, stage: Stage, dep: Dep, e: DiffEnt, op: CommitOp) {
    exists i :: Heard(job, log, stage, dep, e, op, i)
  }

  ghost predicate HeardInTurn(job: Job, log: seq<Event>, stage: Stage, dep: Dep, e: DiffEnt) {
    exists i, j :: i < j && Heard(job, log, stage, dep, e, CoDelete, i) && Heard(job, log, stage, dep, e, CoAdd, j)
  }

  ghost predicate HeardOf(job: Job, log: seq<Event>, stage: Stage, dep: Dep, e: DiffEnt) {
    match e
    case First(_) => HeardOnce(job, log, stage, dep, e, CoDelete)
    case Second(_) => HeardOnce(job, log, stage, dep, e, CoAdd)
    case Both(_, _) =>
      if job.order == 2 && !stage.Validating? then HeardInTurn(job, log, stage, dep, e)
      else HeardOnce(job, log, stage, dep, e, CoChange)
  }

  ghost predicate LeadTold(dep: Dep, e: DiffEnt, told: string) {
    match e
    case First(x) => ToldKey(dep, x.key, told)
    case Second(y) => ToldKey(dep, y.key, told)
    case Both(x, _) => ToldKey(dep, x.key, told)
  }

  /** A tree dependency hears of one change for all that have the same matched part. */
  ghost predicate StandsFor(dep: Dep, f: DiffEnt, e: DiffEnt) {
    if dep.tree then exists told :: LeadTold(dep, f, told) && LeadTold(dep, e, told) else f == e
  }

  /** The dependency asked for what the two databases differ in. */
  ghost predicate Concerned(dbspec: seq<SpecKey>, deps: seq<Dep>, db1: Content, db2: Content, dep: Dep, e: DiffEnt) {
    dep in deps && IsChange(db1, db2, dbspec, e) && AskedFor(dep, e)
  }

  ghost predicate Announced(job: Job, dbspec: seq<SpecKey>, deps: seq<Dep>, db1: Content, db2: Content, log: seq<Event>,
                            stage: Stage, dep: Dep, e: DiffEnt)
  {
    exists f :: Concerned(dbspec, deps, db1, db2, dep, f) && StandsFor(dep, f, e) && HeardOf(job, log, stage, dep, f)
  }

  /** Every dependency hears of everything it asked for. */
  ghost predicate AllAnnounced(job: Job, dbspec: seq<SpecKey>, deps: seq<Dep>, db1: Content, db2: Content,
                               log: seq<Event>, stage: Stage)
  {
    forall dep, e :: Concerned(dbspec, deps, db1, db2, dep, e) && Calls(stage, dep) ==>
                       Announced(job, dbspec, deps, db1, db2, log, stage, dep, e)
  }

  ghost predicate Owed(job: Job, dbspec: seq<SpecKey>, deps: seq<Dep>, db1: Content, db2: Content, stage: Stage, c: Call)
  {
    exists dep, e :: Concerned(dbspec, deps, db1, db2, dep, e) && Calls(stage, dep)
                     && Due(job, stage, e, c.op) && Carries(job, dep, e, c)
  }

  /** And of nothing else, whether the call goes well or not, in a validation or a commit. */
  ghost predicate NothingElse(job: Job, dbspec: seq<SpecKey>, deps: seq<Dep>, db1: Content, db2: Content,
                              log: seq<Event>)
  {
    forall i :: 0 <= i < |log| && log[i].Made? && !log[i].stage.Undoing? ==>
                  Owed(job, dbspec, deps, db1, db2, log[i].stage, log[i].call)
  }

  /** The call with source and target exchanged. */
  predicate Exchanged(c: Call, d: Call) {
    && d.dep == c.dep && d.sourceDb == c.targetDb && d.targetDb == c.sourceDb
    && d.sourceKey == c.targetKey && d.targetKey == c.sourceKey
    && d.sourceVec == c.targetVec && d.targetVec == c.sourceVec
  }

  predicate Opposite(op: CommitOp, other: CommitOp) {
    match op
    case CoAdd => other.CoDelete?
    case CoDelete => other.CoAdd?
    case CoChange => other.CoChange?
  }

  /** Event `u` takes event `e` back: a good call is repeated with source and target exchanged, with the opposite operation
      or once more with its own. */
  predicate TakesBack(again: bool, e: Event, u: Event) {
    && e.Made? && e.stage.Committing? && e.ok && u.Made? && u.stage.Undoing? && Exchanged(e.call, u.call)
    && if again then u.call.op == e.call.op else Opposite(e.call.op, u.call.op)
  }

  ghost predicate AllTakenBack(again: bool, good: seq<Event>, undo: seq<Event>) {
    |undo| == |good| && forall k :: 0 <= k < |undo| ==> TakesBack(again, good[|undo| - 1 - k], undo[k])
  }

  /** Orders 1 and 2 stopped at a deletion. */
  predicate InDeletions(order: nat, e: Event) {
    order != 0 && e.Made? && e.call.op.CoDelete?
  }

  /** A run whose calls from event `n` on stopped after `done` good ones, and were then taken back, last first; when a
      deletion walk stopped, by deletions again. */
  ghost predicate TakenBack(order: nat, log: seq<Event>, n: nat, done: nat) {
    && |log| == n + 2 * done + 2
    && IsFailure(log[n + done]) && log[|log| - 1] == Aborted
    && AllTakenBack(InDeletions(order, log[n + done]), log[n..n + done], log[n + done + 1..n + 2 * done + 1])
  }

  predicate IsCommit(e: Event) {
    e.Made? && e.stage.Committing?
  }

  /** Order 0 goes by rising priority. The others delete by falling priority, and then do the rest by rising priority. */
  ghost predicate InOrder(order: nat, log: seq<Event>) {
    forall i, j :: 0 <= i < j < |log| && IsCommit(log[i]) && IsCommit(log[j]) ==> MayPrecede(order, log[i].call, log[j].call)
  }

  predicate MayPrecede(order: nat, c: Call, d: Call) {
    if order == 0 then c.dep.row <= d.dep.row
    else if c.op.CoDelete? then d.op.CoDelete? ==> c.dep.row >= d.dep.row
    else !d.op.CoDelete? && c.dep.row <= d.dep.row
  }

  /** No change is reported by two lines of the specification. */
  ghost predicate LinesApart(dbspec: seq<SpecKey>, db1: Content, db2: Content) {
    forall i, j, e :: 0 <= i < j < |dbspec| ==> !(Reported(db1, db2, dbspec[i], e) && Reported(db1, db2, dbspec[j], e))
  }

  /** No commit call is made twice. */
  ghost predicate NoneTwice(log: seq<Event>) {
    forall i, j :: 0 <= i < j < |log| && IsCommit(log[i]) && IsCommit(log[j]) ==> log[i].call != log[j].call
  }

  /** The stages of a run. */
  function Rank(e: Event): nat {
    match e
    case Began(_) => 0
    case Generic(_) => 1
    case Made(Validating, _, _) => 2
    case Completed(_) => 3
    case Made(Committing, _, _) => 4
    case Copied(_, _, _) => 5
    case Made(Undoing, _, _) => 6
    case Ended => 7
    case Aborted => 7
  }

  /** A step that stops the run. */
  predicate Stops(e: Event) {
    match e
    case Began(ok) => !ok
    case Generic(ok) => !ok
    case Made(stage, _, ok) => !ok && !stage.Undoing?
    case Completed(ok) => !ok
    case Copied(_, _, ok) => !ok
    case Ended => true
    case Aborted => true
  }

  /** Which event may come before which: a later stage, or one more call or copy of the same; and after a failure only
      what undoes and aborts. */
  predicate MayCome(e: Event, f: Event) {
    && (Rank(e) < Rank(f) || (Rank(e) == Rank(f) && (e.Made? || e.Copied?)))
    && (Stops(e) ==> f == Aborted || (f.Made? && f.stage.Undoing?))
  }

  ghost predicate Staged(log: seq<Event>) {
    forall i, j :: 0 <= i < j < |log| ==> MayCome(log[i], log[j])
  }

  /** Everything before the first call of a commit has been done, and went well. */
  ghost predicate Opened(log: seq<Event>) {
    Began(true) in log && Generic(true) in log && Completed(true) in log
  }

  function LeadKey(c: Call): Option<string> {
    if c.sourceKey.Some? then c.sourceKey else c.targetKey
  }

  /** A tree dependency does not hear twice of the same part with the same operation. */
  predicate Apart(c: Call, d: Call) {
    c.dep == d.dep && c.dep.tree && c.op == d.op ==> LeadKey(c) != LeadKey(d)
  }

  ghost predicate OncePerPart(log: seq<Event>) {
    forall i, j :: 0 <= i < j < |log| && IsCommit(log[i]) && IsCommit(log[j]) ==> Apart(log[i].call, log[j].call)
  }

  ghost predicate AllApart(calls: seq<Call>) {
    forall i, j :: 0 <= i < j < |calls| ==> Apart(calls[i], calls[j])
  }

  // ---------------------------------------------------------------- entries of the commit vector

  /** The entry was planned for this commit. */
  ghost predicate PlannedFor(dbspec: seq<SpecKey>, deps: seq<Dep>, db1: Content, db2: Content, ents: seq<DiffEnt>,
                             vec: seq<DD>)
  {
    && (forall e :: e in ents <==> IsChange(db1, db2, dbspec, e))
    && (forall e :: e in ents ==> Bracketless(e)) && (forall dep :: dep in deps ==> DepPattern(dep.pattern))
    && Sound(deps, ents, vec) && Complete(deps, ents, vec)
  }

  lemma PartIsTold(dep: Dep, key: string)
    requires BracketFree(key) && DepPattern(dep.pattern) && (dep.tree ==> Accepts(dep.pattern, key))
    ensures ToldKey(dep, key, Part(dep, key))
  {
    if dep.tree && Starred(dep.pattern) {
      InitPattern(dep.pattern);
      ScanFindsLongest(Init(dep.pattern), key);
    }
  }

  /** An entry of the vector is a change that its dependency asked for, and its calls carry that change. */
  lemma EntryCarries(job: Job, dbspec: seq<SpecKey>, deps: seq<Dep>, db1: Content, db2: Content, ents: seq<DiffEnt>,
                     vec: seq<DD>, dd: DD, op: CommitOp)
    requires PlannedFor(dbspec, deps, db1, db2, ents, vec) && dd in vec
    ensures Concerned(dbspec, deps, db1, db2, dd.dep, dd.ent) && dd.ent in ents
    ensures CallFor(job, op, dd).op == op && Carries(job, dd.dep, dd.ent, CallFor(job, op, dd))
  {
    hide Accepts, Part, ToldKey, DepPattern;
    assert SoundEntry(deps, ents, dd);
    assert dd.ent == ents[dd.at] && dd.ent in ents && Bracketless(dd.ent);
    match dd.ent
    case First(x) => PartIsTold(dd.dep, x.key);
    case Second(y) => PartIsTold(dd.dep, y.key);
    case Both(x, y) =>
      PartIsTold(dd.dep, x.key);
      PartIsTold(dd.dep, y.key);
  }

  /** Everything a dependency asked for has an entry that stands for it. */
  lemma EntryStands(dbspec: seq<SpecKey>, deps: seq<Dep>, db1: Content, db2: Content, ents: seq<DiffEnt>, vec: seq<DD>,
                    dep: Dep, e: DiffEnt) returns (dd: DD)
    requires PlannedFor(dbspec, deps, db1, db2, ents, vec) && Concerned(dbspec, deps, db1, db2, dep, e)
    ensures dd in vec && dd.dep == dep && StandsFor(dep, dd.ent, e)
  {
    hide Accepts, Part, ToldKey, DepPattern, IsChange;
    assert e in ents;
    var k :| 0 <= k < |ents| && ents[k] == e;
    assert Concerns(dep, ents[k]);
    assert Covered(vec, SlotOf(dep, e, k));
    dd :| dd in vec && Slotted(dd) == SlotOf(dep, e, k);
    assert SoundEntry(deps, ents, dd);
    assert Bracketless(e) && Bracketless(dd.ent) by {
      assert dd.ent == ents[dd.at] && dd.ent in ents;
    }
    if dep.tree {
      PartIsTold(dep, KeyOf(e));
      PartIsTold(dep, KeyOf(dd.ent));
      assert LeadTold(dep, e, Part(dep, KeyOf(e))) && LeadTold(dep, dd.ent, Part(dep, KeyOf(e)));
    }
  }

  // ---------------------------------------------------------------- the calls of a walk

  /** A call of a walk is owed. */
  lemma PickOwed(job: Job, dbspec: seq<SpecKey>, deps: seq<Dep>, db1: Content, db2: Content, ents: seq<DiffEnt>,
                 vec: seq<DD>, pass: Pass, c: Call)
    requires PlannedFor(dbspec, deps, db1, db2, ents, vec) && c in Pick(job, pass, vec)
    requires if pass.Whole? then job.order == 0 else pass.Check? || job.order != 0
    ensures Owed(job, dbspec, deps, db1, db2, if pass.Check? then Validating else Committing, c)
  {
    hide PlannedFor, Carries, IsChange, Accepts;
    PickMembers(job, pass, vec, c);
    var dd :| dd in vec && CallOf(job, pass, dd) == Some(c);
    EntryCarries(job, dbspec, deps, db1, db2, ents, vec, dd, c.op);
    assert c == CallFor(job, c.op, dd);
    var stage := if pass.Check? then Validating else Committing;
    assert Calls(stage, dd.dep) && Due(job, stage, dd.ent, c.op);
  }

  lemma ForwardOwed(job: Job, dbspec: seq<SpecKey>, deps: seq<Dep>, db1: Content, db2: Content, ents: seq<DiffEnt>,
                    vec: seq<DD>, c: Call)
    requires PlannedFor(dbspec, deps, db1, db2, ents, vec) && c in Forward(job, vec)
    ensures Owed(job, dbspec, deps, db1, db2, Committing, c)
  {
    hide PlannedFor, Pick, Owed;
    if job.order == 0 {
      PickOwed(job, dbspec, deps, db1, db2, ents, vec, Whole, c);
    } else if c in Removals(job, vec) {
      assert c in Pick(job, Remove, vec);
      PickOwed(job, dbspec, deps, db1, db2, ents, vec, Remove, c);
    } else {
      PickOwed(job, dbspec, deps, db1, db2, ents, vec, Insert, c);
    }
  }

  /** The calls that carry a change are in the commit, in order 2 the deletion before the addition. */
  lemma EntryHeard(job: Job, dbspec: seq<SpecKey>, deps: seq<Dep>, db1: Content, db2: Content, ents: seq<DiffEnt>,
                   vec: seq<DD>, log: seq<Event>, n: nat, dd: DD)
    requires PlannedFor(dbspec, deps, db1, db2, ents, vec) && dd in vec && Calls(Committing, dd.dep)
    requires n + |Forward(job, vec)| <= |log|
    requires forall k :: 0 <= k < |Forward(job, vec)| ==> log[n + k] == Made(Committing, Forward(job, vec)[k], true)
    ensures HeardOf(job, log, Committing, dd.dep, dd.ent)
  {
    hide PlannedFor, Pick, CallOf, Carries, CallFor, Forward, Removals;
    var f := Forward(job, vec);
    if job.order == 2 && dd.ent.Both? {
      var i, j := InTurn(job, vec, dd);
      EntryCarries(job, dbspec, deps, db1, db2, ents, vec, dd, CoDelete);
      EntryCarries(job, dbspec, deps, db1, db2, ents, vec, dd, CoAdd);
      assert Heard(job, log, Committing, dd.dep, dd.ent, CoDelete, n + i);
      assert Heard(job, log, Committing, dd.dep, dd.ent, CoAdd, n + j);
    } else {
      EveryEntryCommits(job, vec, dd);
      var op := OpOf(dd.ent);
      EntryCarries(job, dbspec, deps, db1, db2, ents, vec, dd, op);
      var k :| 0 <= k < |f| && f[k] == CallFor(job, op, dd);
      assert Heard(job, log, Committing, dd.dep, dd.ent, op, n + k);
    }
  }

  lemma InTurn(job: Job, vec: seq<DD>, dd: DD) returns (i: nat, j: nat)
    requires job.order == 2 && dd.ent.Both? && dd in vec && Calls(Committing, dd.dep)
    ensures i < j < |Forward(job, vec)|
    ensures Forward(job, vec)[i] == CallFor(job, CoDelete, dd) && Forward(job, vec)[j] == CallFor(job, CoAdd, dd)
  {
    var p, q := Pick(job, Remove, vec), Pick(job, Insert, vec);
    PickMembers(job, Remove, vec, CallFor(job, CoDelete, dd));
    PickMembers(job, Insert, vec, CallFor(job, CoAdd, dd));
    var k :| 0 <= k < |p| && p[k] == CallFor(job, CoDelete, dd);
    var l :| 0 <= l < |q| && q[l] == CallFor(job, CoAdd, dd);
    i, j := |p| - 1 - k, |p| + l;
  }

  // ---------------------------------------------------------------- no call twice

  lemma {:induction false} FlattenNoDup(dbspec: seq<SpecKey>, db1: Content, db2: Content, parts: seq<seq<DiffEnt>>)
    requires |parts| <= |dbspec| && LinesApart(dbspec, db1, db2)
    requires forall i :: 0 <= i < |parts| ==> PartOf(db1, db2, dbspec[i], parts[i])
    ensures NoDup(Flatten(parts))
  {
    hide Reported;
    if parts != [] {
      var n := |parts| - 1;
      FlattenNoDup(dbspec, db1, db2, parts[..n]);
      forall e | e in Flatten(parts[..n]) ensures e !in parts[n] {
        FlattenMembers(parts[..n], e);
        var i :| 0 <= i < n && e in parts[..n][i];
        assert Reported(db1, db2, dbspec[i], e);
      }
      NoDupConcat(Flatten(parts[..n]), parts[n]);
    }
  }

  /** The call tells which entry it is made for. */
  lemma CallTellsSlot(job: Job, op: CommitOp, deps: seq<Dep>, ents: seq<DiffEnt>, a: DD, b: DD)
    requires SoundEntry(deps, ents, a) && SoundEntry(deps, ents, b) && NoDup(ents)
    requires CallFor(job, op, a) == CallFor(job, op, b)
    ensures Slotted(a) == Slotted(b)
  {
    hide Concerns, HalfMatched;
    assert a.dep == b.dep && a.mkey1 == b.mkey1 && a.mkey2 == b.mkey2;
    assert a.ent == ents[a.at] && b.ent == ents[b.at];
    if !a.dep.tree {
      assert a.ent == b.ent;
    }
  }

  lemma {:induction false} PickOnce(job: Job, pass: Pass, deps: seq<Dep>, ents: seq<DiffEnt>, vec: seq<DD>)
    requires Sound(deps, ents, vec) && OncePerSlot(vec) && NoDup(ents)
    ensures NoDup(Pick(job, pass, vec))
  {
    hide SoundEntry, Slotted, CallFor;
    if vec != [] {
      var n := |vec| - 1;
      PickOnce(job, pass, deps, ents, vec[..n]);
      var last := CallOf(job, pass, vec[n]);
      forall c | c in Pick(job, pass, vec[..n]) ensures last != Some(c) {
        PickMembers(job, pass, vec[..n], c);
        var dd :| dd in vec[..n] && CallOf(job, pass, dd) == Some(c);
        var k :| 0 <= k < n && vec[k] == dd;
        if last == Some(c) {
          CallOp(job, pass, vec[k], c);
          CallOp(job, pass, vec[n], c);
          CallTellsSlot(job, c.op, deps, ents, vec[k], vec[n]);
        }
      }
      NoDupConcat(Pick(job, pass, vec[..n]), ToSeq(last));
    }
  }

  /** Two entries of one tree dependency have different parts. */
  lemma PartsApart(job: Job, deps: seq<Dep>, ents: seq<DiffEnt>, a: DD, b: DD, op: CommitOp)
    requires SoundEntry(deps, ents, a) && SoundEntry(deps, ents, b) && Slotted(a) != Slotted(b)
    ensures Apart(CallFor(job, op, a), CallFor(job, op, b))
  {
    hide Concerns, HalfMatched, Part;
  }

  lemma {:induction false} PickApart(job: Job, pass: Pass, deps: seq<Dep>, ents: seq<DiffEnt>, vec: seq<DD>)
    requires Sound(deps, ents, vec) && OncePerSlot(vec)
    ensures AllApart(Pick(job, pass, vec))
  {
    hide SoundEntry, Slotted, CallFor, Apart;
    if vec != [] {
      var n := |vec| - 1;
      PickApart(job, pass, deps, ents, vec[..n]);
      var before, last := Pick(job, pass, vec[..n]), CallOf(job, pass, vec[n]);
      if last.Some? {
        forall i | 0 <= i < |before| ensures Apart(before[i], last.value) {
          PickMembers(job, pass, vec[..n], before[i]);
          var dd :| dd in vec[..n] && CallOf(job, pass, dd) == Some(before[i]);
          var k :| 0 <= k < n && vec[k] == dd;
          CallOp(job, pass, vec[k], before[i]);
          CallOp(job, pass, vec[n], last.value);
          if before[i].op == last.value.op {
            PartsApart(job, deps, ents, vec[k], vec[n], last.value.op);
          } else {
            OpsApart(before[i], last.value);
          }
        }
      }
    }
  }

  lemma OpsApart(c: Call, d: Call)
    requires c.op != d.op
    ensures Apart(c, d)
  {}

  lemma {:induction false} RevApart(calls: seq<Call>)
    requires AllApart(calls)
    ensures AllApart(Rev(calls))
  {
    forall i, j | 0 <= i < j < |Rev(calls)| ensures Apart(Rev(calls)[i], Rev(calls)[j]) {
      assert Apart(calls[|calls| - 1 - j], calls[|calls| - 1 - i]);
    }
  }

  lemma ForwardApart(job: Job, deps: seq<Dep>, ents: seq<DiffEnt>, vec: seq<DD>)
    requires Sound(deps, ents, vec) && OncePerSlot(vec)
    ensures AllApart(Forward(job, vec))
  {
    PickApart(job, Whole, deps, ents, vec);
    PickApart(job, Remove, deps, ents, vec);
    PickApart(job, Insert, deps, ents, vec);
    RevApart(Pick(job, Remove, vec));
    hide Pick, Sound, OncePerSlot, Apart;
    if job.order != 0 {
      var f, n := Forward(job, vec), |Removals(job, vec)|;
      forall i, j | 0 <= i < j < |f| ensures Apart(f[i], f[j]) {
        WalkKinds(job, vec, i);
        WalkKinds(job, vec, j);
        if i < n <= j {
          OpsApart(f[i], f[j]);
        } else if n <= i {
          assert f[i] == Pick(job, Insert, vec)[i - n] && f[j] == Pick(job, Insert, vec)[j - n];
        }
      }
    }
  }

  lemma CallOp(job: Job, pass: Pass, dd: DD, c: Call)
    requires CallOf(job, pass, dd) == Some(c)
    ensures c == CallFor(job, c.op, dd)
  {}

  lemma ForwardOnce(job: Job, deps: seq<Dep>, ents: seq<DiffEnt>, vec: seq<DD>)
    requires Sound(deps, ents, vec) && OncePerSlot(vec) && NoDup(ents)
    ensures NoDup(Forward(job, vec))
  {
    PickOnce(job, Whole, deps, ents, vec);
    PickOnce(job, Remove, deps, ents, vec);
    PickOnce(job, Insert, deps, ents, vec);
    hide Pick, Sound, OncePerSlot;
    if job.order != 0 {
      var f := Forward(job, vec);
      forall i, j | 0 <= i < j < |f| ensures f[i] != f[j] {
        WalkKinds(job, vec, i);
        WalkKinds(job, vec, j);
      }
    }
  }

  // ---------------------------------------------------------------- whole runs

  /** A commit call of a run is the call of the commit at its place. */
  lemma CommitAt(job: Job, vec: seq<DD>, end: Ending, i: nat)
    requires Possible(job, vec, end) && i < |EventsOf(job, vec, end)| && IsCommit(EventsOf(job, vec, end)[i])
    ensures var k := i - |Opening(job, vec)|;
            0 <= k < |Forward(job, vec)| && EventsOf(job, vec, end)[i].call == Forward(job, vec)[k]
  {
    hide Opening, Forward, Rollback;
    var log, o := EventsOf(job, vec, end), Opening(job, vec);
    if end.Refused? {
      OpeningOnlyValidates(job, vec, if i < end.at then i else end.at);
    } else if i < |o| {
      OpeningOnlyValidates(job, vec, i);
    }
  }

  lemma CallsInOrder(job: Job, vec: seq<DD>, i: nat, j: nat)
    requires Sorted(ByRow(), vec) && i < j < |Forward(job, vec)|
    ensures MayPrecede(job.order, Forward(job, vec)[i], Forward(job, vec)[j])
  {
    if job.order == 0 {
      PickSorted(job, Whole, vec);
    } else {
      DeletesFirst(job, vec, i, j);
    }
  }

  lemma RunInOrder(job: Job, vec: seq<DD>, end: Ending)
    requires Sorted(ByRow(), vec) && AllApart(Forward(job, vec)) && Possible(job, vec, end)
    ensures InOrder(job.order, EventsOf(job, vec, end)) && OncePerPart(EventsOf(job, vec, end))
    ensures NoDup(Forward(job, vec)) ==> NoneTwice(EventsOf(job, vec, end))
  {
    hide Opening, Forward, Rollback, EventsOf, MayPrecede, Possible, Sorted, Apart;
    var log, n := EventsOf(job, vec, end), |Opening(job, vec)|;
    forall i, j | 0 <= i < j < |log| && IsCommit(log[i]) && IsCommit(log[j])
      ensures MayPrecede(job.order, log[i].call, log[j].call) && Apart(log[i].call, log[j].call)
      ensures NoDup(Forward(job, vec)) ==> log[i].call != log[j].call
    {
      CommitAt(job, vec, end, i);
      CommitAt(job, vec, end, j);
      CallsInOrder(job, vec, i - n, j - n);
    }
  }

  lemma RunIsPlanned(job: Job, dbspec: seq<SpecKey>, deps: seq<Dep>, files: map<string, Content>, ents: seq<DiffEnt>,
                     vec: seq<DD>)
    requires Planned(job, dbspec, deps, files, ents, vec) && forall dep :: dep in deps ==> DepPattern(dep.pattern)
    requires forall ds :: ds in dbspec ==> PlainKeys(files[job.running], ds) && PlainKeys(files[job.candidate], ds)
    ensures PlannedFor(dbspec, deps, files[job.running], files[job.candidate], ents, vec)
  {
    hide PlainKeys, PartOf, Flatten, Sound, Complete, Bracketless, DepPattern, IsChange, OncePerSlot;
    var db1, db2 := files[job.running], files[job.candidate];
    var parts :| |parts| == |dbspec| && ents == Flatten(parts)
                 && forall i :: 0 <= i < |parts| ==> PartOf(db1, db2, dbspec[i], parts[i]);
    forall e ensures e in ents <==> IsChange(db1, db2, dbspec, e) {
      PartsReport(db1, db2, dbspec, parts, e);
    }
    forall e | e in ents ensures Bracketless(e) {
      DiffBracketless(db1, db2, dbspec, parts, e);
    }
  }

  /** The opening validates everything that was asked for. */
  lemma OpeningAnnounces(job: Job, dbspec: seq<SpecKey>, deps: seq<Dep>, db1: Content, db2: Content, ents: seq<DiffEnt>,
                         vec: seq<DD>, log: seq<Event>)
    requires PlannedFor(dbspec, deps, db1, db2, ents, vec) && Opening(job, vec) <= log
    ensures AllAnnounced(job, dbspec, deps, db1, db2, log, Validating)
  {
    hide PlannedFor, Carries, Opening, Pick, CallFor, Concerned, StandsFor;
    forall dep, e | Concerned(dbspec, deps, db1, db2, dep, e) && Calls(Validating, dep)
      ensures Announced(job, dbspec, deps, db1, db2, log, Validating, dep, e)
    {
      var dd := EntryStands(dbspec, deps, db1, db2, ents, vec, dep, e);
      var op := OpOf(dd.ent);
      EntryCarries(job, dbspec, deps, db1, db2, ents, vec, dd, op);
      AllValidated(job, vec, dd);
      var k :| 0 <= k < |Opening(job, vec)| && Opening(job, vec)[k] == Made(Validating, CallFor(job, op, dd), true);
      assert log[k] == Opening(job, vec)[k];
      assert Heard(job, log, Validating, dep, dd.ent, op, k);
    }
  }

  /** A commit whose callbacks went well has told everything that was asked for. */
  lemma GoodRunAnnounces(job: Job, dbspec: seq<SpecKey>, deps: seq<Dep>, db1: Content, db2: Content,
                         ents: seq<DiffEnt>, vec: seq<DD>, end: Ending)
    requires PlannedFor(dbspec, deps, db1, db2, ents, vec) && (end.Done? || end.CopyBackFailed?)
    ensures AllAnnounced(job, dbspec, deps, db1, db2, EventsOf(job, vec, end), Committing)
  {
    hide PlannedFor, Opening, Forward, Concerned, StandsFor, HeardOf;
    var log, n := EventsOf(job, vec, end), |Opening(job, vec)|;
    forall dep, e | Concerned(dbspec, deps, db1, db2, dep, e) && Calls(Committing, dep)
      ensures Announced(job, dbspec, deps, db1, db2, log, Committing, dep, e)
    {
      var dd := EntryStands(dbspec, deps, db1, db2, ents, vec, dep, e);
      EntryCarries(job, dbspec, deps, db1, db2, ents, vec, dd, CoAdd);
      EntryHeard(job, dbspec, deps, db1, db2, ents, vec, log, n, dd);
    }
  }

  lemma OpeningOwed(job: Job, dbspec: seq<SpecKey>, deps: seq<Dep>, db1: Content, db2: Content, ents: seq<DiffEnt>,
                    vec: seq<DD>, i: nat)
    requires PlannedFor(dbspec, deps, db1, db2, ents, vec) && i < |Opening(job, vec)| && Opening(job, vec)[i].Made?
    ensures var e := Opening(job, vec)[i];
            e.stage.Validating? && Owed(job, dbspec, deps, db1, db2, Validating, e.call)
  {
    hide PlannedFor, Pick, Owed;
    var calls := Pick(job, Check, vec);
    assert Opening(job, vec)[i].call == calls[i - 2];
    PickOwed(job, dbspec, deps, db1, db2, ents, vec, Check, calls[i - 2]);
  }

  /** No run makes a call that is not owed. */
  lemma RunOwed(job: Job, dbspec: seq<SpecKey>, deps: seq<Dep>, db1: Content, db2: Content, ents: seq<DiffEnt>,
                vec: seq<DD>, end: Ending)
    requires PlannedFor(dbspec, deps, db1, db2, ents, vec) && Possible(job, vec, end)
    ensures NothingElse(job, dbspec, deps, db1, db2, EventsOf(job, vec, end))
  {
    hide PlannedFor, Owed, Opening, Forward, Rollback;
    var log, o, f := EventsOf(job, vec, end), Opening(job, vec), Forward(job, vec);
    forall i | 0 <= i < |log| && log[i].Made? && !log[i].stage.Undoing?
      ensures Owed(job, dbspec, deps, db1, db2, log[i].stage, log[i].call)
    {
      if end.Refused? {
        var k := if i < end.at then i else end.at;
        OpeningOwed(job, dbspec, deps, db1, db2, ents, vec, k);
      } else if i < |o| {
        assert log[i] == o[i];
        OpeningOwed(job, dbspec, deps, db1, db2, ents, vec, i);
      } else {
        assert log[i].call in f && log[i].stage.Committing?;
        ForwardOwed(job, dbspec, deps, db1, db2, ents, vec, log[i].call);
      }
    }
  }

  /** The events of a run that is rolled back. */
  lemma RolledBackEvents(job: Job, vec: seq<DD>, end: Ending)
    requires end.RolledBack? && Possible(job, vec, end)
    ensures var log, n, done, f := EventsOf(job, vec, end), |Opening(job, vec)|, end.done, Forward(job, vec);
            && |log| == n + 2 * done + 2 && log[|log| - 1] == Aborted
            && log[n + done] == (if done < |f| then Made(Committing, f[done], false)
                                 else Copied(job.candidate, job.running, false))
            && log[n..n + done] == Oks(Committing, f[..done])
            && log[n + done + 1..n + 2 * done + 1] == end.undo
  {
    hide Opening, Forward, Rollback;
    RollbackSize(job, vec, end.done);
    var o, t := Opening(job, vec), Tried(job, vec, end.done);
    assert EventsOf(job, vec, end) == o + (t + (end.undo + [Aborted]));
  }

  lemma RollbackSize(job: Job, vec: seq<DD>, k: nat)
    requires k <= |Forward(job, vec)|
    ensures |Rollback(job, vec, k)| == k
  {}

  /** What the rollback issues for one of the good calls. */
  lemma RollbackCall(job: Job, vec: seq<DD>, k: nat, m: nat)
    requires k <= |Forward(job, vec)| && m < k
    ensures |Rollback(job, vec, k)| == k
    ensures var c, d := Forward(job, vec)[k - 1 - m], Rollback(job, vec, k)[m];
            && Exchanged(c, d)
            && if job.order == 0 || |Removals(job, vec)| <= k then Opposite(c.op, d.op) else d.op == c.op
  {
    hide Forward, Removals;
  }

  /** A run stopped at a deletion when it had not made them all. */
  lemma StoppedAtDeletion(job: Job, vec: seq<DD>, done: nat)
    requires done <= |Forward(job, vec)|
    ensures var f := Forward(job, vec);
            var stopped := if done < |f| then Made(Committing, f[done], false)
                           else Copied(job.candidate, job.running, false);
            IsFailure(stopped) && (InDeletions(job.order, stopped) <==> job.order != 0 && done < |Removals(job, vec)|)
  {
    RemovalsFirst(job, vec);
    if job.order != 0 && done < |Forward(job, vec)| {
      WalkKinds(job, vec, done);
    }
    hide Forward, Removals;
  }

  lemma GoodTakenBack(job: Job, vec: seq<DD>, end: Ending)
    requires end.RolledBack? && Possible(job, vec, end)
    ensures AllTakenBack(job.order != 0 && end.done < |Removals(job, vec)|,
                         Oks(Committing, Forward(job, vec)[..end.done]), end.undo)
  {
    hide Forward, Removals, Rollback;
    var done, f := end.done, Forward(job, vec);
    RollbackSize(job, vec, done);
    forall k | 0 <= k < done
      ensures TakesBack(job.order != 0 && done < |Removals(job, vec)|, Oks(Committing, f[..done])[done - 1 - k], end.undo[k])
    {
      RollbackCall(job, vec, done, k);
    }
  }

  /** How a run that is rolled back takes its calls back. */
  lemma RunTakenBack(job: Job, vec: seq<DD>, end: Ending)
    requires end.RolledBack? && Possible(job, vec, end)
    ensures TakenBack(job.order, EventsOf(job, vec, end), |Opening(job, vec)|, end.done)
  {
    RolledBackEvents(job, vec, end);
    StoppedAtDeletion(job, vec, end.done);
    GoodTakenBack(job, vec, end);
    hide Opening, Forward, Rollback, Removals, EventsOf, AllTakenBack, MadeAll, IsFailure, InDeletions, Oks, Possible;
  }

  lemma RemovalsFirst(job: Job, vec: seq<DD>)
    ensures job.order != 0 ==> |Removals(job, vec)| <= |Forward(job, vec)|
  {}

  /** A part of the log that stays within some stages, and stops at most at its end. */
  ghost predicate Within(log: seq<Event>, lo: nat, hi: nat) {
    && Staged(log) && (forall i :: 0 <= i < |log| ==> lo <= Rank(log[i]) <= hi)
  }

  ghost predicate Goes(log: seq<Event>) {
    forall i :: 0 <= i < |log| ==> !Stops(log[i])
  }

  lemma PartConcat(a: seq<Event>, b: seq<Event>, lo: nat, m: nat, hi: nat)
    requires Within(a, lo, m) && Within(b, m + 1, hi) && lo <= m <= hi && Goes(a)
    ensures Within(a + b, lo, hi) && (Goes(b) ==> Goes(a + b))
  {}

  /** After what stops a run there is only the undoing, and the abort hook. */
  lemma TailConcat(a: seq<Event>, b: seq<Event>, lo: nat)
    requires Within(a, lo, 5) && Within(b, 6, 7) && lo <= 5
    requires forall i :: 0 <= i < |b| ==> b[i] == Aborted || (b[i].Made? && b[i].stage.Undoing?)
    ensures Within(a + b, lo, 7)
  {}

  lemma OksPart(stage: Stage, calls: seq<Call>)
    requires !stage.Undoing?
    ensures var r := if stage.Validating? then 2 else 4; Within(Oks(stage, calls), r, r) && Goes(Oks(stage, calls))
  {}

  lemma OpeningPart(job: Job, vec: seq<DD>)
    ensures Within(Opening(job, vec), 0, 3) && Goes(Opening(job, vec)) && Opened(Opening(job, vec))
  {
    hide Pick;
    var calls, o := Pick(job, Check, vec), Opening(job, vec);
    OksPart(Validating, calls);
    var start := [Began(true), Generic(true)];
    PartConcat(start, Oks(Validating, calls), 0, 1, 2);
    PartConcat(start + Oks(Validating, calls), [Completed(true)], 0, 2, 3);
    assert o[0] == Began(true) && o[1] == Generic(true) && o[|o| - 1] == Completed(true);
  }

  /** A beginning of a part, with its next event turned into a failure. */
  lemma FailedPart(log: seq<Event>, at: nat)
    requires Within(log, 0, 3) && Goes(log) && at < |log|
    ensures Within(log[..at] + [Failed(log[at])], 0, 3)
  {
    forall i | 0 <= i < at ensures MayCome(log[i], Failed(log[at])) {
      assert MayCome(log[i], log[at]);
    }
  }

  lemma UndonePart(calls: seq<Call>, undo: seq<Event>)
    requires MadeAll(Undoing, calls, undo)
    ensures Within(undo + [Aborted], 6, 7)
    ensures forall i :: 0 <= i < |undo| + 1 ==>
              var e := (undo + [Aborted])[i]; e == Aborted || (e.Made? && e.stage.Undoing?)
  {}

  lemma RunIsStaged(job: Job, vec: seq<DD>, end: Ending)
    requires Possible(job, vec, end) && !end.Unplanned?
    ensures var log := EventsOf(job, vec, end);
            Staged(log) && (!end.Refused? ==> Opened(log)) && (end.Done? ==> Ended in log)
  {
    hide Opening, Forward, Rollback, Within, Opened, MadeAll, Oks, Goes;
    var o, f := Opening(job, vec), Forward(job, vec);
    OpeningPart(job, vec);
    if end.Refused? {
      var stopped := o[..end.at] + [Failed(o[end.at])];
      FailedPart(o, end.at);
      AbortPart();
      TailConcat(stopped, [Aborted], 0);
      PartStaged(stopped + [Aborted], 0, 7);
      assert EventsOf(job, vec, end) == stopped + [Aborted];
    } else if end.RolledBack? {
      OksPart(Committing, f[..end.done]);
      StopPart(Oks(Committing, f[..end.done]),
               if end.done < |f| then Made(Committing, f[end.done], false)
               else Copied(job.candidate, job.running, false));
      var t, rest := Tried(job, vec, end.done), end.undo + [Aborted];
      PartConcat(o, t, 0, 3, 5);
      UndonePart(Rollback(job, vec, end.done), end.undo);
      TailConcat(o + t, rest, 0);
      PartStaged(o + t + rest, 0, 7);
      assert EventsOf(job, vec, end) == o + t + rest == o + (t + rest);
      OpenedStays(o, t + rest);
    } else {
      OksPart(Committing, f);
      var calls, good := Oks(Committing, f), end.Done?;
      var copies := [Copied(job.candidate, job.running, true), Copied(job.running, job.candidate, good),
                     if good then Ended else Aborted];
      CopiesPart(job, good);
      PartConcat(o, calls, 0, 3, 4);
      PartConcat(o + calls, copies, 0, 4, 7);
      PartStaged(o + calls + copies, 0, 7);
      assert EventsOf(job, vec, end) == o + calls + copies == o + (calls + copies);
      OpenedStays(o, calls + copies);
      assert end.Done? ==> copies[2] == Ended && Ended in copies;
    }
  }

  lemma PartStaged(log: seq<Event>, lo: nat, hi: nat)
    requires Within(log, lo, hi)
    ensures Staged(log)
  {}

  lemma AbortPart()
    ensures Within([Aborted], 6, 7)
  {}

  lemma StopPart(calls: seq<Event>, stop: Event)
    requires Within(calls, 4, 4) && Goes(calls)
    requires (stop.Made? && stop.stage.Committing?) || stop.Copied?
    ensures Within(calls + [stop], 4, 5)
  {}

  lemma CopiesPart(job: Job, good: bool)
    ensures Within([Copied(job.candidate, job.running, true), Copied(job.running, job.candidate, good),
                  if good then Ended else Aborted], 5, 7)
  {}

  lemma OpenedStays(a: seq<Event>, b: seq<Event>)
    requires Opened(a)
    ensures Opened(a + b)
  {}

  /** The law of a run: it goes through its stages in order and stops at a failure; it makes no call but those for what
      the databases differ in, in the order that is configured and once each; unless it stops before, everything that was
      asked for is validated; a run that goes well has told all of it, and one that is rolled back takes back what it
      told. */
  ghost predicate Lawful(job: Job, dbspec: seq<SpecKey>, deps: seq<Dep>, files: map<string, Content>, end: Ending,
                         run: seq<Event>)
  {
    && job.running in files && job.candidate in files
    && var db1, db2 := files[job.running], files[job.candidate];
       && Staged(run) && (!end.Refused? ==> Opened(run)) && (end.Done? ==> Ended in run)
       && NothingElse(job, dbspec, deps, db1, db2, run)
       && (!end.Refused? ==> AllAnnounced(job, dbspec, deps, db1, db2, run, Validating))
       && (end.Done? || end.CopyBackFailed? ==> AllAnnounced(job, dbspec, deps, db1, db2, run, Committing))
       && InOrder(job.order, run) && OncePerPart(run) && (LinesApart(dbspec, db1, db2) ==> NoneTwice(run))
       && (end.RolledBack? ==> exists n :: 0 <= n < |run| && TakenBack(job.order, run, n, end.done))
  }

  lemma PlannedOnce(job: Job, dbspec: seq<SpecKey>, deps: seq<Dep>, files: map<string, Content>, ents: seq<DiffEnt>,
                    vec: seq<DD>)
    requires Planned(job, dbspec, deps, files, ents, vec)
    requires LinesApart(dbspec, files[job.running], files[job.candidate])
    ensures NoDup(Forward(job, vec))
  {
    hide PartOf, Flatten, Sound, Complete, OncePerSlot, LinesApart, Forward;
    var db1, db2 := files[job.running], files[job.candidate];
    var parts :| |parts| == |dbspec| && ents == Flatten(parts)
                 && forall i :: 0 <= i < |parts| ==> PartOf(db1, db2, dbspec[i], parts[i]);
    FlattenNoDup(dbspec, db1, db2, parts);
    ForwardOnce(job, deps, ents, vec);
  }

  lemma RunIsLawful(job: Job, dbspec: seq<SpecKey>, deps: seq<Dep>, files: map<string, Content>, ents: seq<DiffEnt>,
                    vec: seq<DD>, end: Ending)
    requires Planned(job, dbspec, deps, files, ents, vec) && forall dep :: dep in deps ==> DepPattern(dep.pattern)
    requires forall ds :: ds in dbspec ==> PlainKeys(files[job.running], ds) && PlainKeys(files[job.candidate], ds)
    requires Possible(job, vec, end) && !end.Unplanned?
    ensures Lawful(job, dbspec, deps, files, end, EventsOf(job, vec, end))
  {
    hide PlannedFor, NothingElse, AllAnnounced, Forward, Rollback, Opening, TakenBack, PlainKeys, DepPattern, InOrder,
         NoneTwice, LinesApart, NoDup, AllApart, OncePerPart, Staged, Opened;
    var db1, db2, run := files[job.running], files[job.candidate], EventsOf(job, vec, end);
    RunIsPlanned(job, dbspec, deps, files, ents, vec);
    RunOwed(job, dbspec, deps, db1, db2, ents, vec, end);
    RunIsStaged(job, vec, end);
    ForwardApart(job, deps, ents, vec);
    RunInOrder(job, vec, end);
    if LinesApart(dbspec, db1, db2) {
      PlannedOnce(job, dbspec, deps, files, ents, vec);
    }
    if !end.Refused? {
      assert run[..|Opening(job, vec)|] == Opening(job, vec);
      OpeningAnnounces(job, dbspec, deps, db1, db2, ents, vec, run);
    }
    if end.Done? || end.CopyBackFailed? {
      GoodRunAnnounces(job, dbspec, deps, db1, db2, ents, vec, end);
    }
    if end.RolledBack? {
      RunTakenBack(job, vec, end);
      RolledBackEvents(job, vec, end);
    }
  }

  /** The same for the opening alone, which is what a validation makes. */
  ghost predicate ValidatesLawfully(job: Job, dbspec: seq<SpecKey>, deps: seq<Dep>, files: map<string, Content>,
                                    ok: bool, run: seq<Event>)
  {
    && job.running in files && job.candidate in files
    && var db1, db2 := files[job.running], files[job.candidate];
       && NothingElse(job, dbspec, deps, db1, db2, run)
       && (ok ==> AllAnnounced(job, dbspec, deps, db1, db2, run, Validating))
  }

  lemma OpeningIsLawful(job: Job, dbspec: seq<SpecKey>, deps: seq<Dep>, files: map<string, Content>,
                        ents: seq<DiffEnt>, vec: seq<DD>, end: Ending)
    requires Planned(job, dbspec, deps, files, ents, vec) && forall dep :: dep in deps ==> DepPattern(dep.pattern)
    requires forall ds :: ds in dbspec ==> PlainKeys(files[job.running], ds) && PlainKeys(files[job.candidate], ds)
    ensures ValidatesLawfully(job, dbspec, deps, files, true, Opening(job, vec))
    ensures end.Refused? && Possible(job, vec, end) ==>
              ValidatesLawfully(job, dbspec, deps, files, false, EventsOf(job, vec, end))
  {
    hide PlannedFor, AllAnnounced, Opening, PlainKeys, DepPattern, Owed, EventsOf;
    var db1, db2, o := files[job.running], files[job.candidate], Opening(job, vec);
    RunIsPlanned(job, dbspec, deps, files, ents, vec);
    OpeningAnnounces(job, dbspec, deps, db1, db2, ents, vec, o);
    forall i | 0 <= i < |o| && o[i].Made? && !o[i].stage.Undoing?
      ensures Owed(job, dbspec, deps, db1, db2, o[i].stage, o[i].call)
    {
      OpeningOwed(job, dbspec, deps, db1, db2, ents, vec, i);
    }
    if end.Refused? && Possible(job, vec, end) {
      RunOwed(job, dbspec, deps, db1, db2, ents, vec, end);
    }
  }
}
