/** How the log and the files grow, step by step, along a commit. */
module CommitSteps {
  import opened Basics
  import opened Cvec
  import opened Sorting
  import opened DbDiff
  import opened DbDep
  import opened CommitVec
  import opened CommitTrace
  import opened KeyPattern
  import opened DatabaseDiff
  import opened CommitLog

  /** The calls of a walk over the entries from `i` up to `j`. */
  function Span(job: Job, pass: Pass, vec: seq<DD>, i: int, j: int): seq<Call>
    requires 0 <= i <= j <= |vec|
  {
    Pick(job, pass, vec[i..j])
  }

  /** The log grew by one call, or by none. */
  predicate Noted(stage: Stage, before: seq<Event>, log: seq<Event>, c: Option<Call>, ok: bool) {
    log == if c.None? then before else before + [Made(stage, c.value, ok)]
  }

  /** The log grew by these calls, which all went well. */
  predicate Did(stage: Stage, before: seq<Event>, log: seq<Event>, calls: seq<Call>) {
    log == before + Oks(stage, calls)
  }

  /** The log grew by these rollback calls, whatever they answered. */
  predicate Undid(before: seq<Event>, log: seq<Event>, calls: seq<Call>) {
    before <= log && MadeAll(Undoing, calls, log[|before|..])
  }

  lemma OksSnoc(stage: Stage, p: seq<Call>, c: Call)
    ensures Oks(stage, p + [c]) == Oks(stage, p) + [Made(stage, c, true)]
  {}

  lemma NoNote(stage: Stage, log: seq<Event>, ok: bool)
    ensures Noted(stage, log, log, None, ok)
  {}

  /** A walk that has not begun. */
  lemma NothingYet(stage: Stage, log: seq<Event>, job: Job, pass: Pass, vec: seq<DD>, i: int)
    requires 0 <= i <= |vec|
    ensures var none := Span(job, pass, vec, i, i);
            && Did(stage, log, log, none) && Did(stage, log, log, Rev(none))
            && Undid(log, log, Undone(none)) && Undid(log, log, Inverses(none)) && Undid(log, log, Swaps(none))
  {}

  lemma DidMore(stage: Stage, before: seq<Event>, sofar: seq<Event>, log: seq<Event>, calls: seq<Call>, c: Option<Call>)
    requires Did(stage, before, sofar, calls) && Noted(stage, sofar, log, c, true)
    ensures Did(stage, before, log, calls + ToSeq(c))
  {
    if c.Some? {
      OksSnoc(stage, calls, c.value);
    } else {
      assert calls + [] == calls;
    }
  }

  lemma UndidMore(before: seq<Event>, sofar: seq<Event>, log: seq<Event>, calls: seq<Call>, c: Option<Call>, ok: bool)
    requires Undid(before, sofar, calls) && Noted(Undoing, sofar, log, c, ok)
    ensures Undid(before, log, calls + ToSeq(c))
  {
    if c.Some? {
      assert log[|before|..] == sofar[|before|..] + [Made(Undoing, c.value, ok)];
    } else {
      assert calls + [] == calls;
    }
  }

  /** One step of a walk along the vector, of one from its end, and of the three kinds of rollback. */
  lemma StepUp(stage: Stage, before: seq<Event>, sofar: seq<Event>, log: seq<Event>, job: Job, pass: Pass, vec: seq<DD>,
               i: nat)
    requires i < |vec| && Did(stage, before, sofar, Span(job, pass, vec, 0, i))
    requires Noted(stage, sofar, log, CallOf(job, pass, vec[i]), true)
    ensures Did(stage, before, log, Span(job, pass, vec, 0, i + 1))
  {
    hide Pick, CallOf, Did, Noted, ToSeq;
    PickStep(job, pass, vec, 0, i);
    DidMore(stage, before, sofar, log, Span(job, pass, vec, 0, i), CallOf(job, pass, vec[i]));
  }

  lemma StepDown(before: seq<Event>, sofar: seq<Event>, log: seq<Event>, job: Job, vec: seq<DD>, i: nat)
    requires i < |vec| && Did(Committing, before, sofar, Rev(Span(job, Remove, vec, i + 1, |vec|)))
    requires Noted(Committing, sofar, log, CallOf(job, Remove, vec[i]), true)
    ensures Did(Committing, before, log, Rev(Span(job, Remove, vec, i, |vec|)))
  {
    hide Pick, CallOf, Did, Noted, Rev;
    var c, p := CallOf(job, Remove, vec[i]), Span(job, Remove, vec, i + 1, |vec|);
    PickStepDown(job, Remove, vec, i, |vec|);
    DidMore(Committing, before, sofar, log, Rev(p), c);
    if c.Some? {
      RevCons(c.value, p);
    } else {
      assert [] + p == p && Rev(p) + [] == Rev(p);
    }
  }

  function Inverted(c: Option<Call>): Option<Call> {
    if c.None? then None else Some(Inverse(c.value))
  }

  function Swapped(c: Option<Call>): Option<Call> {
    if c.None? then None else Some(Swap(c.value))
  }

  lemma StepUndone(before: seq<Event>, sofar: seq<Event>, log: seq<Event>, ok: bool, job: Job, pass: Pass, vec: seq<DD>,
                   j: nat, i: nat)
    requires j < i <= |vec| && Undid(before, sofar, Undone(Span(job, pass, vec, j + 1, i)))
    requires Noted(Undoing, sofar, log, Inverted(CallOf(job, pass, vec[j])), ok)
    ensures Undid(before, log, Undone(Span(job, pass, vec, j, i)))
  {
    hide Pick, CallOf, Undid, Noted, Undone, Inverse;
    PickStepDown(job, pass, vec, j, i);
    var c, p := CallOf(job, pass, vec[j]), Span(job, pass, vec, j + 1, i);
    UndidMore(before, sofar, log, Undone(p), Inverted(c), ok);
    if c.Some? {
      UndoneCons(c.value, p);
    } else {
      assert [] + p == p && Undone(p) + [] == Undone(p);
    }
  }

  lemma StepInverses(before: seq<Event>, sofar: seq<Event>, log: seq<Event>, ok: bool, job: Job, vec: seq<DD>, j: nat)
    requires j < |vec| && Undid(before, sofar, Inverses(Span(job, Remove, vec, 0, j)))
    requires Noted(Undoing, sofar, log, Inverted(CallOf(job, Remove, vec[j])), ok)
    ensures Undid(before, log, Inverses(Span(job, Remove, vec, 0, j + 1)))
  {
    hide Pick, CallOf, Undid, Noted, Inverses, Inverse;
    PickStep(job, Remove, vec, 0, j);
    var c, p := CallOf(job, Remove, vec[j]), Span(job, Remove, vec, 0, j);
    UndidMore(before, sofar, log, Inverses(p), Inverted(c), ok);
    if c.Some? {
      InversesSnoc(p, c.value);
    } else {
      assert p + [] == p && Inverses(p) + [] == Inverses(p);
    }
  }

  lemma StepSwaps(before: seq<Event>, sofar: seq<Event>, log: seq<Event>, ok: bool, job: Job, vec: seq<DD>,
                  i: nat, j: nat)
    requires i <= j < |vec| && Undid(before, sofar, Swaps(Span(job, Remove, vec, i, j)))
    requires Noted(Undoing, sofar, log, Swapped(CallOf(job, Remove, vec[j])), ok)
    ensures Undid(before, log, Swaps(Span(job, Remove, vec, i, j + 1)))
  {
    hide Pick, CallOf, Undid, Noted, Swaps, Swap;
    PickStep(job, Remove, vec, i, j);
    var c, p := CallOf(job, Remove, vec[j]), Span(job, Remove, vec, i, j);
    UndidMore(before, sofar, log, Swaps(p), Swapped(c), ok);
    if c.Some? {
      SwapsSnoc(p, c.value);
    } else {
      assert p + [] == p && Swaps(p) + [] == Swaps(p);
    }
  }

  /** The keys of a database carry no brackets. */
  ghost predicate PlainKeys(db: Content, ds: SpecKey) {
    if IsListLine(ds.key) then forall x :: x in ItemsOf(db, ds.key) ==> BracketFree(x.key) else BracketFree(ds.key)
  }

  /** So do the keys of a difference. */
  lemma DiffBracketless(db1: Content, db2: Content, dbspec: seq<SpecKey>, parts: seq<seq<DiffEnt>>, e: DiffEnt)
    requires |parts| == |dbspec| && e in Flatten(parts)
    requires forall i :: 0 <= i < |parts| ==> PartOf(db1, db2, dbspec[i], parts[i])
    requires forall ds :: ds in dbspec ==> PlainKeys(db1, ds) && PlainKeys(db2, ds)
    ensures Bracketless(e)
  {
    hide IsListLine;
    FlattenMembers(parts, e);
    var i :| 0 <= i < |parts| && e in parts[i];
    assert dbspec[i] in dbspec && Reported(db1, db2, dbspec[i], e);
  }

  function Vec1(e: DiffEnt): Option<Vec> {
    if e.Second? then None else Some(e.one.vars)
  }

  function Vec2(e: DiffEnt): Option<Vec> {
    if e.First? then None else Some(e.two.vars)
  }

  const EMPTY := Content(map[], map[])

  /** Variables were added to a vector: values for names that it did not have. */
  predicate Grew(was: Vec, now: Vec) {
    was <= now && forall i :: |was| <= i < |now| ==> !now[i].unset && Find(now[..i], now[i].name).None?
  }

  /** The changes that leave something in the second database. */
  predicate Touched(ents: seq<DiffEnt>, key: string) {
    exists i :: 0 <= i < |ents| && !ents[i].First? && ents[i].two.key == key
  }

  predicate KeyFilled(ents: seq<DiffEnt>, key: string, was: Vec, now: Vec) {
    now == was || (Touched(ents, key) && Grew(was, now))
  }

  /** Nothing but default values was added, and those only to keys that changed. */
  predicate OnlyDefaults(ents: seq<DiffEnt>, was: Content, now: Content) {
    && was.plain.Keys == now.plain.Keys && was.lists.Keys == now.lists.Keys
    && (forall k :: k in was.plain ==> KeyFilled(ents, k, was.plain[k], now.plain[k]))
    && (forall l :: l in was.lists ==> ItemsFilled(ents, was.lists[l], now.lists[l]))
  }

  predicate ItemsFilled(ents: seq<DiffEnt>, was: seq<Item>, now: seq<Item>) {
    && |was| == |now|
    && forall i :: 0 <= i < |was| ==> now[i].key == was[i].key && KeyFilled(ents, was[i].key, was[i].vars, now[i].vars)
  }

  /** Only the named file may differ. */
  predicate OnlyChanges(name: string, a: map<string, Content>, b: map<string, Content>) {
    && (forall f :: f in a && f != name ==> f in b && b[f] == a[f])
    && (forall f :: f in b && f != name ==> f in a)
  }

  lemma CutWhole(job: Job, vec: seq<DD>, i: nat)
    requires job.order == 0 && i <= |vec|
    ensures var f, p := Forward(job, vec), Span(job, Whole, vec, 0, i);
            && p <= f && Undone(p) == Rollback(job, vec, |p|)
            && (i == |vec| ==> p == f)
            && (i < |vec| && CallOf(job, Whole, vec[i]).Some? ==> |p| < |f| && Some(f[|p|]) == CallOf(job, Whole, vec[i]))
  {
    hide Pick, CallOf, Undone;
    CutWalk(job, Whole, vec, i);
    assert vec[..|vec|] == vec;
    var p := Span(job, Whole, vec, 0, i);
    assert Forward(job, vec)[..|p|] == p;
  }

  /** A deletion walk that failed at entry `i`. */
  lemma CutDeletions(job: Job, vec: seq<DD>, i: nat)
    requires job.order != 0 && i < |vec| && CallOf(job, Remove, vec[i]).Some?
    ensures var f, p := Forward(job, vec), Rev(Span(job, Remove, vec, i + 1, |vec|));
            && p <= f && Swaps(Span(job, Remove, vec, i + 1, |vec|)) == Rollback(job, vec, |p|)
            && |p| < |f| && Some(f[|p|]) == CallOf(job, Remove, vec[i])
  {
    hide Pick, CallOf, Undone, Swaps, Rev;
    CutRemovals(job, vec, i);
    assert vec[i + 1..|vec|] == vec[i + 1..];
    var p := Rev(Span(job, Remove, vec, i + 1, |vec|));
    assert Forward(job, vec)[..|p|] == p;
    UndoneReversed(Span(job, Remove, vec, i + 1, |vec|));
  }

  /** A second walk that got to entry `i`. */
  lemma CutInserts(job: Job, vec: seq<DD>, i: nat)
    requires job.order != 0 && i <= |vec|
    ensures var f, r, p := Forward(job, vec), Removals(job, vec), Span(job, Insert, vec, 0, i);
            && r + p <= f && Undone(p) + Inverses(Span(job, Remove, vec, 0, |vec|)) == Rollback(job, vec, |r + p|)
            && (i == |vec| ==> r + p == f)
            && (i < |vec| && CallOf(job, Insert, vec[i]).Some? ==>
                  |r + p| < |f| && Some(f[|r + p|]) == CallOf(job, Insert, vec[i]))
  {
    hide Pick, CallOf;
    CutWalk(job, Insert, vec, i);
    assert vec[..|vec|] == vec && vec[0..|vec|] == vec;
    var r, p := Removals(job, vec), Span(job, Insert, vec, 0, i);
    assert Forward(job, vec)[..|r + p|] == r + p;
    UndoneReversed(Pick(job, Remove, vec));
    UndoneConcat(r, p);
  }

  /** The log of the deletions is the beginning of the log of both walks. */
  lemma BothWalks(before: seq<Event>, middle: seq<Event>, log: seq<Event>, r: seq<Call>, p: seq<Call>)
    requires Did(Committing, before, middle, r) && Did(Committing, middle, log, p)
    ensures Did(Committing, before, log, r + p)
  {
    assert Oks(Committing, r + p) == Oks(Committing, r) + Oks(Committing, p);
  }

  lemma BothUndone(before: seq<Event>, middle: seq<Event>, log: seq<Event>, p: seq<Call>, q: seq<Call>)
    requires Undid(before, middle, p) && Undid(middle, log, q)
    ensures Undid(before, log, p + q)
  {
    assert log[|before|..] == middle[|before|..] + log[|middle|..];
  }

  /** From what the walks left in the log to the outcome. */
  lemma RolledBackOutcome(job: Job, vec: seq<DD>, before: seq<Event>, sofar: seq<Event>, stopped: seq<Event>,
                          log: seq<Event>, p: seq<Call>)
    requires p <= Forward(job, vec) && Did(Committing, before, sofar, p)
    requires stopped == sofar + [if |p| < |Forward(job, vec)| then Made(Committing, Forward(job, vec)[|p|], false)
                                 else Copied(job.candidate, job.running, false)]
    requires Undid(stopped, log, Rollback(job, vec, |p|))
    ensures Outcome(job, vec, false, RolledBack(|p|, log[|stopped|..]), before, log)
  {
    hide Forward, Rollback, MadeAll;
    assert Forward(job, vec)[..|p|] == p;
    assert log == stopped + log[|stopped|..];
    assert stopped == before + Tried(job, vec, |p|);
  }

  /** The opening went as far as step `at` and failed there. */
  predicate StoppedAt(job: Job, vec: seq<DD>, at: nat, before: seq<Event>, log: seq<Event>) {
    at < |Opening(job, vec)| && log == before + (Opening(job, vec)[..at] + [Failed(Opening(job, vec)[at])])
  }

  lemma StoppedEarly(job: Job, vec: seq<DD>, before: seq<Event>)
    ensures StoppedAt(job, vec, 0, before, before + [Began(false)])
    ensures StoppedAt(job, vec, 1, before, before + [Began(true)] + [Generic(false)])
  {
    hide Pick;
    var o := Opening(job, vec);
    assert o[..0] == [] && o[..1] == [Began(true)];
  }

  /** The opening when validation stopped at entry `i`, and when it got through. */
  lemma StoppedInValidation(job: Job, vec: seq<DD>, before: seq<Event>, start: seq<Event>, sofar: seq<Event>, i: nat)
    requires start == before + [Began(true)] + [Generic(true)]
    requires i <= |vec| && Did(Validating, start, sofar, Span(job, Check, vec, 0, i))
    ensures var c, n := if i < |vec| then CallOf(job, Check, vec[i]) else None, |Span(job, Check, vec, 0, i)|;
            c.Some? ==> StoppedAt(job, vec, 2 + n, before, sofar + [Made(Validating, c.value, false)])
    ensures i == |vec| ==> StoppedAt(job, vec, |Opening(job, vec)| - 1, before, sofar + [Completed(false)])
                           && sofar + [Completed(true)] == before + Opening(job, vec)
  {
    hide Pick, CallOf;
    CutWalk(job, Check, vec, i);
    assert vec[..|vec|] == vec;
    var q, o := Span(job, Check, vec, 0, i), Opening(job, vec);
    assert o[..2 + |q|] == [Began(true), Generic(true)] + Oks(Validating, q);
    assert sofar == before + o[..2 + |q|];
  }

  /** What the callbacks and the copy into running left in the log. */
  predicate Outcome(job: Job, vec: seq<DD>, ok: bool, end: Ending, before: seq<Event>, log: seq<Event>) {
    if ok then
      log == before + Oks(Committing, Forward(job, vec)) + [Copied(job.candidate, job.running, true)]
    else
      end.RolledBack? && Possible(job, vec, end) && log == before + Tried(job, vec, end.done) + end.undo
  }

  /** The log when the last hook of the run is still to come. */
  predicate AllButAbort(job: Job, vec: seq<DD>, end: Ending, before: seq<Event>, log: seq<Event>) {
    Possible(job, vec, end) && !end.Done? && log + [Aborted] == before + EventsOf(job, vec, end)
  }

  lemma CloseEarly(job: Job, vec: seq<DD>, at: nat, before: seq<Event>, log: seq<Event>)
    ensures Possible(job, vec, Unplanned) && AllButAbort(job, vec, Unplanned, before, before)
    ensures StoppedAt(job, vec, at, before, log) ==>
              Possible(job, vec, Refused(at)) && AllButAbort(job, vec, Refused(at), before, log)
  {
    hide Opening;
    if StoppedAt(job, vec, at, before, log) {
      var o := Opening(job, vec);
      assert log + [Aborted] == before + (o[..at] + [Failed(o[at]), Aborted]);
    }
  }

  lemma DonePossible(job: Job, vec: seq<DD>)
    ensures Possible(job, vec, Done)
  {}

  lemma AbortCloses(job: Job, vec: seq<DD>, end: Ending, before: seq<Event>, log: seq<Event>)
    requires AllButAbort(job, vec, end, before, log)
    ensures Possible(job, vec, end) && log + [Aborted] == before + EventsOf(job, vec, end)
  {}

  lemma CloseRolledBack(job: Job, vec: seq<DD>, end: Ending, before: seq<Event>, ready: seq<Event>, log: seq<Event>)
    requires ready == before + Opening(job, vec) && Outcome(job, vec, false, end, ready, log)
    ensures Possible(job, vec, end) && AllButAbort(job, vec, end, before, log)
  {
    hide Opening, Tried, Forward, Rollback, MadeAll;
    assert log + [Aborted] == before + (Opening(job, vec) + Tried(job, vec, end.done) + end.undo + [Aborted]);
  }

  lemma CloseCopied(job: Job, vec: seq<DD>, end: Ending, before: seq<Event>, ready: seq<Event>, log: seq<Event>)
    requires ready == before + Opening(job, vec) && Outcome(job, vec, true, end, ready, log)
    ensures Possible(job, vec, CopyBackFailed) && Possible(job, vec, Done)
    ensures AllButAbort(job, vec, CopyBackFailed, before, log + [Copied(job.running, job.candidate, false)])
    ensures log + [Copied(job.running, job.candidate, true)] + [Ended] == before + EventsOf(job, vec, Done)
  {
    hide Opening, Oks, Forward;
    var head := Opening(job, vec) + Oks(Committing, Forward(job, vec));
    assert log == before + (head + [Copied(job.candidate, job.running, true)]);
    assert EventsOf(job, vec, Done)
        == head + [Copied(job.candidate, job.running, true), Copied(job.running, job.candidate, true), Ended];
    assert EventsOf(job, vec, CopyBackFailed)
        == head + [Copied(job.candidate, job.running, true), Copied(job.running, job.candidate, false), Aborted];
  }

  ghost predicate DiffOf(db1: Content, db2: Content, dbspec: seq<SpecKey>, ents: seq<DiffEnt>) {
    exists parts :: |parts| == |dbspec| && ents == Flatten(parts)
                    && forall i :: 0 <= i < |parts| ==> PartOf(db1, db2, dbspec[i], parts[i])
  }

  /** The commit vector is that of the difference between the two databases. */
  ghost predicate Planned(job: Job, dbspec: seq<SpecKey>, deps: seq<Dep>, files: map<string, Content>,
                          ents: seq<DiffEnt>, vec: seq<DD>) {
    && job.running in files && job.candidate in files
    && DiffOf(files[job.running], files[job.candidate], dbspec, ents)
    && Sorted(ByRow(), vec) && Sound(deps, ents, vec) && OncePerSlot(vec) && Complete(deps, ents, vec)
  }

  lemma InFiles(job: Job, dbspec: seq<SpecKey>, deps: seq<Dep>, files: map<string, Content>, ents: seq<DiffEnt>,
                vec: seq<DD>)
    requires Planned(job, dbspec, deps, files, ents, vec)
    ensures job.running in files && job.candidate in files
  {}

  lemma UnplannedEvents(job: Job, vec: seq<DD>)
    ensures Possible(job, vec, Unplanned) && EventsOf(job, vec, Unplanned) == [Aborted]
  {}

  /** The validation only added defaults to the candidate. */
  predicate Prepared(job: Job, ents: seq<DiffEnt>, was: map<string, Content>, ready: map<string, Content>) {
    && job.candidate in was && job.candidate in ready
    && ready == was[job.candidate := ready[job.candidate]]
    && OnlyDefaults(ents, was[job.candidate], ready[job.candidate])
  }

  lemma NothingPrepared(job: Job, ents: seq<DiffEnt>, was: map<string, Content>)
    requires job.candidate in was
    ensures Prepared(job, ents, was, was)
  {
    assert was == was[job.candidate := was[job.candidate]];
  }

  /** From what each step of a run does to the files to what the run does. */
  lemma FilesThrough(job: Job, vec: seq<DD>, end: Ending, ents: seq<DiffEnt>, was: map<string, Content>,
                     ready: map<string, Content>, copied: map<string, Content>, now: map<string, Content>)
    requires Possible(job, vec, end) && job.running in was && Prepared(job, ents, was, ready)
    requires end.Refused? ==> now == ready
    requires end.RolledBack? ==> CopiedOver(job, vec, false, end, ready, now)
    requires end.CopyBackFailed? || end.Done? ==> CopiedOver(job, vec, true, end, ready, copied)
    requires end.CopyBackFailed? ==> OnlyChanges(job.candidate, copied, now) && job.candidate in now
    requires end.Done? ==>
               job.running in copied
               && now == copied[job.candidate := if job.running == job.candidate then EMPTY else copied[job.running]]
    ensures !end.Unplanned? ==> FilesAfter(job, vec, end, ents, ready[job.candidate], was, now)
  {
    hide OnlyDefaults, Forward, Rollback, MadeAll, Opening;
    match end
    case Unplanned =>
    case Refused(_) =>
    case RolledBack(done, _) =>
      assert done < |Forward(job, vec)| ==> now == ready;
    case CopyBackFailed =>
      assert OnlyChanges(job.running, ready, copied);
    case Done =>
      assert OnlyChanges(job.running, ready, copied);
  }

  lemma RunningThere(job: Job, vec: seq<DD>, end: Ending, was: map<string, Content>, now: map<string, Content>)
    requires CopiedOver(job, vec, true, end, was, now)
    ensures job.running in now && job.candidate in now
    ensures CopiedOver(job, vec, true, CopyBackFailed, was, now)
  {}

  lemma FilesKept(job: Job, vec: seq<DD>, ents: seq<DiffEnt>, was: map<string, Content>)
    ensures FilesAfter(job, vec, Unplanned, ents, EMPTY, was, was)
  {}

  /** What a run does to the files. `valid` is the candidate with the defaults that the validation added. Running keeps
      its content up to the copy, and after it holds exactly what was validated; a run that ends well leaves the same in
      the candidate. */
  ghost predicate FilesAfter(job: Job, vec: seq<DD>, end: Ending, ents: seq<DiffEnt>, valid: Content,
                             was: map<string, Content>, now: map<string, Content>)
    requires Possible(job, vec, end)
  {
    && (forall f :: f != job.candidate && f != job.running ==> (f in was <==> f in now) && (f in was ==> now[f] == was[f]))
    && (end.Unplanned? ==> now == was)
    && (!end.Unplanned? ==>
          && job.running in was && job.candidate in was && job.running in now && job.candidate in now
          && OnlyDefaults(ents, was[job.candidate], valid))
    && (!end.Unplanned? && job.running != job.candidate ==>
          match end
          case Refused(_) => now[job.candidate] == valid && now[job.running] == was[job.running]
          case RolledBack(done, _) =>
            now[job.candidate] == valid && (done < |Forward(job, vec)| ==> now[job.running] == was[job.running])
          case CopyBackFailed => now[job.running] == valid
          case Done => now[job.running] == valid && now[job.candidate] == valid)
  }

  /** What they did to the files: running is touched only by the copy. */
  predicate CopiedOver(job: Job, vec: seq<DD>, ok: bool, end: Ending, was: map<string, Content>, now: map<string, Content>)
  {
    && OnlyChanges(job.running, was, now) && (job.running in was ==> job.running in now)
    && (if ok then job.candidate in was
                   && now == was[job.running := if job.candidate == job.running then EMPTY else was[job.candidate]]
        else end.RolledBack? && (end.done < |Forward(job, vec)| ==> now == was))
  }
}
