/** candidate_commit: validation, the callbacks under one of three orders, the copies between the databases, and the
    rollback when something fails. */
module Commit {
  import opened Basics
  import opened Cvec
  import opened Sorting
  import opened DbDiff
  import opened DbDep
  import opened CommitVec
  import opened CommitTrace
  import opened FastDiff
  import opened DatabaseDiff
  import opened CommitLog
  import opened CommitSteps
  import opened CommitLaw
  import Lvec

  /** The backend: its plugins and configuration, the state of the plugins, and the database files. The log is what an
      observer would have written down. */
  class Backend<S(!new)> {
    const plugins: Plugins<S>
    const order: nat
    const tt: Lvec.Types
    const cmp: (string, string) -> int
    const dbspec: seq<SpecKey>
    const deps: seq<Dep>
    var state: S
    var files: map<string, Content>
    ghost const start: S
    ghost var log: seq<Event>

    ghost predicate Valid()
      reads this
    {
      state == Replay(plugins, log, start) && Faithful(plugins, log, start)
    }

    /** The registrations and the specification are well-formed, and the two databases are of the specification. */
    ghost predicate Configured(running: string, candidate: string)
      reads this
    {
      && tt.Valid() && ValueOrder(cmp)
      && NoDup(deps) && (forall dep :: dep in deps ==> DepPattern(dep.pattern))
      && (forall f, ds :: f in files && (f == running || f == candidate) && ds in dbspec ==>
            Fits(tt, files[f], ds) && PlainKeys(files[f], ds))
    }

    constructor (plugins: Plugins<S>, order: nat, tt: Lvec.Types, cmp: (string, string) -> int, dbspec: seq<SpecKey>,
                 deps: seq<Dep>, state: S, files: map<string, Content>)
      ensures Valid() && log == []
      ensures this.plugins == plugins && this.order == order && this.tt == tt && this.cmp == cmp
      ensures this.dbspec == dbspec && this.deps == deps && this.state == state && this.files == files
    {
      this.plugins, this.order, this.tt, this.cmp := plugins, order, tt, cmp;
      this.dbspec, this.deps, this.state, this.files := dbspec, deps, state, files;
      start, log := state, [];
    }

    /** plugin_commit_callback */
    method PluginCommitCallback(ghost stage: Stage, op: CommitOp, sourceDb: string, targetDb: string,
                                sourceKey: Option<string>, targetKey: Option<string>,
                                sourceVec: Option<Vec>, targetVec: Option<Vec>, dep: Dep) returns (ok: bool)
      requires Valid()
      modifies `state, `log
      ensures Valid()
      ensures Noted(stage, old(log), log,
                    Some(Call(dep, op, sourceDb, targetDb, sourceKey, targetKey, sourceVec, targetVec)), ok)
    {
      hide Replay, Faithful;
      var call := Call(dep, op, sourceDb, targetDb, sourceKey, targetKey, sourceVec, targetVec);
      var answer := plugins.callback(call, state);
      ReplayMore(plugins, log, Made(stage, call, answer.0), start);
      ok, state := answer.0, answer.1;
      log := log + [Made(stage, call, ok)];
    }

    /** The hooks of one phase. */
    method PluginHooks(phase: Phase) returns (ok: bool)
      requires Valid()
      modifies `state, `log
      ensures Valid()
      ensures log == old(log) + [HookEvent(phase, ok)]
    {
      hide Replay, Faithful;
      var answer := plugins.hook(phase, state);
      ReplayMore(plugins, log, HookEvent(phase, answer.0), start);
      ok, state := answer.0, answer.1;
      log := log + [HookEvent(phase, ok)];
    }

    /** generic_validate: it may add default values to keys of the candidate that changed, also when it fails. */
    method GenericValidate(job: Job, ents: seq<DiffEnt>) returns (ok: bool)
      requires Valid() && job.candidate in files
      modifies `files, `log
      ensures Valid() && log == old(log) + [Generic(ok)] && Prepared(job, ents, old(files), files)
    {
      hide Replay, Faithful, OnlyDefaults;
      NothingPrepared(job, ents, files);
      var db: Content := *;
      ok := *;
      if OnlyDefaults(ents, files[job.candidate], db) {
        files := files[job.candidate := db];
      }
      ReplayMore(plugins, log, Generic(ok), start);
      log := log + [Generic(ok)];
    }

    /** file_cp: a copy that fails can leave anything in the target; a file copied onto itself is emptied. */
    method FileCp(source: string, target: string) returns (ok: bool)
      requires Valid() && source in files
      modifies `files, `log
      ensures Valid() && log == old(log) + [Copied(source, target, ok)]
      ensures OnlyChanges(target, old(files), files)
      ensures ok ==> files == old(files)[target := if source == target then EMPTY else old(files)[source]]
      ensures target in old(files) ==> target in files
    {
      hide Replay, Faithful;
      ok := *;
      if ok {
        files := files[target := if source == target then EMPTY else files[source]];
      } else {
        var truncated: bool := *;
        if truncated {
          var part: Content := *;
          files := files[target := part];
        }
      }
      ReplayMore(plugins, log, Copied(source, target, ok), start);
      log := log + [Copied(source, target, ok)];
    }

    /** validate_db: `i` is where a callback refused, or the length of the vector. */
    method ValidateDb(job: Job, vec: seq<DD>) returns (i: nat, ghost sofar: seq<Event>)
      requires Valid()
      modifies `state, `log
      ensures Valid() && i <= |vec| && Did(Validating, old(log), sofar, Span(job, Check, vec, 0, i))
      ensures if i < |vec| then CallOf(job, Check, vec[i]).Some?
                                && Noted(Validating, sofar, log, CallOf(job, Check, vec[i]), false)
              else log == sofar
    {
      hide Span, Pick, Did, Undid, Noted, Rev, Undone, Inverses, Swaps, Replay, Faithful;
      NothingYet(Validating, log, job, Check, vec, 0);
      i, sofar := 0, log;
      while i < |vec|
        invariant 0 <= i <= |vec| && Valid() && sofar == log
        invariant Did(Validating, old(log), log, Span(job, Check, vec, 0, i))
      {
        var dd := vec[i];
        NoNote(Validating, log, true);
        if !dd.dep.cb.CommitCb? {
          var ok := PluginCommitCallback(Validating, OpOf(dd.ent), job.running, job.candidate, dd.mkey1, dd.mkey2,
                                         Vec1(dd.ent), Vec2(dd.ent), dd.dep);
          if !ok {
            return;
          }
        }
        StepUp(Validating, old(log), sofar, log, job, Check, vec, i);
        sofar := log;
        i := i + 1;
      }
    }

    // -------------------------------------------------------------- order 0

    /** The calls of order 0; `i` is where a call failed, or the length of the vector. */
    method CommitWhole(job: Job, vec: seq<DD>) returns (i: nat, ghost sofar: seq<Event>)
      requires Valid()
      modifies `state, `log
      ensures Valid() && i <= |vec| && Did(Committing, old(log), sofar, Span(job, Whole, vec, 0, i))
      ensures if i < |vec| then CallOf(job, Whole, vec[i]).Some?
                                && Noted(Committing, sofar, log, CallOf(job, Whole, vec[i]), false)
              else log == sofar
    {
      hide Span, Pick, Did, Undid, Noted, Rev, Undone, Inverses, Swaps, Replay, Faithful;
      NothingYet(Committing, log, job, Whole, vec, 0);
      i, sofar := 0, log;
      while i < |vec|
        invariant 0 <= i <= |vec| && Valid() && sofar == log
        invariant Did(Committing, old(log), log, Span(job, Whole, vec, 0, i))
      {
        var dd := vec[i];
        NoNote(Committing, log, true);
        if !dd.dep.cb.ValidateCb? {
          var ok := PluginCommitCallback(Committing, OpOf(dd.ent), job.running, job.candidate, dd.mkey1, dd.mkey2,
                                         Vec1(dd.ent), Vec2(dd.ent), dd.dep);
          if !ok {
            return;
          }
        }
        StepUp(Committing, old(log), sofar, log, job, Whole, vec, i);
        sofar := log;
        i := i + 1;
      }
    }

    /** The rollback of order 0: back from entry `i - 1`. */
    method UndoWhole(job: Job, vec: seq<DD>, i: nat)
      requires Valid() && i <= |vec|
      modifies `state, `log
      ensures Valid() && Undid(old(log), log, Undone(Span(job, Whole, vec, 0, i)))
    {
      hide Span, Pick, Did, Undid, Noted, Rev, Undone, Inverses, Swaps, Replay, Faithful;
      NothingYet(Undoing, log, job, Whole, vec, i);
      var j: int := i - 1;
      while j >= 0
        invariant -1 <= j < i && Valid()
        invariant Undid(old(log), log, Undone(Span(job, Whole, vec, j + 1, i)))
      {
        var dd, ok := vec[j], true;
        ghost var sofar := log;
        NoNote(Undoing, log, ok);
        if !dd.dep.cb.ValidateCb? {
          var op := OpOf(dd.ent);
          match op {
            case CoAdd => op := CoDelete;
            case CoDelete => op := CoAdd;
            case CoChange =>
          }
          ok := PluginCommitCallback(Undoing, op, job.candidate, job.running, dd.mkey2, dd.mkey1,
                                     Vec2(dd.ent), Vec1(dd.ent), dd.dep);
        }
        StepUndone(old(log), sofar, log, ok, job, Whole, vec, j, i);
        j := j - 1;
      }
    }

    // -------------------------------------------------------------- orders 1 and 2

    /** The deletions, from the end; `i` is where one failed, or -1. */
    method CommitRemovals(job: Job, vec: seq<DD>) returns (i: int, ghost sofar: seq<Event>)
      requires Valid() && job.order == order
      modifies `state, `log
      ensures Valid() && -1 <= i < |vec| && Did(Committing, old(log), sofar, Rev(Span(job, Remove, vec, i + 1, |vec|)))
      ensures if i >= 0 then CallOf(job, Remove, vec[i]).Some?
                             && Noted(Committing, sofar, log, CallOf(job, Remove, vec[i]), false)
              else log == sofar
    {
      hide Span, Pick, Did, Undid, Noted, Rev, Undone, Inverses, Swaps, Replay, Faithful;
      NothingYet(Committing, log, job, Remove, vec, |vec|);
      i, sofar := |vec| - 1, log;
      while i >= 0
        invariant -1 <= i < |vec| && Valid() && sofar == log
        invariant Did(Committing, old(log), log, Rev(Span(job, Remove, vec, i + 1, |vec|)))
      {
        var dd := vec[i];
        NoNote(Committing, log, true);
        if !dd.dep.cb.ValidateCb? {
          var op := OpOf(dd.ent);
          if order == 2 && op == CoChange {
            op := CoDelete;
          }
          if op == CoDelete {
            var ok := PluginCommitCallback(Committing, op, job.running, job.candidate, dd.mkey1, dd.mkey2,
                                           Vec1(dd.ent), Vec2(dd.ent), dd.dep);
            if !ok {
              return;
            }
          }
        }
        StepDown(old(log), sofar, log, job, vec, i);
        sofar := log;
        i := i - 1;
      }
    }

    /** The rollback of a failed deletion at the entry before `from`: forward again, still deleting. */
    method ReissueRemovals(job: Job, vec: seq<DD>, from: nat)
      requires Valid() && job.order == order && from <= |vec|
      modifies `state, `log
      ensures Valid() && Undid(old(log), log, Swaps(Span(job, Remove, vec, from, |vec|)))
    {
      hide Span, Pick, Did, Undid, Noted, Rev, Undone, Inverses, Swaps, Replay, Faithful;
      NothingYet(Undoing, log, job, Remove, vec, from);
      var j := from;
      while j < |vec|
        invariant from <= j <= |vec| && Valid()
        invariant Undid(old(log), log, Swaps(Span(job, Remove, vec, from, j)))
      {
        var dd, ok := vec[j], true;
        ghost var sofar := log;
        NoNote(Undoing, log, ok);
        if !dd.dep.cb.ValidateCb? {
          var op := OpOf(dd.ent);
          if order == 2 && op == CoChange {
            op := CoDelete;
          }
          if op == CoDelete {
            ok := PluginCommitCallback(Undoing, op, job.candidate, job.running, dd.mkey2, dd.mkey1,
                                       Vec2(dd.ent), Vec1(dd.ent), dd.dep);
          }
        }
        StepSwaps(old(log), sofar, log, ok, job, vec, from, j);
        j := j + 1;
      }
    }

    /** The additions and changes; `i` is where one failed, or the length of the vector. */
    method CommitInserts(job: Job, vec: seq<DD>) returns (i: nat, ghost sofar: seq<Event>)
      requires Valid() && job.order == order
      modifies `state, `log
      ensures Valid() && i <= |vec| && Did(Committing, old(log), sofar, Span(job, Insert, vec, 0, i))
      ensures if i < |vec| then CallOf(job, Insert, vec[i]).Some?
                                && Noted(Committing, sofar, log, CallOf(job, Insert, vec[i]), false)
              else log == sofar
    {
      hide Span, Pick, Did, Undid, Noted, Rev, Undone, Inverses, Swaps, Replay, Faithful;
      NothingYet(Committing, log, job, Insert, vec, 0);
      i, sofar := 0, log;
      while i < |vec|
        invariant 0 <= i <= |vec| && Valid() && sofar == log
        invariant Did(Committing, old(log), log, Span(job, Insert, vec, 0, i))
      {
        var dd := vec[i];
        NoNote(Committing, log, true);
        if !dd.dep.cb.ValidateCb? {
          var op := OpOf(dd.ent);
          if op == CoChange || op == CoAdd {
            if order == 2 && op == CoChange {
              op := CoAdd;
            }
            var ok := PluginCommitCallback(Committing, op, job.running, job.candidate, dd.mkey1, dd.mkey2,
                                           Vec1(dd.ent), Vec2(dd.ent), dd.dep);
            if !ok {
              return;
            }
          }
        }
        StepUp(Committing, old(log), sofar, log, job, Insert, vec, i);
        sofar := log;
        i := i + 1;
      }
    }

    /** The rollback of the additions and changes before entry `i`, backwards. */
    method UndoInserts(job: Job, vec: seq<DD>, i: nat)
      requires Valid() && job.order == order && i <= |vec|
      modifies `state, `log
      ensures Valid() && Undid(old(log), log, Undone(Span(job, Insert, vec, 0, i)))
    {
      hide Span, Pick, Did, Undid, Noted, Rev, Undone, Inverses, Swaps, Replay, Faithful;
      NothingYet(Undoing, log, job, Insert, vec, i);
      var j: int := i - 1;
      while j >= 0
        invariant -1 <= j < i && Valid()
        invariant Undid(old(log), log, Undone(Span(job, Insert, vec, j + 1, i)))
      {
        var dd, ok := vec[j], true;
        ghost var sofar := log;
        NoNote(Undoing, log, ok);
        if !dd.dep.cb.ValidateCb? {
          var op := OpOf(dd.ent);
          if op == CoChange || op == CoAdd {
            if order == 2 && op == CoChange {
              op := CoAdd;
            }
            if op == CoAdd {
              op := CoDelete;
            }
            ok := PluginCommitCallback(Undoing, op, job.candidate, job.running, dd.mkey2, dd.mkey1,
                                       Vec2(dd.ent), Vec1(dd.ent), dd.dep);
          }
        }
        StepUndone(old(log), sofar, log, ok, job, Insert, vec, j, i);
        j := j - 1;
      }
    }

    /** The rollback of all the deletions, forwards. */
    method UndoRemovals(job: Job, vec: seq<DD>)
      requires Valid() && job.order == order
      modifies `state, `log
      ensures Valid() && Undid(old(log), log, Inverses(Span(job, Remove, vec, 0, |vec|)))
    {
      hide Span, Pick, Did, Undid, Noted, Rev, Undone, Inverses, Swaps, Replay, Faithful;
      NothingYet(Undoing, log, job, Remove, vec, 0);
      var j := 0;
      while j < |vec|
        invariant 0 <= j <= |vec| && Valid()
        invariant Undid(old(log), log, Inverses(Span(job, Remove, vec, 0, j)))
      {
        var dd, ok := vec[j], true;
        ghost var sofar := log;
        NoNote(Undoing, log, ok);
        if !dd.dep.cb.ValidateCb? {
          var op := OpOf(dd.ent);
          if order == 2 && op == CoChange {
            op := CoDelete;
          }
          if op == CoDelete {
            op := CoAdd;
            ok := PluginCommitCallback(Undoing, op, job.candidate, job.running, dd.mkey2, dd.mkey1,
                                       Vec2(dd.ent), Vec1(dd.ent), dd.dep);
          }
        }
        StepInverses(old(log), sofar, log, ok, job, vec, j);
        j := j + 1;
      }
    }

    // -------------------------------------------------------------- the whole commit

    /** Order 0: the calls, the copy into running, and the rollback of either. */
    method CommitAtOnce(job: Job, vec: seq<DD>) returns (ok: bool, ghost end: Ending)
      requires Valid() && job == Job(order, job.running, job.candidate) && order == 0 && job.candidate in files
      modifies this
      ensures Valid() && (if ok then end.Done? else end.RolledBack?) && Outcome(job, vec, ok, end, old(log), log)
      ensures CopiedOver(job, vec, ok, end, old(files), files)
    {
      hide Pick, CallOf, Replay, Faithful, Forward, Rollback, MadeAll, Oks;
      var i, sofar := CommitWhole(job, vec);
      ok := i == |vec|;
      if ok {
        ok := FileCp(job.candidate, job.running);
      }
      CutWhole(job, vec, i);
      if ok {
        end := Done;
      } else {
        ghost var stopped := log;
        UndoWhole(job, vec, i);
        ghost var p := Span(job, Whole, vec, 0, i);
        RolledBackOutcome(job, vec, old(log), sofar, stopped, log, p);
        end := RolledBack(|p|, log[|stopped|..]);
      }
    }

    /** Orders 1 and 2: the deletions, the other calls, the copy into running, and the rollback of each. */
    method CommitInTwoWalks(job: Job, vec: seq<DD>) returns (ok: bool, ghost end: Ending)
      requires Valid() && job == Job(order, job.running, job.candidate) && order != 0 && job.candidate in files
      modifies this
      ensures Valid() && (if ok then end.Done? else end.RolledBack?) && Outcome(job, vec, ok, end, old(log), log)
      ensures CopiedOver(job, vec, ok, end, old(files), files)
    {
      hide Pick, CallOf, Replay, Faithful, Forward, Rollback, MadeAll, Oks;
      ghost var r := Removals(job, vec);
      var i, removed := CommitRemovals(job, vec);
      if i >= 0 {
        CutDeletions(job, vec, i);
        ghost var stopped := log;
        ReissueRemovals(job, vec, i + 1);
        ghost var q := Rev(Span(job, Remove, vec, i + 1, |vec|));
        RolledBackOutcome(job, vec, old(log), removed, stopped, log, q);
        return false, RolledBack(|q|, log[|stopped|..]);
      }
      var j, sofar := CommitInserts(job, vec);
      CutInserts(job, vec, j);
      ok := j == |vec|;
      if ok {
        ok := FileCp(job.candidate, job.running);
      }
      ghost var p := Span(job, Insert, vec, 0, j);
      assert Span(job, Remove, vec, 0, |vec|) == Pick(job, Remove, vec) by {
        assert vec[0..|vec|] == vec;
      }
      BothWalks(old(log), removed, sofar, r, p);
      if ok {
        end := Done;
      } else {
        ghost var stopped := log;
        UndoInserts(job, vec, j);
        ghost var middle := log;
        UndoRemovals(job, vec);
        BothUndone(stopped, middle, log, Undone(p), Inverses(Span(job, Remove, vec, 0, |vec|)));
        RolledBackOutcome(job, vec, old(log), sofar, stopped, log, r + p);
        end := RolledBack(|r + p|, log[|stopped|..]);
      }
    }

    /** The steps before the first commit callback. */
    method Prepare(job: Job, vec: seq<DD>, ents: seq<DiffEnt>) returns (ok: bool, ghost at: nat)
      requires Valid() && job.candidate in files
      modifies this
      ensures Valid() && Prepared(job, ents, old(files), files)
      ensures if ok then log == old(log) + Opening(job, vec) else StoppedAt(job, vec, at, old(log), log)
    {
      hide Pick, CallOf, Replay, Faithful, Opening, StoppedAt, Prepared;
      StoppedEarly(job, vec, log);
      NothingPrepared(job, ents, files);
      ok := PluginHooks(BeginPhase);
      if !ok {
        return false, 0;
      }
      ok := GenericValidate(job, ents);
      if !ok {
        return false, 1;
      }
      ghost var start := log;
      var i, sofar := ValidateDb(job, vec);
      StoppedInValidation(job, vec, old(log), start, sofar, i);
      if i < |vec| {
        return false, 2 + |Span(job, Check, vec, 0, i)|;
      }
      ok := PluginHooks(CompletePhase);
      at := |Opening(job, vec)| - 1;
    }

    /** The commit vector of the two databases. */
    method Plan(job: Job) returns (r: Option<seq<DD>>, ents: seq<DiffEnt>)
      requires Configured(job.running, job.candidate)
      ensures r.Some? ==> job.running in files && job.candidate in files
      ensures r.Some? ==> Planned(job, dbspec, deps, files, ents, r.value)
    {
      hide Preorder, Fits, PlainKeys, Complete, Sound, OncePerSlot, PartOf, Flatten, Bracketless;
      if job.running !in files || job.candidate !in files {
        return None, [];
      }
      var df := new Diff();
      var ok, parts := DbDiffAll(tt, cmp, files[job.running], files[job.candidate], dbspec, df);
      if !ok {
        return None, [];
      }
      ents := df.ents;
      forall e | e in ents ensures Bracketless(e) {
        DiffBracketless(files[job.running], files[job.candidate], dbspec, parts, e);
      }
      r := DbdepCommitvec(deps, df.ents);
    }

    /** The steps up to the closing hook. */
    method Commit(job: Job)
      returns (ok: bool, ghost ents: seq<DiffEnt>, ghost vec: seq<DD>, ghost end: Ending, ghost valid: Content)
      requires Valid() && Configured(job.running, job.candidate) && job == Job(order, job.running, job.candidate)
      modifies this
      ensures Valid() && (ok <==> end.Done?) && Possible(job, vec, end)
      ensures if ok then log == old(log) + EventsOf(job, vec, end) else AllButAbort(job, vec, end, old(log), log)
      ensures end.Unplanned? || Planned(job, dbspec, deps, old(files), ents, vec)
      ensures FilesAfter(job, vec, end, ents, valid, old(files), files)
    {
      hide Replay, Faithful, Opening, Possible, EventsOf, AllButAbort, Planned, Fits, PlainKeys, Outcome, StoppedAt,
           FilesAfter, OnlyChanges, CopiedOver, OnlyDefaults;
      var plan, changes := Plan(job);
      ents, valid := changes, EMPTY;
      if plan.None? {
        CloseEarly(job, [], 0, log, log);
        FilesKept(job, [], ents, files);
        return false, ents, [], Unplanned, valid;
      }
      var dds := plan.value;
      vec := dds;
      var ready, at := Prepare(job, dds, changes);
      ghost var opening, before := log, files;
      valid := files[job.candidate];
      if !ready {
        CloseEarly(job, vec, at, old(log), log);
        FilesThrough(job, vec, Refused(at), ents, old(files), before, before, files);
        return false, ents, vec, Refused(at), valid;
      }
      var done;
      if order == 0 {
        done, end := CommitAtOnce(job, dds);
      } else {
        done, end := CommitInTwoWalks(job, dds);
      }
      ghost var copied := files;
      if !done {
        CloseRolledBack(job, vec, end, old(log), opening, log);
        FilesThrough(job, vec, end, ents, old(files), before, copied, files);
        return false, ents, vec, end, valid;
      }
      CloseCopied(job, vec, end, old(log), opening, log);
      RunningThere(job, vec, end, before, copied);
      ok := FileCp(job.running, job.candidate);
      if !ok {
        FilesThrough(job, vec, CopyBackFailed, ents, old(files), before, copied, files);
        end := CopyBackFailed;
        return;
      }
      FilesThrough(job, vec, Done, ents, old(files), before, copied, files);
      var ignored := PluginHooks(EndPhase);
      end := Done;
    }

    /** candidate_commit */
    method CandidateCommit(candidate: string, running: string)
      returns (ok: bool, ghost job: Job, ghost ents: seq<DiffEnt>, ghost vec: seq<DD>, ghost end: Ending,
               ghost valid: Content)
      requires Valid() && Configured(running, candidate)
      modifies this
      ensures Valid() && job == Job(order, running, candidate) && Possible(job, vec, end)
      ensures ok <==> end.Done?
      ensures log == old(log) + EventsOf(job, vec, end)
      ensures end.Unplanned? || Planned(job, dbspec, deps, old(files), ents, vec)
      ensures old(log) <= log
      ensures if end.Unplanned? then log[|old(log)|..] == [Aborted]
              else Lawful(job, dbspec, deps, old(files), end, log[|old(log)|..])
      ensures FilesAfter(job, vec, end, ents, valid, old(files), files)
    {
      hide Replay, Faithful, EventsOf, Planned, Fits, PlainKeys, FilesAfter, Possible, Lawful;
      var theJob := Job(order, running, candidate);
      job := theJob;
      ok, ents, vec, end, valid := Commit(theJob);
      if !ok {
        var ignored := PluginHooks(AbortPhase);
      }
      assert log[|old(log)|..] == EventsOf(job, vec, end);
      if end.Unplanned? {
        UnplannedEvents(job, vec);
      } else {
        InFiles(job, dbspec, deps, old(files), ents, vec);
        RunIsLawful(job, dbspec, deps, old(files), ents, vec, end);
      }
    }

    /** candidate_validate: the opening of a commit and nothing after it. When it succeeds no closing hook runs. */
    method CandidateValidate(candidate: string, running: string)
      returns (ok: bool, ghost job: Job, ghost ents: seq<DiffEnt>, ghost vec: seq<DD>, ghost end: Ending)
      requires Valid() && Configured(running, candidate)
      modifies this
      ensures Valid() && job == Job(order, running, candidate) && Possible(job, vec, end)
      ensures ok ==> end.Done? && log == old(log) + Opening(job, vec)
      ensures !ok ==> (end.Unplanned? || end.Refused?) && log == old(log) + EventsOf(job, vec, end)
      ensures end.Unplanned? || Planned(job, dbspec, deps, old(files), ents, vec)
      ensures old(log) <= log
      ensures !end.Unplanned? ==> ValidatesLawfully(job, dbspec, deps, old(files), ok, log[|old(log)|..])
      ensures if end.Unplanned? then files == old(files) else Prepared(job, ents, old(files), files)
    {
      hide Replay, Faithful, Opening, Possible, EventsOf, AllButAbort, Planned, Fits, PlainKeys, StoppedAt, Prepared,
           ValidatesLawfully;
      var theJob := Job(order, running, candidate);
      job, vec, end := theJob, [], Unplanned;
      CloseEarly(job, vec, 0, log, log);
      var plan, changes := Plan(theJob);
      ents := changes;
      ok := plan.Some?;
      if ok {
        vec := plan.value;
        ghost var at;
        ok, at := Prepare(theJob, plan.value, changes);
        CloseEarly(job, vec, at, old(log), log);
        DonePossible(job, vec);
        end := if ok then Done else Refused(at);
      }
      ghost var planned := plan.Some?;
      if planned {
        InFiles(job, dbspec, deps, old(files), ents, vec);
        OpeningIsLawful(job, dbspec, deps, old(files), ents, vec, end);
      }
      if !ok {
        AbortCloses(job, vec, end, old(log), log);
        var ignored := PluginHooks(AbortPhase);
      }
      assert log[|old(log)|..] == if ok then Opening(job, vec) else EventsOf(job, vec, end);
    }
  }
}
