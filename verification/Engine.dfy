/** The workflow engine: run and RecoverInProgress in internal/workflow/engine.go, over every
    interleaving of its goroutines, with failed writes, crashes and restarts. */
module Engine {
  import opened Options
  import opened StageNames
  import opened StageRun
  import opened Extraction
  import opened Workers

  /** Where the pipeline goroutine stands. */
  datatype Main =
    | Start | InResearch(r: Runner) | ResearchOut
    | PlanStart | InPlan(r: Runner) | PlanOut
    | AddGet(tasks: seq<Task>) | AddWrite(tasks: seq<Task>, loc: Workflow)
    | Spawn | FanOut
    | MergeGet | MergeWrite(loc: Workflow) | MergeCall
    | FinalGet(merged: bool) | FinalWrite(merged: bool, loc: Workflow)
    | FailWorkflowGet | FailWorkflowWrite(loc: Workflow)
    | Ended

  datatype Config = Config(j: Json, maxWorkers: nat)

  /** `planned` is the number of tasks in the plan, `branches` are the tasks in succeededBranches, `tokens`
      the semaphore's count, `handed` what was given to the merge function. */
  datatype Sys = Sys(e: Env, main: Main, planned: nat, workers: seq<Worker>, firstErr: bool,
                     branches: seq<nat>, tokens: nat,
                     handed: Option<seq<nat>>)

  /** Flush is a save on behalf of another workflow: it writes the whole store. */
  datatype Event =
    | MainStep(c: Answer, prompt: string)
    | WorkerStep(i: nat, c: Answer, prompt: string)
    | Flush
    | Crash

  predicate HasPending(wf: Workflow, id: StageId) {
    exists k | 0 <= k < |wf.stages| :: wf.stages[k].id == id && wf.stages[k].status == Pending
  }

  function ImplementStages(tasks: seq<Task>): seq<Stage> {
    seq(|tasks|, i requires 0 <= i < |tasks| => NewStage(Implement(i), Pending, tasks[i].description))
  }

  /** The implement stages of a version, in order: the fan-out starts one worker for each. */
  function ImplementIds(stages: seq<Stage>): seq<StageId> {
    if stages == [] then []
    else
      var rest, last := ImplementIds(stages[..|stages| - 1]), stages[|stages| - 1];
      if last.id.Implement? then rest + [last.id] else rest
  }

  predicate AllGone(workers: seq<Worker>) {
    forall i | 0 <= i < |workers| :: workers[i].Gone?
  }

  predicate Enabled(cfg: Config, s: Sys, ev: Event) {
    match ev
    case MainStep(_, _) => s.main != Ended && (s.main == FanOut ==> AllGone(s.workers))
    case WorkerStep(i, _, _) =>
      && i < |s.workers| && !s.workers[i].Gone?
      && (s.workers[i].Waiting? ==> s.tokens < cfg.maxWorkers)
      && (s.workers[i].Leave? ==> s.tokens > 0)
    case Flush => true
    case Crash => true
  }

  function ApplyMain(cfg: Config, s: Sys, c: Answer, prompt: string): Sys {
    var e := s.e;
    match s.main
    case Start =>
      s.(main := if HasPending(e.store, Research) then InResearch(Runner(Research, prompt, Get1)) else FailWorkflowGet)
    case InResearch(r) =>
      if r.pc.Ret? then s.(main := if r.pc.ok then ResearchOut else FailWorkflowGet)
      else var (e', r') := StepRunner(e, r, c); s.(e := e', main := InResearch(r'))
    case ResearchOut => s.(main := if StageIndex(e.store.stages, Research) >= 0 then PlanStart else FailWorkflowGet)
    case PlanStart =>
      s.(main := if HasPending(e.store, Plan) then InPlan(Runner(Plan, prompt, Get1)) else FailWorkflowGet)
    case InPlan(r) =>
      if r.pc.Ret? then s.(main := if r.pc.ok then PlanOut else FailWorkflowGet)
      else var (e', r') := StepRunner(e, r, c); s.(e := e', main := InPlan(r'))
    case PlanOut =>
      var k := StageIndex(e.store.stages, Plan);
      var verdict := if k < 0 then NoArray else PlanVerdict(cfg.j, e.store.stages[k].output);
      s.(main := if verdict.Tasks? then AddGet(verdict.tasks) else FailWorkflowGet)
    case AddGet(tasks) => s.(main := AddWrite(tasks, e.store))
    case AddWrite(tasks, loc) =>
      var added := set i | 0 <= i < |tasks| :: Implement(i);
      s.(e := Upsert(e, loc.(stages := loc.stages + ImplementStages(tasks)), c.Good?)
                .(h := e.h.(added := e.h.added + added)),
         main := if c.Good? then Spawn else FailWorkflowGet, planned := |tasks|)
    case Spawn =>
      var ids := ImplementIds(e.store.stages);
      s.(workers := seq(|ids|, i requires 0 <= i < |ids| => Waiting(ids[i])), main := FanOut)
    case FanOut => s.(main := MergeGet)
    case MergeGet => s.(main := MergeWrite(e.store))
    case MergeWrite(loc) =>
      s.(e := Upsert(e, loc.(stages := loc.stages + [NewStage(Merge, Running, "")]), c.Good?)
                .(h := e.h.(added := e.h.added + {Merge})),
         main := MergeCall)
    case MergeCall => s.(handed := Some(s.branches), main := FinalGet(c.Good?))
    case FinalGet(merged) => s.(main := FinalWrite(merged, e.store))
    case FinalWrite(merged, loc) =>
      var k := StageIndex(loc.stages, Merge);
      var wf := if k < 0 then loc else Put(loc, loc.stages[k].(status := if merged then Done else Failed));
      s.(e := Upsert(e, wf.(status := if s.firstErr || !merged then WFailed else WDone), c.Good?), main := Ended)
    case FailWorkflowGet => s.(main := FailWorkflowWrite(e.store))
    case FailWorkflowWrite(loc) => s.(e := Upsert(e, loc.(status := WFailed), c.Good?), main := Ended)
    case Ended => s
  }

  function ApplyWorker(cfg: Config, s: Sys, i: nat, c: Answer, prompt: string): Sys
    requires Enabled(cfg, s, WorkerStep(i, c, prompt))
  {
    var w := s.workers[i];
    var (e', w') := StepWorker(cfg.j, s.e, i, w, c, prompt);
    s.(e := e', workers := s.workers[i := w'],
       firstErr := s.firstErr || w.SetErr?,
       branches := if w.AddBranch? then s.branches + [i] else s.branches,
       tokens := if w.Waiting? then s.tokens + 1 else if w.Leave? then s.tokens - 1 else s.tokens)
  }

  /** After a crash the store is read back from disk and run starts again for a workflow that is queued
      or running there; nothing else of the process survives. */
  function Apply(cfg: Config, s: Sys, ev: Event): Sys
    requires Enabled(cfg, s, ev)
  {
    match ev
    case MainStep(c, prompt) => ApplyMain(cfg, s, c, prompt)
    case WorkerStep(i, c, prompt) => ApplyWorker(cfg, s, i, c, prompt)
    case Flush => s.(e := s.e.(disk := s.e.store))
    case Crash =>
      var main := if s.e.disk.status in {WQueued, WRunning} then Start else Ended;
      Sys(s.e.(store := s.e.disk), main, 0, [], false, [], 0, None)
  }

  // ----- the invariant -------------------------------------------------------------------------------

  predicate Inside(w: Worker) {
    !w.Waiting? && !w.Gone?
  }

  function CountInside(workers: seq<Worker>): nat {
    if workers == [] then 0
    else CountInside(workers[..|workers| - 1]) + if Inside(workers[|workers| - 1]) then 1 else 0
  }

  predicate Succeeded(w: Worker) {
    w == Leave(true) || w == Gone(true)
  }

  predicate FailedWorker(w: Worker) {
    w == Leave(false) || w == Gone(false)
  }

  ghost predicate NoDuplicates(bs: seq<nat>) {
    forall a, b | 0 <= a < b < |bs| :: bs[a] != bs[b]
  }

  /** The fan-out's books: a task's branch is listed, once, exactly when its worker succeeded; an error
      is noted exactly when some worker failed; the semaphore counts the workers inside. */
  ghost predicate Tally(cfg: Config, s: Sys) {
    && NoDuplicates(s.branches)
    && (forall i :: i in s.branches <==> 0 <= i < |s.workers| && Succeeded(s.workers[i]))
    && (s.firstErr <==> exists i :: 0 <= i < |s.workers| && FailedWorker(s.workers[i]))
    && s.tokens == CountInside(s.workers) <= cfg.maxWorkers
  }

  const BEGIN := {Research, Plan}

  ghost predicate OnlyTouched(h: History, ids: set<StageId>) {
    forall id | id !in ids :: Untouched(h, id)
  }

  ghost predicate MainOk(s: Sys) {
    var h := s.e.h;
    match s.main
    case Start => s.workers == []
    case InResearch(r) =>
      r.id == Research && RunnerOk(r, h) && OnlyTouched(h, {Research}) && h.added == BEGIN && s.workers == []
    case ResearchOut => h.left && OnlyTouched(h, {Research}) && h.added == BEGIN && s.workers == []
    case PlanStart => h.left && OnlyTouched(h, {Research}) && h.added == BEGIN && s.workers == []
    case InPlan(r) => r.id == Plan && RunnerOk(r, h) && OnlyTouched(h, BEGIN) && h.added == BEGIN && s.workers == []
    case PlanOut => h.left && OnlyTouched(h, BEGIN) && h.added == BEGIN && s.workers == []
    case AddGet(_) => h.left && OnlyTouched(h, BEGIN) && h.added == BEGIN && s.workers == []
    case AddWrite(_, loc) => VersionOk(loc, h) && h.left && OnlyTouched(h, BEGIN) && h.added == BEGIN && s.workers == []
    case Spawn =>
      var ids := ImplementIds(s.e.store.stages);
      && h.left && OnlyTouched(h, BEGIN) && s.workers == []
      && |ids| == s.planned && (forall i | 0 <= i < |ids| :: ids[i] == Implement(i))
      && (forall x | x in h.added :: x in BEGIN || x.Implement?)
    case FanOut => |s.workers| == s.planned && Merge !in h.added && h.left
    case MergeGet => |s.workers| == s.planned && AllGone(s.workers) && Merge !in h.added && h.left
    case MergeWrite(loc) =>
      |s.workers| == s.planned && AllGone(s.workers) && Merge !in h.added && VersionOk(loc, h) && h.left
    case MergeCall => |s.workers| == s.planned && AllGone(s.workers) && h.left
    case FinalGet(_) => |s.workers| == s.planned && AllGone(s.workers) && s.handed == Some(s.branches) && h.left
    case FinalWrite(_, loc) =>
      |s.workers| == s.planned && AllGone(s.workers) && s.handed == Some(s.branches) && VersionOk(loc, h) && h.left
    case FailWorkflowGet => s.workers == []
    case FailWorkflowWrite(loc) => s.workers == [] && VersionOk(loc, h)
    case Ended => AllGone(s.workers)
  }

  /** Until research has been persisted as running nothing at all has happened. */
  ghost predicate Pristine(s: Sys) {
    && s.e.h.created == multiset{} && s.e.h.results == map[] && s.e.h.added == BEGIN && s.workers == []
  }

  ghost predicate Inv(cfg: Config, s: Sys) {
    && EnvOk(s.e)
    && (forall id :: s.e.h.created[id] <= 1)
    && (!s.e.h.left ==> Pristine(s))
    && MainOk(s)
    && (forall i | 0 <= i < |s.workers| :: WorkerOk(cfg.j, s.e.h, i, s.workers[i]))
    && Tally(cfg, s)
    && (s.handed.Some? ==> (s.main.FinalGet? || s.main.FinalWrite? || s.main.Ended?) && s.handed.value == s.branches)
  }

  // ----- the worker steps ----------------------------------------------------------------------------

  lemma {:induction false} CountUpdate(ws: seq<Worker>, i: nat, w: Worker)
    requires i < |ws|
    ensures CountInside(ws[i := w]) + (if Inside(ws[i]) then 1 else 0) == CountInside(ws) + (if Inside(w) then 1 else 0)
    decreases ws
  {
    var n := |ws| - 1;
    if i == n {
      assert ws[i := w][..n] == ws[..n];
    } else {
      assert ws[i := w][..n] == ws[..n][i := w];
      CountUpdate(ws[..n], i, w);
    }
  }

  lemma TallyKept(cfg: Config, s: Sys, i: nat, c: Answer, prompt: string)
    requires Tally(cfg, s) && Enabled(cfg, s, WorkerStep(i, c, prompt))
    ensures Tally(cfg, ApplyWorker(cfg, s, i, c, prompt))
  {
    var w, t := s.workers[i], ApplyWorker(cfg, s, i, c, prompt);
    var w' := t.workers[i];
    StepShape(cfg.j, s.e, i, w, c, prompt);
    CountUpdate(s.workers, i, w');
    assert s.firstErr ==> t.firstErr;
    if s.firstErr {
      var k :| 0 <= k < |s.workers| && FailedWorker(s.workers[k]);
      assert FailedWorker(t.workers[k]);
    } else if w.SetErr? {
      assert FailedWorker(t.workers[i]);
    }
    forall k ensures k in t.branches <==> 0 <= k < |t.workers| && Succeeded(t.workers[k]) {
      assert k in t.branches <==> k in s.branches || (w.AddBranch? && k == i);
    }
  }

  /** How a step changes what the tally counts. */
  lemma StepShape(j: Json, e: Env, i: nat, w: Worker, c: Answer, prompt: string)
    ensures var w' := StepWorker(j, e, i, w, c, prompt).1;
      && (Succeeded(w') <==> Succeeded(w) || w.AddBranch?)
      && (FailedWorker(w') <==> FailedWorker(w) || w.SetErr?)
      && (w.Waiting? ==> Inside(w')) && (w.Leave? ==> !Inside(w'))
      && (!w.Waiting? && !w.Leave? ==> Inside(w') == Inside(w))
  {
  }

  lemma WorkerStepKeepsInv(cfg: Config, s: Sys, i: nat, c: Answer, prompt: string)
    requires Sane(cfg.j) && Inv(cfg, s) && Enabled(cfg, s, WorkerStep(i, c, prompt))
    ensures Inv(cfg, ApplyWorker(cfg, s, i, c, prompt))
  {
    var t := ApplyWorker(cfg, s, i, c, prompt);
    assert s.main == FanOut;
    StepWorkerOk(cfg.j, s.e, i, s.workers[i], c, prompt);
    TallyKept(cfg, s, i, c, prompt);
    forall k | 0 <= k < |t.workers| ensures WorkerOk(cfg.j, t.e.h, k, t.workers[k]) {
      if k != i { WorkerStaysOk(cfg.j, i, s.e.h, t.e.h, k, s.workers[k]); }
    }
    forall id ensures t.e.h.created[id] <= 1 {
      if id != Implement(i) && id != Verify(i) { assert t.e.h.created[id] == s.e.h.created[id]; }
    }
  }

  // ----- the steps of the pipeline goroutine ---------------------------------------------------------

  /** A step that changes only the pipeline goroutine's place, or the store as well while no worker is
      under way. */
  lemma FrameKeepsInv(cfg: Config, s: Sys, t: Sys)
    requires Inv(cfg, s) && t.workers == s.workers && t.firstErr == s.firstErr && t.branches == s.branches
    requires t.tokens == s.tokens
    requires t.e == s.e || (EnvOk(t.e) && AllGone(s.workers))
    requires t.e.h == s.e.h.(added := t.e.h.added) && (t.e.h.added == s.e.h.added || s.e.h.left)
    requires MainOk(t)
    requires t.handed.Some? ==>
        (t.main.FinalGet? || t.main.FinalWrite? || t.main.Ended?) && t.handed.value == t.branches
    ensures Inv(cfg, t)
  {
    forall i | 0 <= i < |t.workers| ensures WorkerOk(cfg.j, t.e.h, i, t.workers[i]) {
      assert WorkerOk(cfg.j, s.e.h, i, s.workers[i]);
    }
  }

  lemma RunningKeepsInv(cfg: Config, s: Sys, c: Answer, prompt: string)
    requires Inv(cfg, s) && (s.main.InResearch? || s.main.InPlan?)
    ensures Inv(cfg, ApplyMain(cfg, s, c, prompt))
  {
    var r, t := s.main.r, ApplyMain(cfg, s, c, prompt);
    if !r.pc.Ret? {
      RunnerStepOk(s.e, r, c);
      forall id ensures t.e.h.created[id] <= 1 {
        if id != r.id { assert t.e.h.created[id] == s.e.h.created[id]; }
      }
      forall id | id !in (if r.id == Research then {Research} else BEGIN) ensures Untouched(t.e.h, id) {
        assert Untouched(s.e.h, id);
      }
      if !t.e.h.left {
        assert t.e.h == s.e.h;
      }
    }
  }

  lemma {:induction false} ImplementIdsOfStart(stages: seq<Stage>)
    requires forall k | 0 <= k < |stages| :: stages[k].id in BEGIN
    ensures ImplementIds(stages) == []
    decreases stages
  {
    if stages != [] { ImplementIdsOfStart(stages[..|stages| - 1]); }
  }

  lemma {:induction false} ImplementIdsAppend(stages: seq<Stage>, more: seq<Stage>)
    requires forall k | 0 <= k < |more| :: more[k].id == Implement(k)
    ensures ImplementIds(stages + more) == ImplementIds(stages) + seq(|more|, (i: nat) => Implement(i))
    decreases more
  {
    if more == [] {
      assert stages + more == stages;
    } else {
      var n := |more| - 1;
      ImplementIdsAppend(stages, more[..n]);
      assert (stages + more)[..|stages + more| - 1] == stages + more[..n];
      assert seq(|more|, (i: nat) => Implement(i)) == seq(n, (i: nat) => Implement(i)) + [Implement(n)];
    }
  }

  lemma AddStagesOk(loc: Workflow, tasks: seq<Task>, h: History, g: History)
    requires VersionOk(loc, h) && h.added == BEGIN && g == h.(added := BEGIN + set i | 0 <= i < |tasks| :: Implement(i))
    ensures var wf := loc.(stages := loc.stages + ImplementStages(tasks));
      VersionOk(wf, g) && ImplementIds(wf.stages) == seq(|tasks|, (i: nat) => Implement(i))
  {
    var more := ImplementStages(tasks);
    var wf := loc.(stages := loc.stages + more);
    forall k | 0 <= k < |loc.stages| ensures loc.stages[k].id in BEGIN { LocalStageOk(loc, k, h); }
    forall k | 0 <= k < |wf.stages| ensures StageOk(wf.stages[k], g) {
      if k >= |loc.stages| { assert wf.stages[k] == more[k - |loc.stages|]; }
    }
    ImplementIdsOfStart(loc.stages);
    ImplementIdsAppend(loc.stages, more);
  }

  lemma AddWriteKeepsInv(cfg: Config, s: Sys, c: Answer, prompt: string)
    requires Inv(cfg, s) && s.main.AddWrite?
    ensures Inv(cfg, ApplyMain(cfg, s, c, prompt))
  {
    var t := ApplyMain(cfg, s, c, prompt);
    AddStagesOk(s.main.loc, s.main.tasks, s.e.h, t.e.h);
    FrameKeepsInv(cfg, s, t);
  }

  lemma SpawnKeepsInv(cfg: Config, s: Sys, c: Answer, prompt: string)
    requires Inv(cfg, s) && s.main.Spawn?
    ensures Inv(cfg, ApplyMain(cfg, s, c, prompt))
  {
    var t := ApplyMain(cfg, s, c, prompt);
    forall i | 0 <= i < |t.workers| ensures WorkerOk(cfg.j, t.e.h, i, t.workers[i]) {
      assert Untouched(t.e.h, Implement(i)) && Untouched(t.e.h, Verify(i));
    }
    NoneInside(t.workers);
  }

  lemma {:induction false} NoneInside(ws: seq<Worker>)
    requires forall i | 0 <= i < |ws| :: !Inside(ws[i])
    ensures CountInside(ws) == 0
    decreases ws
  {
    if ws != [] { NoneInside(ws[..|ws| - 1]); }
  }

  lemma MergeKeepsInv(cfg: Config, s: Sys, c: Answer, prompt: string)
    requires Inv(cfg, s) && s.main.MergeWrite?
    ensures Inv(cfg, ApplyMain(cfg, s, c, prompt))
  {
    var g := s.e.h.(added := s.e.h.added + {Merge});
    FrameKeepsInv(cfg, s, ApplyMain(cfg, s, c, prompt));
  }

  lemma FinalKeepsInv(cfg: Config, s: Sys, c: Answer, prompt: string)
    requires Inv(cfg, s) && s.main.FinalWrite?
    ensures Inv(cfg, ApplyMain(cfg, s, c, prompt))
  {
    var t := ApplyMain(cfg, s, c, prompt);
    FrameKeepsInv(cfg, s, t);
  }

  lemma MainStepKeepsInv(cfg: Config, s: Sys, c: Answer, prompt: string)
    requires Inv(cfg, s) && Enabled(cfg, s, MainStep(c, prompt))
    ensures Inv(cfg, ApplyMain(cfg, s, c, prompt))
  {
    if s.main.InResearch? || s.main.InPlan? {
      RunningKeepsInv(cfg, s, c, prompt);
    } else if s.main.AddWrite? {
      AddWriteKeepsInv(cfg, s, c, prompt);
    } else if s.main.Start? || s.main.PlanStart? {
      StartKeepsInv(cfg, s, c, prompt);
    } else if s.main.Spawn? {
      SpawnKeepsInv(cfg, s, c, prompt);
    } else if s.main.MergeWrite? {
      MergeKeepsInv(cfg, s, c, prompt);
    } else if s.main.FinalWrite? {
      FinalKeepsInv(cfg, s, c, prompt);
    } else {
      QuietMainKeepsInv(cfg, s, c, prompt);
    }
  }

  lemma StartKeepsInv(cfg: Config, s: Sys, c: Answer, prompt: string)
    requires Inv(cfg, s) && (s.main.Start? || s.main.PlanStart?)
    ensures Inv(cfg, ApplyMain(cfg, s, c, prompt))
  {
    var t := ApplyMain(cfg, s, c, prompt);
    if s.main.PlanStart? {
      assert Untouched(s.e.h, Plan);
      assert forall id | id !in BEGIN :: id !in {Research};
    }
    FrameKeepsInv(cfg, s, t);
  }

  lemma QuietMainKeepsInv(cfg: Config, s: Sys, c: Answer, prompt: string)
    requires Inv(cfg, s) && Enabled(cfg, s, MainStep(c, prompt))
    requires s.main.ResearchOut? || s.main.PlanOut? || s.main.AddGet? || s.main.FanOut?
             || s.main.MergeGet? || s.main.MergeCall? || s.main.FinalGet?
             || s.main.FailWorkflowGet? || s.main.FailWorkflowWrite?
    ensures Inv(cfg, ApplyMain(cfg, s, c, prompt))
  {
    FrameKeepsInv(cfg, s, ApplyMain(cfg, s, c, prompt));
  }

  /** Every step keeps the invariant, whoever takes it and whatever the outside answers. */
  lemma StepKeepsInv(cfg: Config, s: Sys, ev: Event)
    requires Sane(cfg.j) && Inv(cfg, s) && Enabled(cfg, s, ev)
    ensures Inv(cfg, Apply(cfg, s, ev))
  {
    match ev
    case MainStep(c, prompt) => MainStepKeepsInv(cfg, s, c, prompt);
    case WorkerStep(i, c, prompt) => WorkerStepKeepsInv(cfg, s, i, c, prompt);
    case Flush => FlushKeepsInv(cfg, s);
    case Crash => CrashKeepsInv(cfg, s);
  }

  lemma FlushKeepsInv(cfg: Config, s: Sys)
    requires Inv(cfg, s)
    ensures Inv(cfg, s.(e := s.e.(disk := s.e.store)))
  {
  }

  lemma CrashKeepsInv(cfg: Config, s: Sys)
    requires Inv(cfg, s)
    ensures Inv(cfg, Apply(cfg, s, Crash))
  {
  }

  // ----- runs ----------------------------------------------------------------------------------------

  ghost predicate Runs(cfg: Config, s: Sys, evs: seq<Event>, t: Sys)
    decreases evs
  {
    if evs == [] then t == s else Enabled(cfg, s, evs[0]) && Runs(cfg, Apply(cfg, s, evs[0]), evs[1..], t)
  }

  /** A workflow just submitted: both stages pending, queued or running in the store and on disk, and its
      pipeline about to start, or not started because the second write failed. */
  ghost predicate Submitted(s: Sys) {
    && s.e.store.stages == s.e.disk.stages == [NewStage(Research, Pending, ""), NewStage(Plan, Pending, "")]
    && s.e.store.status in {WQueued, WRunning} && s.e.disk.status in {WQueued, WRunning}
    && (s.main.Start? || s.main.Ended?)
    && s == Sys(Env(s.e.store, s.e.disk, History(BEGIN, multiset{}, map[], false)), s.main, 0, [], false, [], 0, None)
  }

  lemma SubmittedInv(cfg: Config, s: Sys)
    requires Submitted(s)
    ensures Inv(cfg, s)
  {
  }

  lemma {:induction false} RunKeepsInv(cfg: Config, s: Sys, evs: seq<Event>, t: Sys)
    requires Sane(cfg.j) && Inv(cfg, s) && Runs(cfg, s, evs, t)
    ensures Inv(cfg, t)
    decreases evs
  {
    if evs != [] {
      StepKeepsInv(cfg, s, evs[0]);
      RunKeepsInv(cfg, Apply(cfg, s, evs[0]), evs[1..], t);
    }
  }

  /** The merge gate: whatever the interleaving and however many store updates are lost, each branch
      handed to the merge belongs to a task whose own implement session output validated and whose own
      verify session output says pass; and no branch is handed over twice. */
  lemma MergeGate(cfg: Config, s: Sys, evs: seq<Event>, t: Sys)
    requires Sane(cfg.j) && Submitted(s) && Runs(cfg, s, evs, t) && t.handed.Some?
    ensures forall b | b in t.handed.value ::
      && Implement(b) in t.e.h.results && Verify(b) in t.e.h.results
      && (exists l, x :: FirstMatch(t.e.h.results[Implement(b)], "\"committed\"", l)
            && cfg.j.terminal(t.e.h.results[Implement(b)][l.start..l.end]) == Some(x)
            && x.committed && x.commitSHA != "" && x.buildOK)
      && (exists v :: cfg.j.verdict(ExtractVerifyBlock(t.e.h.results[Verify(b)])) == Some(v) && v.pass)
    ensures forall b | b in t.handed.value :: Gated(cfg.j, t.e.h, b)
    ensures NoDuplicates(t.handed.value)
  {
    SubmittedInv(cfg, s);
    RunKeepsInv(cfg, s, evs, t);
    forall b | b in t.handed.value ensures Gated(cfg.j, t.e.h, b) {
      assert WorkerOk(cfg.j, t.e.h, b, t.workers[b]);
    }
    forall b | b in t.handed.value { GatedExactly(cfg.j, t.e.h, b); }
  }

  lemma GatedExactly(j: Json, h: History, b: nat)
    requires Gated(j, h, b)
    ensures Implement(b) in h.results && Verify(b) in h.results
    ensures exists l, x :: FirstMatch(h.results[Implement(b)], "\"committed\"", l)
              && j.terminal(h.results[Implement(b)][l.start..l.end]) == Some(x)
              && x.committed && x.commitSHA != "" && x.buildOK
    ensures exists v :: j.verdict(ExtractVerifyBlock(h.results[Verify(b)])) == Some(v) && v.pass
  {
    ImplementOkExactly(j, h.results[Implement(b)]);
  }

  /** So the branch names handed over are pairwise distinct, too. */
  lemma HandedNamesDistinct(cfg: Config, s: Sys, evs: seq<Event>, t: Sys, id: string, a: nat, b: nat)
    requires Sane(cfg.j) && Submitted(s) && Runs(cfg, s, evs, t) && t.handed.Some? && a < b < |t.handed.value|
    ensures ImplementBranchName(id, t.handed.value[a]) != ImplementBranchName(id, t.handed.value[b])
  {
    MergeGate(cfg, s, evs, t);
    if ImplementBranchName(id, t.handed.value[a]) == ImplementBranchName(id, t.handed.value[b]) {
      TasksHaveOwnBranches(id, t.handed.value[a], t.handed.value[b]);
    }
  }

  /** Fan-out conservation: once all workers have returned there is no error noted exactly when every
      planned task is among the succeeded branches; and never are more than the configured number of
      workers inside the semaphore. */
  lemma FanOutConservation(cfg: Config, s: Sys, evs: seq<Event>, t: Sys)
    requires Sane(cfg.j) && Submitted(s) && Runs(cfg, s, evs, t)
    ensures CountInside(t.workers) <= cfg.maxWorkers
    ensures AllGone(t.workers) ==> (!t.firstErr <==> forall i | 0 <= i < |t.workers| :: i in t.branches)
    ensures forall b | b in t.branches :: b < |t.workers|
  {
    SubmittedInv(cfg, s);
    RunKeepsInv(cfg, s, evs, t);
    if AllGone(t.workers) && !t.firstErr {
      forall i | 0 <= i < |t.workers| ensures i in t.branches {
        assert !FailedWorker(t.workers[i]);
      }
    }
  }

  lemma NoErrorMeansGated(cfg: Config, t: Sys, i: nat)
    requires Inv(cfg, t) && t.main.FinalWrite? && !t.firstErr && i < t.planned
    ensures Gated(cfg.j, t.e.h, i) && t.handed.Some? && i in t.handed.value
  {
    assert WorkerOk(cfg.j, t.e.h, i, t.workers[i]);
    assert !FailedWorker(t.workers[i]);
  }

  /** A run that ends Done passed every planned task through both gates and handed every branch to a
      merge that succeeded; it ends Done exactly when no worker failed and the merge succeeded. */
  lemma DoneMeansAllGated(cfg: Config, s: Sys, evs: seq<Event>, t: Sys, c: Answer, prompt: string)
    requires Sane(cfg.j) && Submitted(s) && Runs(cfg, s, evs, t) && t.main.FinalWrite?
    ensures var u := Apply(cfg, t, MainStep(c, prompt));
      && (u.e.store.status == WDone <==> !t.firstErr && t.main.merged)
      && (u.e.store.status == WDone ==>
            forall i | 0 <= i < t.planned :: Gated(cfg.j, t.e.h, i) && t.handed.Some? && i in t.handed.value)
  {
    SubmittedInv(cfg, s);
    RunKeepsInv(cfg, s, evs, t);
    if !t.firstErr {
      forall i | 0 <= i < t.planned { NoErrorMeansGated(cfg, t, i); }
    }
  }

  /** What the plan session's own output says, once there is one. */
  function PlanOf(j: Json, results: map<StageId, string>): PlanResult {
    if Plan in results then PlanVerdict(j, results[Plan]) else NoArray
  }

  /** The pipeline has left the plan behind and works with its tasks. */
  predicate PastPlan(m: Main) {
    m.Spawn? || m.FanOut? || m.MergeGet? || m.MergeWrite? || m.MergeCall? || m.FinalGet? || m.FinalWrite?
  }

  predicate PlanOk(j: Json, m: Main, planned: nat, plan: PlanResult) {
    && (m.AddGet? ==> plan == Tasks(m.tasks))
    && (m.AddWrite? ==> plan == Tasks(m.tasks))
    && (PastPlan(m) ==> plan.Tasks? && |plan.tasks| == planned)
  }

  ghost predicate PlanInv(cfg: Config, s: Sys) {
    PlanOk(cfg.j, s.main, s.planned, PlanOf(cfg.j, s.e.h.results))
  }

  lemma PlanReadIsOwn(cfg: Config, s: Sys)
    requires Inv(cfg, s)
    ensures var k := StageIndex(s.e.store.stages, Plan);
      k >= 0 && PlanVerdict(cfg.j, s.e.store.stages[k].output).Tasks? ==>
        PlanOf(cfg.j, s.e.h.results) == PlanVerdict(cfg.j, s.e.store.stages[k].output)
  {
    OutputIsOwn(s.e.store, s.e.h, Plan);
  }

  lemma MainKeepsPlan(cfg: Config, s: Sys, c: Answer, prompt: string)
    requires Inv(cfg, s) && PlanInv(cfg, s)
    ensures PlanInv(cfg, ApplyMain(cfg, s, c, prompt))
  {
    if s.main.PlanOut? {
      PlanReadIsOwn(cfg, s);
    } else if s.main.InResearch? || s.main.InPlan? {
      RunningIsBeforePlan(cfg, s, c, prompt);
    } else {
      MainKeepsResults(cfg, s, c, prompt, PlanOf(cfg.j, s.e.h.results));
    }
  }

  lemma RunningIsBeforePlan(cfg: Config, s: Sys, c: Answer, prompt: string)
    requires s.main.InResearch? || s.main.InPlan?
    ensures var m := ApplyMain(cfg, s, c, prompt).main; !PastPlan(m) && !m.AddGet? && !m.AddWrite?
  {
  }

  lemma MainKeepsResults(cfg: Config, s: Sys, c: Answer, prompt: string, plan: PlanResult)
    requires !s.main.InResearch? && !s.main.InPlan? && !s.main.PlanOut? && PlanOk(cfg.j, s.main, s.planned, plan)
    ensures var t := ApplyMain(cfg, s, c, prompt);
      t.e.h.results == s.e.h.results && PlanOk(cfg.j, t.main, t.planned, plan)
  {
  }

  lemma StepKeepsPlan(cfg: Config, s: Sys, ev: Event)
    requires Sane(cfg.j) && Inv(cfg, s) && PlanInv(cfg, s) && Enabled(cfg, s, ev)
    ensures PlanInv(cfg, Apply(cfg, s, ev))
  {
    match ev
    case MainStep(c, prompt) => MainKeepsPlan(cfg, s, c, prompt);
    case WorkerStep(i, c, prompt) => StepWorkerOk(cfg.j, s.e, i, s.workers[i], c, prompt);
    case Flush =>
    case Crash =>
  }

  lemma {:induction false} RunKeepsPlan(cfg: Config, s: Sys, evs: seq<Event>, t: Sys)
    requires Sane(cfg.j) && Inv(cfg, s) && PlanInv(cfg, s) && Runs(cfg, s, evs, t)
    ensures PlanInv(cfg, t)
    decreases evs
  {
    if evs != [] {
      StepKeepsInv(cfg, s, evs[0]);
      StepKeepsPlan(cfg, s, evs[0]);
      RunKeepsPlan(cfg, Apply(cfg, s, evs[0]), evs[1..], t);
    }
  }

  /** One worker per planned task: from the fan-out on, the workers are exactly as many as the tasks of the
      plan session's own output, which validated and has at least one. */
  lemma WorkersMatchPlan(cfg: Config, s: Sys, evs: seq<Event>, t: Sys)
    requires Sane(cfg.j) && Submitted(s) && Runs(cfg, s, evs, t) && PastPlan(t.main) && !t.main.Spawn?
    ensures var plan := PlanOf(cfg.j, t.e.h.results);
      plan.Tasks? && |plan.tasks| == t.planned == |t.workers| > 0
  {
    SubmittedInv(cfg, s);
    RunKeepsInv(cfg, s, evs, t);
    RunKeepsPlan(cfg, s, evs, t);
    WorkersAsPlanned(t);
  }

  lemma WorkersAsPlanned(s: Sys)
    requires MainOk(s) && PastPlan(s.main) && !s.main.Spawn?
    ensures |s.workers| == s.planned
  {
  }

  /** At most once: over any number of crashes and restarts, no stage gets a second session. */
  lemma AtMostOnce(cfg: Config, s: Sys, evs: seq<Event>, t: Sys, id: StageId)
    requires Sane(cfg.j) && Submitted(s) && Runs(cfg, s, evs, t)
    ensures t.e.h.created[id] <= 1
  {
    SubmittedInv(cfg, s);
    RunKeepsInv(cfg, s, evs, t);
  }

  ghost predicate RunnerHolds(r: Runner, wf: Workflow) {
    (r.pc.Mark? || r.pc.SetSession? || r.pc.Finish? || r.pc.FailWrite?) && r.pc.loc == wf
  }

  ghost predicate WorkerHolds(w: Worker, wf: Workflow) {
    || ((w.ImplCheck? || w.AppendWrite? || w.LinkWrite? || w.Judge? || w.MarkWrite?) && w.loc == wf)
    || ((w.InImpl? || w.InVerify?) && RunnerHolds(w.r, wf))
  }

  /** `wf` is a version of the workflow that exists somewhere: in the store, on disk, or in the hands of
      a goroutine. */
  ghost predicate Held(s: Sys, wf: Workflow) {
    || wf == s.e.store || wf == s.e.disk
    || ((s.main.InResearch? || s.main.InPlan?) && RunnerHolds(s.main.r, wf))
    || ((s.main.AddWrite? || s.main.MergeWrite? || s.main.FinalWrite? || s.main.FailWorkflowWrite?) && s.main.loc == wf)
    || (exists i :: 0 <= i < |s.workers| && WorkerHolds(s.workers[i], wf))
  }

  /** Stage identity: in every version anyone holds, stage IDs are pairwise distinct, also as strings,
      and each output is empty or the stage's own session's result. */
  lemma StageIdentity(cfg: Config, s: Sys, evs: seq<Event>, t: Sys, wf: Workflow, id: string)
    requires Sane(cfg.j) && Submitted(s) && Runs(cfg, s, evs, t) && Held(t, wf)
    ensures forall a, b | 0 <= a < b < |wf.stages| :: Render(id, wf.stages[a].id) != Render(id, wf.stages[b].id)
    ensures forall a | 0 <= a < |wf.stages| :: wf.stages[a].output == "" ||
              (wf.stages[a].id in t.e.h.results && wf.stages[a].output == t.e.h.results[wf.stages[a].id])
  {
    SubmittedInv(cfg, s);
    RunKeepsInv(cfg, s, evs, t);
    HeldIsOk(cfg, t, wf);
    forall a, b | 0 <= a < b < |wf.stages| ensures Render(id, wf.stages[a].id) != Render(id, wf.stages[b].id) {
      if Render(id, wf.stages[a].id) == Render(id, wf.stages[b].id) {
        RenderInjective(id, wf.stages[a].id, wf.stages[b].id);
      }
    }
  }

  lemma WorkerHeldIsOk(j: Json, h: History, i: nat, w: Worker, wf: Workflow)
    requires WorkerOk(j, h, i, w) && WorkerHolds(w, wf)
    ensures VersionOk(wf, h)
  {
  }

  lemma HeldIsOk(cfg: Config, t: Sys, wf: Workflow)
    requires Inv(cfg, t) && Held(t, wf)
    ensures VersionOk(wf, t.e.h)
  {
    if i :| 0 <= i < |t.workers| && WorkerHolds(t.workers[i], wf) {
      WorkerHeldIsOk(cfg.j, t.e.h, i, t.workers[i], wf);
    }
  }

  // ----- recovery ------------------------------------------------------------------------------------

  /** A restarted workflow whose research stage has left pending, on its way to failing. */
  predicate Halted(s: Sys) {
    && s.workers == [] && !HasPending(s.e.store, Research) && !HasPending(s.e.disk, Research)
    && (s.main.Start? || s.main.FailWorkflowGet? || s.main.FailWorkflowWrite? || s.main.Ended?)
    && (s.main.FailWorkflowWrite? ==> !HasPending(s.main.loc, Research))
  }

  lemma {:induction false} HaltedRun(cfg: Config, s: Sys, evs: seq<Event>, t: Sys)
    requires Halted(s) && Runs(cfg, s, evs, t)
    ensures t.e.h == s.e.h
    ensures (forall k | 0 <= k < |evs| :: evs[k] != Crash) && t.main == Ended ==>
              t.e.store.status == WFailed || (s.main == Ended && t.e.store == s.e.store)
    decreases evs
  {
    if evs != [] {
      HaltedRun(cfg, Apply(cfg, s, evs[0]), evs[1..], t);
      assert forall k | 0 <= k < |evs| - 1 :: evs[1..][k] == evs[k + 1];
    }
  }

  /** Once the version on disk shows research past pending, a crash is final: no session is ever created
      again for the workflow, whatever follows, and a run that recovery starts ends Failed. */
  lemma RecoveredEndsFailed(cfg: Config, s: Sys, evs: seq<Event>, t: Sys)
    requires !HasPending(s.e.disk, Research) && Runs(cfg, Apply(cfg, s, Crash), evs, t)
    ensures t.e.h == s.e.h
    ensures s.e.disk.status in {WQueued, WRunning} && t.main == Ended && Crash !in evs ==> t.e.store.status == WFailed
  {
    HaltedRun(cfg, Apply(cfg, s, Crash), evs, t);
  }

  /** And it does show it as soon as any session exists. */
  lemma SessionsMeanResearchLeft(cfg: Config, s: Sys, evs: seq<Event>, t: Sys, id: StageId)
    requires Sane(cfg.j) && Submitted(s) && Runs(cfg, s, evs, t) && t.e.h.created[id] > 0
    ensures !HasPending(t.e.disk, Research) && !HasPending(t.e.store, Research)
  {
    SubmittedInv(cfg, s);
    RunKeepsInv(cfg, s, evs, t);
  }
}
