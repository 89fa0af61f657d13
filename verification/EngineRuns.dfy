/** A workflow in which every call goes well, from its submission to Done, for any plan; and what each decision of a
    worker rests on. */
module EngineRuns {
  import opened Options
  import opened StageNames
  import opened StageRun
  import opened StageAlone
  import opened Extraction
  import opened Workers
  import opened Engine

  // ----- the decisions of a worker -------------------------------------------------------------------

  /** The stage a version has under this ID. */
  function StageOf(wf: Workflow, id: StageId): Option<Stage> {
    var k := StageIndex(wf.stages, id);
    if k < 0 then None else Some(wf.stages[k])
  }

  /** Where a worker goes next, and on what: the two gates open exactly on the outputs of the task's own two stages. */
  lemma DecidesExactly(j: Json, e: Env, i: nat, w: Worker, c: Answer, prompt: string)
    ensures var w' := StepWorker(j, e, i, w, c, prompt).1;
      && (w.InImpl? && w.r.pc.Ret? ==> w' == if w.r.pc.ok then ImplGet else SetErr)
      && (w.ImplCheck? ==> (w' == AppendGet <==>
            StageOf(w.loc, Implement(i)).Some? && ImplementOk(j, StageOf(w.loc, Implement(i)).value.output)))
      && (w.ImplCheck? && w' != AppendGet ==> w' == if StageOf(w.loc, Implement(i)).Some? then MarkGet else SetErr)
      && (w.LinkWrite? ==> w' == if w.ok then OutGet else SetErr)
      && (w.Judge? ==> w' == if VerifyPasses(j, OutputOf(w.loc, Verify(i))) then AddBranch else MarkGet)
      && (w.Judge? && StageOf(w.loc, Verify(i)).Some? ==>
            OutputOf(w.loc, Verify(i)) == StageOf(w.loc, Verify(i)).value.output)
      && (w.MarkWrite? ==> w' == SetErr)
  {
  }

  /** And what it writes: a pending verify stage, the link to its session, or the mark of failure. */
  lemma WritesExactly(j: Json, e: Env, i: nat, w: Worker, c: Answer, prompt: string)
    ensures var e' := StepWorker(j, e, i, w, c, prompt).0;
      && (w.AppendWrite? ==> e'.store == w.loc.(stages := w.loc.stages + [NewStage(Verify(i), Pending, "")]))
      && (w.LinkWrite? && StageOf(w.loc, Verify(i)).Some? && StageOf(w.loc, Implement(i)).Some? ==>
            Rewritten(e'.store, w.loc, Implement(i),
                      StageOf(w.loc, Implement(i)).value.(verifySession := StageOf(w.loc, Verify(i)).value.session)))
      && (w.MarkWrite? && StageOf(w.loc, Implement(i)).Some? ==>
            Rewritten(e'.store, w.loc, Implement(i), StageOf(w.loc, Implement(i)).value.(status := Failed)))
      && (w.AppendWrite? || (w.LinkWrite? && e'.store != e.store) || (w.MarkWrite? && e'.store != e.store) ==>
            e'.disk == if c.Good? then e'.store else e.disk)
  {
  }

  // ----- putting runs together -----------------------------------------------------------------------

  lemma {:induction false} Join(cfg: Config, s: Sys, es: seq<Event>, m: Sys, fs: seq<Event>, t: Sys)
    requires Runs(cfg, s, es, m) && Runs(cfg, m, fs, t)
    ensures Runs(cfg, s, es + fs, t)
    decreases |es|
  {
    if es == [] {
      assert es + fs == fs;
    } else {
      var all := es + fs;
      assert all[0] == es[0] && all[1..] == es[1..] + fs;
      Join(cfg, Apply(cfg, s, es[0]), es[1..], m, fs, t);
    }
  }

  /** One more step. */
  lemma Then(cfg: Config, s: Sys, es: seq<Event>, m: Sys, ev: Event) returns (fs: seq<Event>, t: Sys)
    requires Runs(cfg, s, es, m) && Enabled(cfg, m, ev)
    ensures Runs(cfg, s, fs, t) && t == Apply(cfg, m, ev)
  {
    t := Apply(cfg, m, ev);
    fs := es + [ev];
    Join(cfg, s, es, m, [ev], t);
  }

  /** A write whose save failed reaches the disk with any later save, of whatever workflow. */
  lemma FlushSaves(cfg: Config, s: Sys)
    ensures Runs(cfg, s, [Flush], s.(e := s.e.(disk := s.e.store)))
  {
  }

  // ----- a stage's execution inside the engine -------------------------------------------------------

  function WithMainRunner(s: Sys, step: (Env, Runner)): Sys {
    s.(e := step.0, main := if s.main.InResearch? then InResearch(step.1) else InPlan(step.1))
  }

  lemma {:induction false} DriveMainRunner(cfg: Config, s: Sys, cs: seq<Answer>) returns (es: seq<Event>)
    requires (s.main.InResearch? || s.main.InPlan?) && UnderWay(s.e, s.main.r, cs)
    ensures Runs(cfg, s, es, WithMainRunner(s, RunStage(s.e, s.main.r, cs)))
    decreases |cs|
  {
    if cs == [] {
      es := [];
    } else {
      var ev := MainStep(cs[0], "");
      var rest := DriveMainRunner(cfg, Apply(cfg, s, ev), cs[1..]);
      es := [ev] + rest;
      assert es[1..] == rest;
    }
  }

  /** The answers of a stage whose calls all go well. */
  function AllWell(session: string, text: string): seq<Answer> {
    [OK, OK, Good(session), OK, OK, Good(text), OK, OK]
  }

  // ----- research and plan ---------------------------------------------------------------------------

  /** `wf` has the stage at place k, and nowhere else, and it is done with this output. */
  predicate DoneAt(wf: Workflow, k: nat, id: StageId, text: string) {
    k < |wf.stages| && StageIndex(wf.stages, id) == k && wf.stages[k].status == Done && wf.stages[k].output == text
  }

  lemma ResearchAlone(cfg: Config, s: Sys, text: string) returns (es: seq<Event>, t: Sys)
    requires Submitted(s) && s.main.Start? && !IsUsageLimit(text)
    ensures Runs(cfg, s, es, t) && t == s.(e := t.e, main := PlanStart)
    ensures |t.e.store.stages| == 2 && t.e.store.stages[1] == NewStage(Plan, Pending, "")
    ensures DoneAt(t.e.store, 0, Research, text)
  {
    assert s.e.store.stages[0].id == Research;
    var s1;
    es, s1 := Then(cfg, s, [], s, MainStep(OK, ""));
    StageSucceedsAlone(s1.e, Research, "", 0, "", text);
    var fs := DriveMainRunner(cfg, s1, AllWell("", text));
    var s2 := WithMainRunner(s1, RunStage(s1.e, s1.main.r, AllWell("", text)));
    Join(cfg, s, es, s1, fs, s2);
    var s3;
    es, s3 := Then(cfg, s, es + fs, s2, MainStep(OK, ""));
    es, t := Then(cfg, s, es, s3, MainStep(OK, ""));
  }

  lemma PlanAlone(cfg: Config, s: Sys, text: string) returns (es: seq<Event>, t: Sys)
    requires s.main.PlanStart? && |s.e.store.stages| == 2 && s.e.store.stages[1] == NewStage(Plan, Pending, "")
    requires s.e.store.stages[0].id == Research && !IsUsageLimit(text)
    ensures Runs(cfg, s, es, t) && t == s.(e := t.e, main := PlanOut)
    ensures |t.e.store.stages| == 2 && t.e.store.stages[0] == s.e.store.stages[0] && DoneAt(t.e.store, 1, Plan, text)
  {
    assert StageIndex(s.e.store.stages, Plan) == 1;
    var s1;
    es, s1 := Then(cfg, s, [], s, MainStep(OK, ""));
    StageSucceedsAlone(s1.e, Plan, "", 1, "", text);
    IndexKept(s1.e.store, 1, s1.e.store.stages[1].(status := Done, input := "", session := Some(""), output := text));
    var fs := DriveMainRunner(cfg, s1, AllWell("", text));
    var s2 := WithMainRunner(s1, RunStage(s1.e, s1.main.r, AllWell("", text)));
    Join(cfg, s, es, s1, fs, s2);
    es, t := Then(cfg, s, es + fs, s2, MainStep(OK, ""));
  }

  // ----- the fan-out ---------------------------------------------------------------------------------

  /** The first `done` workers have succeeded, the others wait; of the stages still needed those to run are in the
      store, those to add are not. */
  ghost predicate FannedOut(s: Sys, n: nat, done: nat) {
    && s.main == FanOut && |s.workers| == n && done <= n && !s.firstErr && s.tokens == 0
    && (forall i | 0 <= i < done :: s.workers[i] == Gone(true))
    && (forall i | done <= i < n :: s.workers[i] == Waiting(Implement(i)))
    && s.branches == seq(done, (i: nat) => i)
    && StillNeeded(s.e.store, n, done)
  }

  ghost predicate StillNeeded(wf: Workflow, n: nat, done: nat) {
    && (forall i | done <= i < n :: StageIndex(wf.stages, Implement(i)) >= 0 && StageIndex(wf.stages, Verify(i)) < 0)
    && StageIndex(wf.stages, Merge) < 0
  }

  lemma FanOutStarts(cfg: Config, s: Sys, tasks: seq<Task>) returns (es: seq<Event>, t: Sys)
    requires s.main.PlanOut? && s.workers == [] && s.branches == [] && !s.firstErr && s.tokens == 0
    requires |s.e.store.stages| == 2 && s.e.store.stages[0].id == Research && s.e.store.stages[1].id == Plan
    requires PlanVerdict(cfg.j, OutputOf(s.e.store, Plan)) == Tasks(tasks)
    ensures Runs(cfg, s, es, t) && FannedOut(t, |tasks|, 0)
  {
    var m;
    es, m := StagesAdded(cfg, s, tasks);
    AddedAreThere(s.e.store, tasks);
    t := ApplyMain(cfg, m, OK, "");
    Join(cfg, s, es, m, [MainStep(OK, "")], t);
    es := es + [MainStep(OK, "")];
    IdsInOrder(s.e.store, tasks);
    SpawnsOnePerStage(cfg, m, |tasks|);
    assert t.branches == seq(0, (i: nat) => i);
  }

  /** An accepted plan adds one pending stage per task, in order, with the task's description for its prompt. */
  lemma StagesAdded(cfg: Config, s: Sys, tasks: seq<Task>) returns (es: seq<Event>, t: Sys)
    requires s.main.PlanOut? && StageIndex(s.e.store.stages, Plan) >= 0
    requires PlanVerdict(cfg.j, OutputOf(s.e.store, Plan)) == Tasks(tasks)
    ensures Runs(cfg, s, es, t) && t == s.(e := t.e, main := Spawn, planned := |tasks|)
    ensures t.e.store == t.e.disk == s.e.store.(stages := s.e.store.stages + ImplementStages(tasks))
    ensures |ImplementStages(tasks)| == |tasks|
    ensures forall i: nat | i < |tasks| :: var st := ImplementStages(tasks)[i];
      st.id == Implement(i) && st.status == Pending && st.input == tasks[i].description && st.output == ""
      && st.session.None? && st.verifySession.None?
  {
    var s1 := s.(main := AddGet(tasks));
    var s2 := s1.(main := AddWrite(tasks, s.e.store));
    Join(cfg, s, [MainStep(OK, "")], s1, [MainStep(OK, "")], s2);
    t := ApplyMain(cfg, s2, OK, "");
    es := [MainStep(OK, "")] + [MainStep(OK, "")] + [MainStep(OK, "")];
    Join(cfg, s, [MainStep(OK, "")] + [MainStep(OK, "")], s2, [MainStep(OK, "")], t);
  }

  lemma AddedAreThere(wf: Workflow, tasks: seq<Task>)
    requires |wf.stages| == 2 && wf.stages[0].id == Research && wf.stages[1].id == Plan
    ensures StillNeeded(wf.(stages := wf.stages + ImplementStages(tasks)), |tasks|, 0)
  {
    var all := wf.stages + ImplementStages(tasks);
    forall i: nat | i < |tasks| ensures StageIndex(all, Implement(i)) >= 0 {
      assert all[2 + i].id == Implement(i);
    }
    forall k | 0 <= k < |all| ensures all[k].id == Research || all[k].id == Plan || all[k].id.Implement? {
      if k >= 2 { assert all[k] == ImplementStages(tasks)[k - 2]; }
    }
  }

  lemma IdsInOrder(wf: Workflow, tasks: seq<Task>)
    requires |wf.stages| == 2 && wf.stages[0].id == Research && wf.stages[1].id == Plan
    ensures ImplementIds(wf.stages + ImplementStages(tasks)) == seq(|tasks|, (i: nat) => Implement(i))
  {
    ImplementIdsOfStart(wf.stages);
    ImplementIdsAppend(wf.stages, ImplementStages(tasks));
    assert [] + seq(|tasks|, (i: nat) => Implement(i)) == seq(|tasks|, (i: nat) => Implement(i));
    assert |ImplementStages(tasks)| == |tasks|;
  }

  lemma SpawnsOnePerStage(cfg: Config, m: Sys, n: nat)
    requires m.main.Spawn? && ImplementIds(m.e.store.stages) == seq(n, (i: nat) => Implement(i))
    ensures ApplyMain(cfg, m, OK, "") == m.(workers := seq(n, (i: nat) => Waiting(Implement(i))), main := FanOut)
  {
    var ids := ImplementIds(m.e.store.stages);
    assert seq(|ids|, i requires 0 <= i < |ids| => Waiting(ids[i])) == seq(n, (i: nat) => Waiting(Implement(i)));
  }

  // ----- one worker ----------------------------------------------------------------------------------

  /** The two versions have the same stages, but perhaps for one. */
  ghost predicate SameStages(a: Workflow, b: Workflow, but: StageId) {
    forall id | id != but :: StageIndex(a.stages, id) >= 0 <==> StageIndex(b.stages, id) >= 0
  }

  /** A worker's step that takes no part in the fan-out's books. */
  predicate Inner(w: Worker) {
    !w.Waiting? && !w.SetErr? && !w.AddBranch? && !w.Leave? && !w.Gone?
  }

  function At(s: Sys, i: nat, step: (Env, Worker)): Sys
    requires i < |s.workers|
  {
    s.(e := step.0, workers := s.workers[i := step.1])
  }

  /** The inner steps of a worker, one answer each. */
  function RunWorker(j: Json, e: Env, i: nat, w: Worker, cs: seq<Answer>): (Env, Worker)
    decreases |cs|
  {
    if cs == [] then (e, w) else
    var (e1, w1) := StepWorker(j, e, i, w, cs[0], "");
    RunWorker(j, e1, i, w1, cs[1..])
  }

  predicate StaysInner(j: Json, e: Env, i: nat, w: Worker, cs: seq<Answer>)
    decreases |cs|
  {
    cs == [] || (Inner(w) && var (e1, w1) := StepWorker(j, e, i, w, cs[0], ""); StaysInner(j, e1, i, w1, cs[1..]))
  }

  lemma {:induction false} DriveWorker(cfg: Config, s: Sys, i: nat, cs: seq<Answer>) returns (es: seq<Event>)
    requires i < |s.workers| && StaysInner(cfg.j, s.e, i, s.workers[i], cs)
    ensures Runs(cfg, s, es, At(s, i, RunWorker(cfg.j, s.e, i, s.workers[i], cs)))
    decreases |cs|
  {
    if cs == [] {
      es := [];
      assert s.workers[i := s.workers[i]] == s.workers;
    } else {
      var ev := WorkerStep(i, cs[0], "");
      var step := StepWorker(cfg.j, s.e, i, s.workers[i], cs[0], "");
      var rest := DriveWorker(cfg, At(s, i, step), i, cs[1..]);
      es := [ev] + rest;
      assert es[1..] == rest;
      AtTwice(s, i, step, RunWorker(cfg.j, step.0, i, step.1, cs[1..]));
    }
  }

  lemma AtTwice(s: Sys, i: nat, a: (Env, Worker), b: (Env, Worker))
    requires i < |s.workers|
    ensures At(At(s, i, a), i, b) == At(s, i, b)
  {
  }

  lemma {:induction false} RunWorkerJoin(j: Json, e: Env, i: nat, w: Worker, cs: seq<Answer>, ds: seq<Answer>)
    ensures var (e1, w1) := RunWorker(j, e, i, w, cs);
      && RunWorker(j, e, i, w, cs + ds) == RunWorker(j, e1, i, w1, ds)
      && (StaysInner(j, e, i, w, cs) && StaysInner(j, e1, i, w1, ds) ==> StaysInner(j, e, i, w, cs + ds))
    decreases |cs|
  {
    if cs == [] {
      assert cs + ds == ds;
    } else {
      var (e1, w1) := StepWorker(j, e, i, w, cs[0], "");
      assert (cs + ds)[1..] == cs[1..] + ds;
      RunWorkerJoin(j, e1, i, w1, cs[1..], ds);
    }
  }

  /** A stage's execution inside a worker. */
  lemma {:induction false} RunnerInWorker(j: Json, e: Env, i: nat, r: Runner, cs: seq<Answer>)
    requires UnderWay(e, r, cs)
    ensures var (e1, r1) := RunStage(e, r, cs);
      && RunWorker(j, e, i, InImpl(r), cs) == (e1, InImpl(r1)) && StaysInner(j, e, i, InImpl(r), cs)
      && RunWorker(j, e, i, InVerify(r), cs) == (e1, InVerify(r1)) && StaysInner(j, e, i, InVerify(r), cs)
    decreases |cs|
  {
    if cs != [] {
      var (e1, r1) := StepRunner(e, r, cs[0]);
      RunnerInWorker(j, e1, i, r1, cs[1..]);
    }
  }

  /** Two inner steps, and three. */
  lemma Two(j: Json, e: Env, i: nat, w: Worker)
    ensures var (e1, w1) := StepWorker(j, e, i, w, OK, "");
      && RunWorker(j, e, i, w, [OK, OK]) == StepWorker(j, e1, i, w1, OK, "")
      && (Inner(w) && Inner(w1) ==> StaysInner(j, e, i, w, [OK, OK]))
  {
    var (e1, w1) := StepWorker(j, e, i, w, OK, "");
    var (e2, w2) := StepWorker(j, e1, i, w1, OK, "");
    assert [OK, OK][1..] == [OK] && [OK][1..] == [];
    assert RunWorker(j, e2, i, w2, []) == (e2, w2);
    assert RunWorker(j, e1, i, w1, [OK]) == (e2, w2);
  }

  lemma Four(j: Json, e: Env, i: nat, w: Worker)
    ensures var (e1, w1) := StepWorker(j, e, i, w, OK, "");
      var (e2, w2) := StepWorker(j, e1, i, w1, OK, "");
      var (e3, w3) := StepWorker(j, e2, i, w2, OK, "");
      && RunWorker(j, e, i, w, [OK, OK] + [OK, OK]) == StepWorker(j, e3, i, w3, OK, "")
      && (Inner(w) && Inner(w1) && Inner(w2) && Inner(w3) ==> StaysInner(j, e, i, w, [OK, OK] + [OK, OK]))
  {
    var (e1, w1) := StepWorker(j, e, i, w, OK, "");
    var (e2, w2) := StepWorker(j, e1, i, w1, OK, "");
    Two(j, e, i, w);
    Two(j, e2, i, w2);
    RunWorkerJoin(j, e, i, w, [OK, OK], [OK, OK]);
  }

  /** `w` goes to `w2` and `e` to `e2` by inner steps. */
  ghost predicate Leads(j: Json, e: Env, i: nat, w: Worker, e2: Env, w2: Worker) {
    exists cs :: StaysInner(j, e, i, w, cs) && RunWorker(j, e, i, w, cs) == (e2, w2)
  }

  lemma LeadsJoin(j: Json, e: Env, i: nat, w: Worker, e1: Env, w1: Worker, e2: Env, w2: Worker)
    requires Leads(j, e, i, w, e1, w1) && Leads(j, e1, i, w1, e2, w2)
    ensures Leads(j, e, i, w, e2, w2)
  {
    var cs :| StaysInner(j, e, i, w, cs) && RunWorker(j, e, i, w, cs) == (e1, w1);
    var ds :| StaysInner(j, e1, i, w1, ds) && RunWorker(j, e1, i, w1, ds) == (e2, w2);
    RunWorkerJoin(j, e, i, w, cs, ds);
  }

  /** A stage's execution inside a worker, with every call going well. */
  lemma StageInWorker(j: Json, e: Env, i: nat, id: StageId, k: nat, text: string) returns (e1: Env)
    requires k == StageIndex(e.store.stages, id) && !IsUsageLimit(text)
    ensures Leads(j, e, i, InImpl(Runner(id, "", Get1)), e1, InImpl(Runner(id, "", Ret(true))))
    ensures Leads(j, e, i, InVerify(Runner(id, "", Get1)), e1, InVerify(Runner(id, "", Ret(true))))
    ensures e1.store ==
      With(e.store, k, e.store.stages[k].(status := Done, input := "", session := Some(""), output := text))
    ensures forall x :: StageIndex(e1.store.stages, x) == StageIndex(e.store.stages, x)
  {
    var r := Runner(id, "", Get1);
    StageSucceedsAlone(e, id, "", k, "", text);
    RunnerInWorker(j, e, i, r, AllWell("", text));
    e1 := RunStage(e, r, AllWell("", text)).0;
    IndexKept(e.store, k, e.store.stages[k].(status := Done, input := "", session := Some(""), output := text));
  }

  /** The implement gate opens. */
  lemma ImplementPart(j: Json, e: Env, i: nat, k: nat, text: string) returns (e1: Env)
    requires k == StageIndex(e.store.stages, Implement(i)) && !IsUsageLimit(text) && ImplementOk(j, text)
    ensures Leads(j, e, i, InImpl(Runner(Implement(i), "", Get1)), e1, AppendWrite(e1.store))
    ensures forall x :: StageIndex(e1.store.stages, x) == StageIndex(e.store.stages, x)
  {
    e1 := StageInWorker(j, e, i, Implement(i), k, text);
    Four(j, e1, i, InImpl(Runner(Implement(i), "", Ret(true))));
    assert Leads(j, e1, i, InImpl(Runner(Implement(i), "", Ret(true))), e1, AppendWrite(e1.store));
    LeadsJoin(j, e, i, InImpl(Runner(Implement(i), "", Get1)), e1, InImpl(Runner(Implement(i), "", Ret(true))),
              e1, AppendWrite(e1.store));
  }

  /** The verify stage is added and run. */
  lemma VerifyPart(j: Json, e: Env, i: nat, text: string) returns (e1: Env)
    requires StageIndex(e.store.stages, Verify(i)) < 0 && !IsUsageLimit(text)
    ensures Leads(j, e, i, AppendWrite(e.store), e1, InVerify(Runner(Verify(i), "", Ret(true))))
    ensures StageIndex(e1.store.stages, Verify(i)) >= 0 && OutputOf(e1.store, Verify(i)) == text
    ensures SameStages(e.store, e1.store, Verify(i))
  {
    var (e2, w2) := StepWorker(j, e, i, AppendWrite(e.store), OK, "");
    LeadsOne(j, e, i, AppendWrite(e.store));
    var v := |e.store.stages|;
    Appended(e.store.stages, NewStage(Verify(i), Pending, ""));
    e1 := StageInWorker(j, e2, i, Verify(i), v, text);
    LeadsJoin(j, e, i, AppendWrite(e.store), e2, w2, e1, InVerify(Runner(Verify(i), "", Ret(true))));
  }

  lemma Appended(stages: seq<Stage>, s: Stage)
    ensures forall x | x != s.id :: StageIndex(stages, x) >= 0 <==> StageIndex(stages + [s], x) >= 0
    ensures StageIndex(stages, s.id) < 0 ==> StageIndex(stages + [s], s.id) == |stages|
  {
    forall x | x != s.id ensures StageIndex(stages, x) >= 0 <==> StageIndex(stages + [s], x) >= 0 {
      if StageIndex(stages, x) >= 0 { assert (stages + [s])[StageIndex(stages, x)].id == x; }
      if StageIndex(stages + [s], x) >= 0 { assert stages[StageIndex(stages + [s], x)].id == x; }
    }
    if StageIndex(stages, s.id) < 0 {
      assert (stages + [s])[|stages|].id == s.id;
      assert forall k | 0 <= k < |stages| :: (stages + [s])[k].id != s.id;
    }
  }

  /** The verify gate opens. */
  lemma JudgePart(j: Json, e: Env, i: nat) returns (e1: Env)
    requires StageIndex(e.store.stages, Verify(i)) >= 0 && VerifyPasses(j, OutputOf(e.store, Verify(i)))
    ensures Leads(j, e, i, InVerify(Runner(Verify(i), "", Ret(true))), e1, AddBranch)
    ensures SameStages(e.store, e1.store, Verify(i))
  {
    var w := InVerify(Runner(Verify(i), "", Ret(true)));
    e1 := LinkPart(j, e, i);
    LeadsOne(j, e1, i, OutGet);
    LeadsOne(j, e1, i, Judge(e1.store));
    LeadsJoin(j, e1, i, OutGet, e1, Judge(e1.store), e1, AddBranch);
    LeadsJoin(j, e, i, w, e1, OutGet, e1, AddBranch);
  }

  /** The verify session is recorded on the implement stage. */
  lemma LinkPart(j: Json, e: Env, i: nat) returns (e1: Env)
    ensures Leads(j, e, i, InVerify(Runner(Verify(i), "", Ret(true))), e1, OutGet)
    ensures OutputOf(e1.store, Verify(i)) == OutputOf(e.store, Verify(i)) && SameStages(e.store, e1.store, Verify(i))
  {
    var w := InVerify(Runner(Verify(i), "", Ret(true)));
    Linked(e.store, i);
    LeadsOne(j, e, i, w);
    LeadsOne(j, e, i, LinkGet(true));
    LeadsJoin(j, e, i, w, e, LinkGet(true), e, LinkWrite(true, e.store));
    e1 := StepWorker(j, e, i, LinkWrite(true, e.store), OK, "").0;
    LeadsOne(j, e, i, LinkWrite(true, e.store));
    LeadsJoin(j, e, i, w, e, LinkWrite(true, e.store), e1, OutGet);
  }

  lemma LeadsOne(j: Json, e: Env, i: nat, w: Worker)
    requires Inner(w)
    ensures var (e1, w1) := StepWorker(j, e, i, w, OK, ""); Leads(j, e, i, w, e1, w1)
  {
    var (e1, w1) := StepWorker(j, e, i, w, OK, "");
    var cs := [OK];
    assert cs[0] == OK && cs[1..] == [];
    assert RunWorker(j, e1, i, w1, cs[1..]) == (e1, w1) && StaysInner(j, e1, i, w1, cs[1..]);
    assert StaysInner(j, e, i, w, cs);
  }

  /** Recording the verify session on the implement stage leaves the verify stage and all places as they are. */
  lemma Linked(wf: Workflow, i: nat)
    ensures var v, k := StageIndex(wf.stages, Verify(i)), StageIndex(wf.stages, Implement(i));
      v >= 0 && k >= 0 ==>
        var out := Put(wf, wf.stages[k].(verifySession := wf.stages[v].session));
        OutputOf(out, Verify(i)) == OutputOf(wf, Verify(i)) && SameStages(wf, out, Verify(i))
  {
    var v, k := StageIndex(wf.stages, Verify(i)), StageIndex(wf.stages, Implement(i));
    if v >= 0 && k >= 0 {
      IndexKept(wf, k, wf.stages[k].(verifySession := wf.stages[v].session));
    }
  }

  /** From the start of its implement stage to the branch, with every call going well. */
  lemma ToBranch(j: Json, e: Env, i: nat, it: string, vt: string) returns (e1: Env)
    requires StageIndex(e.store.stages, Implement(i)) >= 0 && StageIndex(e.store.stages, Verify(i)) < 0
    requires !IsUsageLimit(it) && ImplementOk(j, it) && !IsUsageLimit(vt) && VerifyPasses(j, vt)
    ensures Leads(j, e, i, InImpl(Runner(Implement(i), "", Get1)), e1, AddBranch)
    ensures SameStages(e.store, e1.store, Verify(i))
  {
    var w, done := InImpl(Runner(Implement(i), "", Get1)), InVerify(Runner(Verify(i), "", Ret(true)));
    var a := ImplementPart(j, e, i, StageIndex(e.store.stages, Implement(i)), it);
    var b := VerifyPart(j, a, i, vt);
    LeadsJoin(j, e, i, w, a, AppendWrite(a.store), b, done);
    e1 := JudgePart(j, b, i);
    LeadsJoin(j, e, i, w, b, done, e1, AddBranch);
  }

  /** One more worker of the fan-out succeeds. */
  lemma WorkerSucceeds(cfg: Config, s: Sys, n: nat, i: nat, it: string, vt: string) returns (es: seq<Event>, t: Sys)
    requires FannedOut(s, n, i) && i < n && cfg.maxWorkers > 0 && Passes(cfg.j, it, vt)
    ensures Runs(cfg, s, es, t) && FannedOut(t, n, i + 1)
  {
    es, t := WorkerAlone(cfg, s, i, it, vt);
    NextFannedOut(s, n, i, t);
  }

  lemma WorkerAlone(cfg: Config, s: Sys, i: nat, it: string, vt: string) returns (es: seq<Event>, t: Sys)
    requires i < |s.workers| && s.workers[i] == Waiting(Implement(i)) && s.tokens == 0 && cfg.maxWorkers > 0
    requires StageIndex(s.e.store.stages, Implement(i)) >= 0 && StageIndex(s.e.store.stages, Verify(i)) < 0
    requires Passes(cfg.j, it, vt)
    ensures Runs(cfg, s, es, t) && SameStages(s.e.store, t.e.store, Verify(i))
    ensures t == s.(e := t.e, workers := s.workers[i := Gone(true)], branches := s.branches + [i])
  {
    var s1 := s.(workers := s.workers[i := InImpl(Runner(Implement(i), "", Get1))], tokens := 1);
    var e := ToBranch(cfg.j, s1.e, i, it, vt);
    var s2 := At(s1, i, (e, AddBranch));
    var fs := DriveLeads(cfg, s1, i, e, AddBranch);
    var gs;
    gs, t := Leaves(cfg, s2, i);
    es := [WorkerStep(i, OK, "")] + fs + gs;
    Join(cfg, s, [WorkerStep(i, OK, "")], s1, fs, s2);
    Join(cfg, s, [WorkerStep(i, OK, "")] + fs, s2, gs, t);
    assert t.workers == s.workers[i := Gone(true)];
  }

  lemma DriveLeads(cfg: Config, s: Sys, i: nat, e: Env, w: Worker) returns (es: seq<Event>)
    requires i < |s.workers| && Leads(cfg.j, s.e, i, s.workers[i], e, w)
    ensures Runs(cfg, s, es, At(s, i, (e, w)))
  {
    var cs :| StaysInner(cfg.j, s.e, i, s.workers[i], cs) && RunWorker(cfg.j, s.e, i, s.workers[i], cs) == (e, w);
    es := DriveWorker(cfg, s, i, cs);
  }

  lemma Leaves(cfg: Config, s: Sys, i: nat) returns (es: seq<Event>, t: Sys)
    requires i < |s.workers| && s.workers[i] == AddBranch && s.tokens == 1
    ensures Runs(cfg, s, es, t)
    ensures t == s.(workers := s.workers[i := Gone(true)], branches := s.branches + [i], tokens := 0)
  {
    var ev := WorkerStep(i, OK, "");
    var s1 := Apply(cfg, s, ev);
    t := Apply(cfg, s1, ev);
    es := [ev] + [ev];
    Join(cfg, s, [ev], s1, [ev], t);
    assert s.workers[i := Leave(true)][i := Gone(true)] == s.workers[i := Gone(true)];
  }

  lemma NextFannedOut(s: Sys, n: nat, i: nat, t: Sys)
    requires FannedOut(s, n, i) && i < n && SameStages(s.e.store, t.e.store, Verify(i))
    requires t == s.(e := t.e, workers := s.workers[i := Gone(true)], branches := s.branches + [i])
    ensures FannedOut(t, n, i + 1)
  {
  }

  /** The outputs of a task that pass its two gates. */
  predicate Passes(j: Json, it: string, vt: string) {
    !IsUsageLimit(it) && ImplementOk(j, it) && !IsUsageLimit(vt) && VerifyPasses(j, vt)
  }

  lemma {:induction false} AllSucceed(cfg: Config, s: Sys, n: nat, i: nat, its: seq<string>, vts: seq<string>)
      returns (es: seq<Event>, t: Sys)
    requires FannedOut(s, n, i) && n == |its| == |vts| && cfg.maxWorkers > 0
    requires forall k | 0 <= k < n :: Passes(cfg.j, its[k], vts[k])
    ensures Runs(cfg, s, es, t) && FannedOut(t, n, n)
    decreases n - i
  {
    if i == n {
      es, t := [], s;
    } else {
      assert Passes(cfg.j, its[i], vts[i]);
      var m, fs;
      es, m := WorkerSucceeds(cfg, s, n, i, its[i], vts[i]);
      fs, t := AllSucceed(cfg, m, n, i + 1, its, vts);
      Join(cfg, s, es, m, fs, t);
      es := es + fs;
    }
  }

  // ----- the merge -----------------------------------------------------------------------------------

  /** After the fan-out: the merge stage is added, the branches are handed over, and its outcome decides. */
  lemma MergeEnds(cfg: Config, s: Sys, merged: bool) returns (es: seq<Event>, t: Sys)
    requires s.main == FanOut && AllGone(s.workers) && StageIndex(s.e.store.stages, Merge) < 0
    ensures Runs(cfg, s, es, t) && t.main == Ended && t.handed == Some(s.branches)
    ensures t.e.store.status == if merged && !s.firstErr then WDone else WFailed
    ensures t.e.disk == t.e.store
    ensures StageOf(t.e.store, Merge).Some? && StageOf(t.e.store, Merge).value.status == if merged then Done else Failed
  {
    Appended(s.e.store.stages, NewStage(Merge, Running, ""));
    var m, fs;
    es, m := ToMergeCall(cfg, s);
    fs, t := MergeDecides(cfg, m, |s.e.store.stages|, merged);
    Join(cfg, s, es, m, fs, t);
    es := es + fs;
  }

  lemma ToMergeCall(cfg: Config, s: Sys) returns (es: seq<Event>, t: Sys)
    requires s.main == FanOut && AllGone(s.workers)
    ensures Runs(cfg, s, es, t) && t == s.(e := t.e, main := MergeCall)
    ensures t.e.store == s.e.store.(stages := s.e.store.stages + [NewStage(Merge, Running, "")])
  {
    var step := [MainStep(OK, "")];
    var s1 := s.(main := MergeGet);
    var s2 := s1.(main := MergeWrite(s.e.store));
    t := ApplyMain(cfg, s2, OK, "");
    Join(cfg, s, step, s1, step, s2);
    Join(cfg, s, step + step, s2, step, t);
    es := step + step + step;
  }

  lemma MergeDecides(cfg: Config, s: Sys, k: nat, merged: bool) returns (es: seq<Event>, t: Sys)
    requires s.main == MergeCall && k == StageIndex(s.e.store.stages, Merge)
    ensures Runs(cfg, s, es, t) && t.main == Ended && t.handed == Some(s.branches) && t.e.disk == t.e.store
    ensures t.e.store.status == if merged && !s.firstErr then WDone else WFailed
    ensures StageOf(t.e.store, Merge).Some? && StageOf(t.e.store, Merge).value.status == if merged then Done else Failed
  {
    var call := MainStep(if merged then OK else Bad, "");
    var s1 := s.(handed := Some(s.branches), main := FinalGet(merged));
    assert Apply(cfg, s, call) == s1;
    var s2 := s1.(main := FinalWrite(merged, s.e.store));
    Join(cfg, s, [call], s1, [MainStep(OK, "")], s2);
    t := FinalWritten(cfg, s2, k, merged);
    Join(cfg, s, [call] + [MainStep(OK, "")], s2, [MainStep(OK, "")], t);
    es := [call] + [MainStep(OK, "")] + [MainStep(OK, "")];
  }

  lemma FinalWritten(cfg: Config, s: Sys, k: nat, merged: bool) returns (t: Sys)
    requires s.main == FinalWrite(merged, s.e.store) && k == StageIndex(s.e.store.stages, Merge)
    ensures Runs(cfg, s, [MainStep(OK, "")], t) && t == s.(e := t.e, main := Ended) && t.e.disk == t.e.store
    ensures t.e.store.status == if merged && !s.firstErr then WDone else WFailed
    ensures StageOf(t.e.store, Merge).Some? && StageOf(t.e.store, Merge).value.status == if merged then Done else Failed
  {
    t := ApplyMain(cfg, s, OK, "");
    IndexKept(s.e.store, k, s.e.store.stages[k].(status := if merged then Done else Failed));
  }

  /** The first two stages, when one fails, and a plan that is rejected: no worker is started, and the workflow ends
      failed. */
  lemma FailureEnds(cfg: Config, s: Sys, saved: bool) returns (es: seq<Event>, t: Sys)
    requires
      || ((s.main.InResearch? || s.main.InPlan?) && s.main.r.pc == Ret(false))
      || (s.main.PlanOut? && !PlanVerdict(cfg.j, OutputOf(s.e.store, Plan)).Tasks?)
    ensures Runs(cfg, s, es, t) && t == s.(e := t.e, main := Ended)
    ensures t.e.store == s.e.store.(status := WFailed) && t.e.disk == if saved then t.e.store else s.e.disk
  {
    var s1, s2 := s.(main := FailWorkflowGet), s.(main := FailWorkflowWrite(s.e.store));
    var end := MainStep(if saved then OK else Bad, "");
    NoArrayInNothing(cfg.j);
    t := Apply(cfg, s2, end);
    Join(cfg, s, [MainStep(OK, "")], s1, [MainStep(OK, "")], s2);
    es := [MainStep(OK, "")] + [MainStep(OK, "")] + [end];
    Join(cfg, s, [MainStep(OK, "")] + [MainStep(OK, "")], s2, [end], t);
  }

  lemma NoArrayInNothing(j: Json)
    ensures PlanVerdict(j, "") == NoArray
  {
    PlanVerdictExactly(j, "");
  }

  // ----- from submission to Done ---------------------------------------------------------------------

  /** Any plan can be carried out: with research and plan answered, every task's two outputs passing its gates, and a
      merge without error, some run ends Done, in memory and on disk, having handed over every task's branch. */
  lemma GoodRunEndsDone(cfg: Config, s: Sys, rt: string, pt: string, tasks: seq<Task>, its: seq<string>,
      vts: seq<string>)
      returns (es: seq<Event>, t: Sys)
    requires Submitted(s) && s.main.Start? && cfg.maxWorkers > 0
    requires !IsUsageLimit(rt) && !IsUsageLimit(pt) && PlanVerdict(cfg.j, pt) == Tasks(tasks)
    requires |its| == |vts| == |tasks| && forall k | 0 <= k < |its| :: Passes(cfg.j, its[k], vts[k])
    ensures Runs(cfg, s, es, t) && t.main == Ended && t.e.disk == t.e.store && t.e.store.status == WDone
    ensures t.handed == Some(seq(|tasks|, (i: nat) => i))
  {
    var es1, s1 := ToFanOut(cfg, s, rt, pt, tasks);
    var es2, s2 := AllSucceed(cfg, s1, |tasks|, 0, its, vts);
    Join(cfg, s, es1, s1, es2, s2);
    var es3;
    es3, t := MergeEnds(cfg, s2, true);
    es := es1 + es2 + es3;
    Join(cfg, s, es1 + es2, s2, es3, t);
  }

  lemma ToFanOut(cfg: Config, s: Sys, rt: string, pt: string, tasks: seq<Task>) returns (es: seq<Event>, t: Sys)
    requires Submitted(s) && s.main.Start?
    requires !IsUsageLimit(rt) && !IsUsageLimit(pt) && PlanVerdict(cfg.j, pt) == Tasks(tasks)
    ensures Runs(cfg, s, es, t) && FannedOut(t, |tasks|, 0)
  {
    var es1, s1 := ResearchAlone(cfg, s, rt);
    var es2, s2 := PlanAlone(cfg, s1, pt);
    Join(cfg, s, es1, s1, es2, s2);
    var es3;
    es3, t := FanOutStarts(cfg, s2, tasks);
    es := es1 + es2 + es3;
    Join(cfg, s, es1 + es2, s2, es3, t);
  }
}
