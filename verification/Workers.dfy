/** One implement worker of the fan-out (the goroutine inside run in internal/workflow/engine.go). */
module Workers {
  import opened Options
  import opened StageNames
  import opened StageRun
  import opened Extraction

  /** Where a worker stands; `loc` is the copy its last Get returned. Waiting is before the semaphore,
      Leave after the outcome is recorded and before the semaphore is given back. */
  datatype Worker =
    | Waiting(stage: StageId)
    | InImpl(r: Runner)
    | ImplGet | ImplCheck(loc: Workflow)
    | AppendGet | AppendWrite(loc: Workflow)
    | InVerify(r: Runner)
    | LinkGet(ok: bool) | LinkWrite(ok: bool, loc: Workflow)
    | OutGet | Judge(loc: Workflow)
    | MarkGet | MarkWrite(loc: Workflow)
    | SetErr | AddBranch
    | Leave(ok: bool) | Gone(ok: bool)

  function OutputOf(wf: Workflow, id: StageId): string {
    var k := StageIndex(wf.stages, id);
    if k < 0 then "" else wf.stages[k].output
  }

  /** One step of the worker for task `i` on the store. */
  function StepWorker(j: Json, e: Env, i: nat, w: Worker, c: Answer, prompt: string): (Env, Worker) {
    match w
    case Waiting(stage) => (e, InImpl(Runner(stage, prompt, Get1)))
    case InImpl(r) =>
      if r.pc.Ret? then (e, if r.pc.ok then ImplGet else SetErr)
      else
        var (e', r') := StepRunner(e, r, c);
        (e', InImpl(r'))
    case ImplGet => (e, ImplCheck(e.store))
    case ImplCheck(loc) =>
      (e, if StageIndex(loc.stages, Implement(i)) < 0 then SetErr
          else if ImplementOk(j, OutputOf(loc, Implement(i))) then AppendGet else MarkGet)
    case AppendGet => (e, AppendWrite(e.store))
    case AppendWrite(loc) =>
      (Upsert(e, loc.(stages := loc.stages + [NewStage(Verify(i), Pending, "")]), c.Good?)
         .(h := e.h.(added := e.h.added + {Verify(i)})),
       InVerify(Runner(Verify(i), prompt, Get1)))
    case InVerify(r) =>
      if r.pc.Ret? then (e, LinkGet(r.pc.ok))
      else
        var (e', r') := StepRunner(e, r, c);
        (e', InVerify(r'))
    case LinkGet(ok) => (e, LinkWrite(ok, e.store))
    case LinkWrite(ok, loc) =>
      var v, k := StageIndex(loc.stages, Verify(i)), StageIndex(loc.stages, Implement(i));
      (if v >= 0 && k >= 0 then Upsert(e, Put(loc, loc.stages[k].(verifySession := loc.stages[v].session)), c.Good?)
        else e,
       if ok then OutGet else SetErr)
    case OutGet => (e, Judge(e.store))
    case Judge(loc) => (e, if VerifyPasses(j, OutputOf(loc, Verify(i))) then AddBranch else MarkGet)
    case MarkGet => (e, MarkWrite(e.store))
    case MarkWrite(loc) => (MarkFailed(e, loc, Implement(i), c.Good?), SetErr)
    case SetErr => (e, Leave(false))
    case AddBranch => (e, Leave(true))
    case Leave(ok) => (e, Gone(ok))
    case Gone(_) => (e, w)
  }

  /** The task's own implement session returned output that validates. */
  predicate Implemented(j: Json, h: History, i: nat) {
    Implement(i) in h.results && ImplementOk(j, h.results[Implement(i)])
  }

  /** Both gates: the task's own implement output validates and its own verify output says pass. */
  predicate Gated(j: Json, h: History, i: nat) {
    Implemented(j, h, i) && Verify(i) in h.results && VerifyPasses(j, h.results[Verify(i)])
  }

  /** Nothing has been done for stage `id`. */
  predicate Untouched(h: History, id: StageId) {
    h.created[id] == 0 && id !in h.results
  }

  predicate VerifyNew(h: History, i: nat) {
    Untouched(h, Verify(i)) && Verify(i) !in h.added
  }

  /** An empty text is no verdict. */
  predicate Sane(j: Json) {
    j.verdict("") == None
  }

  ghost predicate WorkerOk(j: Json, h: History, i: nat, w: Worker) {
    && h.left && h.created[Implement(i)] <= 1 && h.created[Verify(i)] <= 1
    && match w
       case Waiting(stage) => stage == Implement(i) && Untouched(h, Implement(i)) && VerifyNew(h, i)
       case InImpl(r) => r.id == Implement(i) && RunnerOk(r, h) && VerifyNew(h, i)
       case ImplGet => VerifyNew(h, i)
       case ImplCheck(loc) => VersionOk(loc, h) && VerifyNew(h, i)
       case AppendGet => Implemented(j, h, i) && VerifyNew(h, i)
       case AppendWrite(loc) => VersionOk(loc, h) && Implemented(j, h, i) && VerifyNew(h, i)
       case InVerify(r) => r.id == Verify(i) && RunnerOk(r, h) && Implemented(j, h, i)
       case LinkGet(_) => Implemented(j, h, i)
       case LinkWrite(_, loc) => VersionOk(loc, h) && Implemented(j, h, i)
       case OutGet => Implemented(j, h, i)
       case Judge(loc) => VersionOk(loc, h) && Implemented(j, h, i)
       case MarkGet => true
       case MarkWrite(loc) => VersionOk(loc, h)
       case SetErr => true
       case AddBranch => Gated(j, h, i)
       case Leave(ok) => ok ==> Gated(j, h, i)
       case Gone(ok) => ok ==> Gated(j, h, i)
  }

  /** A step of the worker for task `i` touches the history of that task's two stages only. */
  ghost predicate OnlyTask(i: nat, h: History, g: History) {
    && h.added <= g.added <= h.added + {Verify(i)} && g.left == h.left
    && (forall x | x != Implement(i) && x != Verify(i) :: g.created[x] == h.created[x])
    && (forall x | x != Implement(i) && x != Verify(i) ::
          (x in g.results <==> x in h.results) && (x in h.results ==> g.results[x] == h.results[x]))
    && (forall x | x in h.results :: x in g.results && g.results[x] == h.results[x])
  }

  /** The key to surviving lost updates: an output read from any version is empty or the stage's own. */
  lemma OutputIsOwn(wf: Workflow, h: History, id: StageId)
    requires VersionOk(wf, h)
    ensures OutputOf(wf, id) == "" || (id in h.results && OutputOf(wf, id) == h.results[id])
  {
    var k := StageIndex(wf.stages, id);
    if k >= 0 { LocalStageOk(wf, k, h); }
  }

  lemma RunnerPartOk(e: Env, i: nat, r: Runner, c: Answer)
    requires EnvOk(e) && RunnerOk(r, e.h) && (r.id == Implement(i) || r.id == Verify(i)) && e.h.left
    ensures var (e', r') := StepRunner(e, r, c);
      EnvOk(e') && RunnerOk(r', e'.h) && r'.id == r.id && OnlyTask(i, e.h, e'.h) && OnlyAbout(r.id, e.h, e'.h)
  {
    RunnerStepOk(e, r, c);
  }

  lemma LinkOk(e: Env, i: nat, loc: Workflow, saved: bool)
    requires EnvOk(e) && VersionOk(loc, e.h)
    ensures var v, k := StageIndex(loc.stages, Verify(i)), StageIndex(loc.stages, Implement(i));
      v >= 0 && k >= 0 ==> EnvOk(Upsert(e, Put(loc, loc.stages[k].(verifySession := loc.stages[v].session)), saved))
  {
    var v, k := StageIndex(loc.stages, Verify(i)), StageIndex(loc.stages, Implement(i));
    if v >= 0 && k >= 0 {
      LocalStageOk(loc, k, e.h);
    }
  }

  lemma StepRunningOk(j: Json, e: Env, i: nat, w: Worker, c: Answer, prompt: string)
    requires Sane(j) && EnvOk(e) && WorkerOk(j, e.h, i, w) && (w.InImpl? || w.InVerify?)
    ensures var (e', w') :=
        StepWorker(j, e, i, w, c, prompt); EnvOk(e') && WorkerOk(j, e'.h, i, w') && OnlyTask(i, e.h, e'.h)
  {
    if !w.r.pc.Ret? { RunnerPartOk(e, i, w.r, c); }
  }

  lemma StepWritingOk(j: Json, e: Env, i: nat, w: Worker, c: Answer, prompt: string)
    requires Sane(j) && EnvOk(e) && WorkerOk(j, e.h, i, w) && (w.AppendWrite? || w.LinkWrite? || w.MarkWrite?)
    ensures var (e', w') :=
        StepWorker(j, e, i, w, c, prompt); EnvOk(e') && WorkerOk(j, e'.h, i, w') && OnlyTask(i, e.h, e'.h)
  {
    if w.LinkWrite? {
      LinkOk(e, i, w.loc, c.Good?);
    } else if w.MarkWrite? {
      MarkFailedOk(e, w.loc, Implement(i), c.Good?);
    }
  }

  lemma EmptyIsNoVerdict(j: Json)
    requires Sane(j)
    ensures !VerifyPasses(j, "") && !ImplementOk(j, "")
  {
    ImplementOkExactly(j, "");
    ExtractIgnoresTrim("");
    assert TrimSpace("") == "";
  }

  lemma StepDecidingOk(j: Json, e: Env, i: nat, w: Worker, c: Answer, prompt: string)
    requires Sane(j) && EnvOk(e) && WorkerOk(j, e.h, i, w) && (w.ImplCheck? || w.Judge?)
    ensures var (e', w') :=
        StepWorker(j, e, i, w, c, prompt); EnvOk(e') && WorkerOk(j, e'.h, i, w') && OnlyTask(i, e.h, e'.h)
  {
    EmptyIsNoVerdict(j);
    OutputIsOwn(w.loc, e.h, if w.ImplCheck? then Implement(i) else Verify(i));
  }

  /** Every step of a worker keeps all versions good and keeps what the worker knows. */
  lemma StepWorkerOk(j: Json, e: Env, i: nat, w: Worker, c: Answer, prompt: string)
    requires Sane(j) && EnvOk(e) && WorkerOk(j, e.h, i, w)
    ensures var (e', w') :=
        StepWorker(j, e, i, w, c, prompt); EnvOk(e') && WorkerOk(j, e'.h, i, w') && OnlyTask(i, e.h, e'.h)
  {
    if w.InImpl? || w.InVerify? {
      StepRunningOk(j, e, i, w, c, prompt);
    } else if w.ImplCheck? || w.Judge? {
      StepDecidingOk(j, e, i, w, c, prompt);
    } else if w.AppendWrite? || w.LinkWrite? || w.MarkWrite? {
      StepWritingOk(j, e, i, w, c, prompt);
    }
  }

  /** A step of one worker does not disturb another. */
  lemma WorkerStaysOk(j: Json, i: nat, h: History, g: History, k: nat, w: Worker)
    requires WorkerOk(j, h, k, w) && OnlyTask(i, h, g) && k != i
    ensures WorkerOk(j, g, k, w)
  {
  }
}
