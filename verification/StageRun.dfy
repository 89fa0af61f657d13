/** Workflows, their stored versions, and one execution of a stage (runStage and markStageFailed in
    internal/workflow/engine.go over the store in internal/workflow/store.go). */
module StageRun {
  import opened Options
  import opened StageNames

  datatype StageStatus = Pending | Running | Done | Failed
  datatype Status = WQueued | WRunning | WDone | WFailed

  datatype Stage = Stage(id: StageId, status: StageStatus, input: string, output: string,
                         session: Option<string>, verifySession: Option<string>)

  /** A version of a workflow, as the store holds it or as a goroutine has copied it. */
  datatype Workflow = Workflow(status: Status, stages: seq<Stage>)

  function NewStage(id: StageId, status: StageStatus, input: string): Stage {
    Stage(id, status, input, "", None, None)
  }

  /** stageIndex: the first stage with this ID, or -1. */
  function StageIndex(stages: seq<Stage>, id: StageId): (r: int)
    ensures -1 <= r < |stages|
    ensures r >= 0 ==> stages[r].id == id
    ensures r == -1 <==> forall k | 0 <= k < |stages| :: stages[k].id != id
  {
    if stages == [] then -1
    else if stages[0].id == id then 0
    else
      var r := StageIndex(stages[1..], id);
      assert forall k | 0 <= k < |stages| - 1 :: stages[1..][k] == stages[k + 1];
      if r == -1 then -1 else r + 1
  }

  /** `wf` with its stage `id`, if it has one, replaced. */
  function Put(wf: Workflow, s: Stage): Workflow {
    var k := StageIndex(wf.stages, s.id);
    if k < 0 then wf else wf.(stages := wf.stages[k := s])
  }

  /** What has happened so far, over all restarts: the stages ever added, the sessions created for each
      stage, the result each stage's session returned, and whether the research stage has been
      persisted as running. */
  datatype History = History(added: set<StageId>, created: multiset<StageId>, results: map<StageId, string>, left: bool)

  ghost predicate Distinct(stages: seq<Stage>) {
    forall a, b | 0 <= a < b < |stages| :: stages[a].id != stages[b].id
  }

  /** One stage of a version: its output is empty or its own session's result, and once research has
      been persisted as running it is pending in no version. */
  predicate StageOk(s: Stage, h: History) {
    && s.id in h.added
    && (s.output == "" || (s.id in h.results && s.output == h.results[s.id]))
    && (h.left && s.id == Research ==> s.status != Pending)
  }

  ghost predicate VersionOk(wf: Workflow, h: History) {
    Distinct(wf.stages) && forall k | 0 <= k < |wf.stages| :: StageOk(wf.stages[k], h)
  }

  /** The store in memory and the last version written to disk. */
  datatype Env = Env(store: Workflow, disk: Workflow, h: History)

  /** Upsert always replaces the version in memory; the write to disk may fail and then changes nothing. */
  function Upsert(e: Env, wf: Workflow, saved: bool): Env {
    e.(store := wf, disk := if saved then wf else e.disk)
  }

  ghost predicate EnvOk(e: Env) {
    VersionOk(e.store, e.h) && VersionOk(e.disk, e.h)
  }

  /** History only grows. */
  ghost predicate Grows(h: History, g: History) {
    && h.added <= g.added && h.created <= g.created && h.left == g.left
    && (forall id | id in h.results :: id in g.results && g.results[id] == h.results[id])
  }

  // ----- one execution of a stage --------------------------------------------------------------------

  /** The answers the outside gives: a success, perhaps with a text; a failure; or, when a session is
      asked for, that no slot is free yet. */
  datatype Answer = Good(text: string) | Bad | Again

  /** Where runStage stands. Every Get and every Upsert is a step of its own; `loc` is the copy the last
      Get returned. */
  datatype Pc =
    | Get1 | Mark(loc: Workflow)
    | Create
    | Get2(session: string) | SetSession(session: string, loc: Workflow)
    | Wait
    | Get3(result: string) | Finish(result: string, loc: Workflow)
    | FailGet | FailWrite(loc: Workflow)
    | Ret(ok: bool)

  datatype Runner = Runner(id: StageId, prompt: string, pc: Pc)

  predicate IsUsageLimit(s: string) {
    exists k | 0 <= k <= |s| ::
      "You've hit your" <= s[k..] || "you've hit your" <= s[k..]
  }

  function StepRunner(e: Env, r: Runner, c: Answer): (Env, Runner) {
    match r.pc
    case Get1 => (e, r.(pc := Mark(e.store)))
    case Mark(loc) =>
      var k := StageIndex(loc.stages, r.id);
      if k < 0 then (e, r.(pc := Ret(false)))
      else
        var wf := Put(loc, loc.stages[k].(status := Running, input := r.prompt));
        if c.Good? then
          (Upsert(e, wf, true).(h := e.h.(left := e.h.left || r.id == Research)), r.(pc := Create))
        else (Upsert(e, wf, false), r.(pc := Ret(false)))
    case Create =>
      (match c
       case Good(session) => (e.(h := e.h.(created := e.h.created + multiset{r.id})), r.(pc := Get2(session)))
       case Bad => (e, r.(pc := FailGet))
       case Again => (e, r))
    case Get2(session) => (e, r.(pc := SetSession(session, e.store)))
    case SetSession(session, loc) =>
      var k := StageIndex(loc.stages, r.id);
      (if k < 0 then e else Upsert(e, Put(loc, loc.stages[k].(session := Some(session))), c.Good?), r.(pc := Wait))
    case Wait =>
      if c.Good? && !IsUsageLimit(c.text) then
        (e.(h := e.h.(results := e.h.results[r.id := c.text])), r.(pc := Get3(c.text)))
      else (e, r.(pc := FailGet))
    case Get3(result) => (e, r.(pc := Finish(result, e.store)))
    case Finish(result, loc) =>
      var k := StageIndex(loc.stages, r.id);
      if k < 0 then (e, r.(pc := Ret(false)))
      else (Upsert(e, Put(loc, loc.stages[k].(output := result, status := Done)), c.Good?), r.(pc := Ret(c.Good?)))
    case FailGet => (e, r.(pc := FailWrite(e.store)))
    case FailWrite(loc) => (MarkFailed(e, loc, r.id, c.Good?), r.(pc := Ret(false)))
    case Ret(_) => (e, r)
  }

  /** The write of markStageFailed. */
  function MarkFailed(e: Env, loc: Workflow, id: StageId, saved: bool): Env {
    var k := StageIndex(loc.stages, id);
    if k < 0 then e else Upsert(e, Put(loc, loc.stages[k].(status := Failed)), saved)
  }

  /** The stage's session has not been asked for yet. */
  predicate Before(pc: Pc) {
    pc.Get1? || pc.Mark? || pc.Create?
  }

  /** What an execution knows: its copy is a good version; it has created at most its one session, and
      only after research left pending; it has seen its own result once its session returned. */
  ghost predicate RunnerOk(r: Runner, h: History) {
    && (match r.pc
        case Mark(loc) => VersionOk(loc, h)
        case SetSession(_, loc) => VersionOk(loc, h)
        case Finish(_, loc) => VersionOk(loc, h)
        case FailWrite(loc) => VersionOk(loc, h)
        case _ => true)
    && (Before(r.pc) ==> h.created[r.id] == 0)
    && (Before(r.pc) || r.pc.Get2? || r.pc.SetSession? || r.pc.Wait? ==> r.id !in h.results)
    && (r.pc.Get3? || r.pc.Finish? ==> r.id in h.results && h.results[r.id] == r.pc.result)
    && (r.pc == Ret(true) ==> r.id in h.results)
    && h.created[r.id] <= 1
    && (r.id == Research && (r.pc.Get1? || r.pc.Mark?) ==> !h.left)
    && (h.left || (r.id == Research && (r.pc.Get1? || r.pc.Mark? || r.pc == Ret(false))))
  }

  /** One step of an execution of stage `id` touches the history of that stage only. */
  ghost predicate OnlyAbout(id: StageId, h: History, g: History) {
    && g.added == h.added && (h.left ==> g.left) && (g.left != h.left ==> id == Research)
    && (forall x | x != id :: g.created[x] == h.created[x])
    && (forall x | x != id :: (x in g.results <==> x in h.results) && (x in h.results ==> g.results[x] == h.results[x]))
    && (id in h.results ==> id in g.results && g.results[id] == h.results[id])
    && h.created[id] <= g.created[id]
  }

  lemma LocalStageOk(loc: Workflow, k: int, h: History)
    requires VersionOk(loc, h) && 0 <= k < |loc.stages|
    ensures StageOk(loc.stages[k], h)
  {
  }

  lemma MarkFailedOk(e: Env, loc: Workflow, id: StageId, saved: bool)
    requires EnvOk(e) && VersionOk(loc, e.h)
    ensures EnvOk(MarkFailed(e, loc, id, saved)) && MarkFailed(e, loc, id, saved).h == e.h
  {
    var k := StageIndex(loc.stages, id);
    if k >= 0 {
      LocalStageOk(loc, k, e.h);
    }
  }

  lemma AskOk(e: Env, r: Runner, c: Answer)
    requires EnvOk(e) && RunnerOk(r, e.h) && (r.pc.Create? || r.pc.Wait?)
    ensures var (e', r') := StepRunner(e, r, c); EnvOk(e') && RunnerOk(r', e'.h) && OnlyAbout(r.id, e.h, e'.h)
  {
  }

  lemma RecordOk(e: Env, r: Runner, c: Answer)
    requires EnvOk(e) && RunnerOk(r, e.h) && (r.pc.SetSession? || r.pc.Finish?)
    ensures var (e', r') := StepRunner(e, r, c); EnvOk(e') && RunnerOk(r', e'.h) && e'.h == e.h
  {
    var loc := r.pc.loc;
    var k := StageIndex(loc.stages, r.id);
    if k >= 0 {
      LocalStageOk(loc, k, e.h);
    }
  }

  lemma ReadOk(e: Env, r: Runner, c: Answer)
    requires EnvOk(e) && RunnerOk(r, e.h) && (r.pc.Get1? || r.pc.Get2? || r.pc.Get3? || r.pc.FailGet? || r.pc.Ret?)
    ensures var (e', r') := StepRunner(e, r, c); e' == e && RunnerOk(r', e.h)
  {
  }

  /** Every step of an execution keeps all versions good, keeps what the execution knows, and touches
      the history of its own stage only. */
  lemma RunnerStepOk(e: Env, r: Runner, c: Answer)
    requires EnvOk(e) && RunnerOk(r, e.h)
    ensures var (e', r') := StepRunner(e, r, c);
      EnvOk(e') && RunnerOk(r', e'.h) && r'.id == r.id && OnlyAbout(r.id, e.h, e'.h)
  {
    if r.pc.Create? || r.pc.Wait? {
      AskOk(e, r, c);
    } else if r.pc.SetSession? || r.pc.Finish? {
      RecordOk(e, r, c);
    } else if r.pc.FailWrite? {
      MarkFailedOk(e, r.pc.loc, r.id, c.Good?);
    } else if !r.pc.Mark? {
      ReadOk(e, r, c);
    }
  }
}
