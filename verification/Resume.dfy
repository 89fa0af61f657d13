/** Resuming a workflow (Resume and resumeRun in internal/workflow/engine.go), with each Get-to-Upsert
    update of a stage taken as one step and no other run on the workflow. */
module Resume {
  import opened Options
  import opened Sets
  import opened StageNames
  import opened StageRun

  // ----- Resume itself ------------------------------------------------------------------------------

  predicate Resumable(s: Stage) {
    s.status == Failed && s.input != ""
  }

  function Reset(s: Stage): Stage {
    if Resumable(s) then s.(status := Pending) else s
  }

  function ResetAll(stages: seq<Stage>): seq<Stage> {
    seq(|stages|, i requires 0 <= i < |stages| => Reset(stages[i]))
  }

  predicate HasResumable(stages: seq<Stage>) {
    exists i | 0 <= i < |stages| :: Resumable(stages[i])
  }

  /** Resets exactly the failed stages with a saved input; refuses, changing nothing, when there is none. */
  method ResetForResume(wf: Workflow) returns (out: Workflow, ok: bool)
    ensures ok <==> exists k :: 0 <= k < |wf.stages| && wf.stages[k].status == Failed && wf.stages[k].input != ""
    ensures !ok ==> out == wf
    ensures ok ==> out.status == WRunning && |out.stages| == |wf.stages|
    ensures ok ==> forall k | 0 <= k < |wf.stages| && wf.stages[k].status == Failed && wf.stages[k].input != "" ::
      out.stages[k] == wf.stages[k].(status := Pending)
    ensures ok ==> forall k | 0 <= k < |wf.stages| && !(wf.stages[k].status == Failed && wf.stages[k].input != "") ::
      out.stages[k] == wf.stages[k]
    ensures ok <==> HasResumable(wf.stages)
    ensures out == if ok then Workflow(WRunning, ResetAll(wf.stages)) else wf
  {
    var stages, resumable := wf.stages, 0;
    var i := 0;
    while i < |stages|
      invariant 0 <= i <= |stages| == |wf.stages|
      invariant forall k | 0 <= k < i :: stages[k] == Reset(wf.stages[k])
      invariant forall k | i <= k < |stages| :: stages[k] == wf.stages[k]
      invariant resumable > 0 <==> exists k | 0 <= k < i :: Resumable(wf.stages[k])
      invariant resumable >= 0
    {
      if stages[i].status == Failed && stages[i].input != "" {
        stages := stages[i := stages[i].(status := Pending)];
        resumable := resumable + 1;
      }
      i := i + 1;
    }
    if resumable == 0 {
      return wf, false;
    }
    assert stages == ResetAll(wf.stages);
    out, ok := Workflow(WRunning, stages), true;
  }

  // ----- the resumed run -----------------------------------------------------------------------------

  function Lookup(wf: Workflow, id: StageId): Option<Stage> {
    var k := StageIndex(wf.stages, id);
    if k < 0 then None else Some(wf.stages[k])
  }

  /** How a re-run ended: without error, with a stage that is Done but whose last write failed, because the first
      write failed, or because no session could be had or the session failed. */
  datatype End = Saved | Unsaved | Unmarked | Broken

  datatype Place = Todo | Asking | Waiting | Over(end: End)

  /** A stage being re-run, with the prompt taken from its saved input. */
  datatype Job = Job(at: Place, prompt: string)

  /** `sent` lists, over all resumes, the prompts that sessions were created with. */
  datatype Sys = Sys(wf: Workflow, jobs: map<StageId, Job>, running: bool, sent: seq<(StageId, string)>)

  /** `saved` says whether the write to the file went well; the store's memory changes either way. */
  datatype Event =
    | Call(saved: bool)
    | Step(id: StageId, c: Answer, saved: bool)
    | Close

  /** The stages resumeRun picks up: pending with a saved input. */
  ghost function Picked(wf: Workflow): map<StageId, Job> {
    map k | 0 <= k < |wf.stages| && wf.stages[k].status == Pending && wf.stages[k].input != ""
      :: wf.stages[k].id := Job(Todo, Lookup(wf, wf.stages[k].id).value.input)
  }

  ghost predicate Enabled(s: Sys, e: Event) {
    match e
    case Call(_) => !s.running && HasResumable(s.wf.stages)
    case Step(id, _, _) => s.running && id in s.jobs && !s.jobs[id].at.Over?
    case Close => s.running && forall id | id in s.jobs :: s.jobs[id].at.Over?
  }

  predicate AllSaved(jobs: map<StageId, Job>) {
    forall id | id in jobs :: jobs[id].at == Over(Saved)
  }

  function Write(s: Sys, id: StageId, st: Stage, to: Place): Sys
    requires id in s.jobs
  {
    s.(wf := Put(s.wf, st), jobs := s.jobs[id := s.jobs[id].(at := to)])
  }

  ghost function Apply(s: Sys, e: Event): Sys
    requires Enabled(s, e)
  {
    match e
    case Call(saved) =>
      var wf := Workflow(WRunning, ResetAll(s.wf.stages));
      s.(wf := wf, jobs := if saved then Picked(wf) else map[], running := saved)
    case Step(id, c, saved) =>
      var st := Lookup(s.wf, id);
      if st.None? then s.(jobs := s.jobs[id := s.jobs[id].(at := Over(Broken))]) else StepJob(s, id, st.value, c, saved)
    case Close =>
      s.(wf := s.wf.(status := if AllSaved(s.jobs) then WDone else WFailed), running := false, jobs := map[])
  }

  /** runStage on one stage: mark it running, ask for a session, wait, mark it done or failed. */
  function StepJob(s: Sys, id: StageId, st: Stage, c: Answer, saved: bool): Sys
    requires id in s.jobs
  {
    match s.jobs[id].at
    case Todo =>
      Write(s, id, st.(status := Running, input := s.jobs[id].prompt), if saved then Asking else Over(Unmarked))
    case Asking =>
      (match c
       case Good(session) =>
         Write(s, id, st.(session := Some(session)), Waiting).(sent := s.sent + [(id, s.jobs[id].prompt)])
       case Bad => Write(s, id, st.(status := Failed), Over(Broken))
       case Again => s)
    case Waiting =>
      if c.Good? && !IsUsageLimit(c.text)
      then Write(s, id, st.(output := c.text, status := Done), Over(if saved then Saved else Unsaved))
      else Write(s, id, st.(status := Failed), Over(Broken))
    case Over(_) => s
  }

  // ----- what every step keeps -----------------------------------------------------------------------

  lemma PutLookup(wf: Workflow, s: Stage, id: StageId)
    requires Distinct(wf.stages)
    ensures Distinct(Put(wf, s).stages)
    ensures Lookup(Put(wf, s), id) == if id == s.id && Lookup(wf, id).Some? then Some(s) else Lookup(wf, id)
  {
    var k := StageIndex(wf.stages, s.id);
    if k >= 0 {
      SameIds(wf.stages, wf.stages[k := s], id);
    }
  }

  /** Lists with the same IDs in the same places have their stages in the same places. */
  lemma {:induction false} SameIds(a: seq<Stage>, b: seq<Stage>, id: StageId)
    requires |a| == |b| && forall k | 0 <= k < |a| :: a[k].id == b[k].id
    ensures StageIndex(a, id) == StageIndex(b, id)
    decreases a
  {
    if a != [] && a[0].id != id {
      SameIds(a[1..], b[1..], id);
    }
  }

  lemma ResetLookup(wf: Workflow, id: StageId)
    requires Distinct(wf.stages)
    ensures var out := Workflow(WRunning, ResetAll(wf.stages));
      && Distinct(out.stages)
      && Lookup(out, id) == match Lookup(wf, id) case None => None case Some(s) => Some(Reset(s))
  {
    SameIds(wf.stages, ResetAll(wf.stages), id);
  }

  /** The stage where the job stands: pending, running, running with its session recorded, done with it and never
      with a usage-limit message for its output, still running in memory when it could not be marked on disk, or
      failed. */
  predicate StandsAt(st: Stage, at: Place) {
    match at
    case Todo => st.status == Pending
    case Asking => st.status == Running
    case Waiting => st.status == Running && st.session.Some?
    case Over(Saved) => st.status == Done && st.session.Some? && !IsUsageLimit(st.output)
    case Over(Unsaved) => st.status == Done && st.session.Some? && !IsUsageLimit(st.output)
    case Over(Unmarked) => st.status == Running
    case Over(Broken) => st.status == Failed
  }

  /** What a job knows of its stage: it still has the job's prompt as its input, and stands where the job does. */
  predicate JobOk(s: Sys, id: StageId) {
    id in s.jobs ==>
      var st := Lookup(s.wf, id);
      && st.Some? && st.value.id == id && st.value.input == s.jobs[id].prompt != "" && StandsAt(st.value, s.jobs[id].at)
  }

  predicate SentOk(s: Sys, k: nat)
    requires k < |s.sent|
  {
    var st := Lookup(s.wf, s.sent[k].0);
    st.Some? && st.value.input == s.sent[k].1
  }

  ghost predicate Inv(s: Sys) {
    && Distinct(s.wf.stages)
    && (forall id :: JobOk(s, id))
    && (forall k: nat | k < |s.sent| :: SentOk(s, k))
    && (!s.running ==> s.jobs == map[])
  }

  /** What a step may do to one stage: nothing to its input, and nothing at all once it is Done. */
  predicate Respects(s: Sys, t: Sys, id: StageId) {
    var a, b := Lookup(s.wf, id), Lookup(t.wf, id);
    && (a.Some? <==> b.Some?)
    && (a.Some? ==> b.value.input == a.value.input && (a.value.status == Done ==> b == a))
  }

  lemma WriteKeeps(s: Sys, id: StageId, st: Stage, to: Place, x: StageId)
    requires Distinct(s.wf.stages) && JobOk(s, id) && JobOk(s, x) && id in s.jobs && !s.jobs[id].at.Over?
    requires st.id == id && st.input == s.jobs[id].prompt
    requires StandsAt(st, to)
    ensures var t := Write(s, id, st, to);
      JobOk(t, x) && Respects(s, t, x) && Distinct(t.wf.stages)
  {
    PutLookup(s.wf, st, x);
  }

  /** A step of a job is one write of its stage, or nothing. */
  lemma StepWrites(s: Sys, e: Event) returns (st: Stage, to: Place)
    requires Inv(s) && Enabled(s, e) && e.Step?
    ensures st.id == e.id && st.input == s.jobs[e.id].prompt
    ensures StandsAt(st, to)
    ensures var t := Apply(s, e);
      || t == s
      || (t.(sent := s.sent) == Write(s, e.id, st, to)
          && (t.sent == s.sent || t.sent == s.sent + [(e.id, s.jobs[e.id].prompt)]))
  {
    assert JobOk(s, e.id);
    var id, cur := e.id, Lookup(s.wf, e.id).value;
    match s.jobs[id].at {
      case Todo => st, to := cur.(status := Running), if e.saved then Asking else Over(Unmarked);
      case Asking =>
        st, to := cur.(status := Failed), Over(Broken);
        if e.c.Good? { st, to := cur.(session := Some(e.c.text)), Waiting; }
      case Waiting =>
        st, to := cur.(status := Failed), Over(Broken);
        if e.c.Good? && !IsUsageLimit(e.c.text) {
          st, to := cur.(output := e.c.text, status := Done), Over(if e.saved then Saved else Unsaved);
        }
    }
  }

  lemma JobStepKeeps(s: Sys, e: Event, x: StageId)
    requires Inv(s) && Enabled(s, e) && e.Step?
    ensures JobOk(Apply(s, e), x) && Respects(s, Apply(s, e), x)
    ensures Distinct(Apply(s, e).wf.stages)
  {
    var st, to := StepWrites(s, e);
    assert JobOk(s, e.id) && JobOk(s, x);
    WriteKeeps(s, e.id, st, to, x);
  }

  lemma CallKeeps(s: Sys, saved: bool, x: StageId)
    requires Inv(s) && Enabled(s, Call(saved))
    ensures JobOk(Apply(s, Call(saved)), x) && Respects(s, Apply(s, Call(saved)), x)
    ensures Distinct(Apply(s, Call(saved)).wf.stages)
  {
    ResetLookup(s.wf, x);
    var t := Apply(s, Call(saved));
    if x in t.jobs {
      PickedOk(t.wf, x);
    }
  }

  lemma SentKept(s: Sys, e: Event, k: nat)
    requires Inv(s) && Enabled(s, e) && k < |Apply(s, e).sent| && Respects(s, Apply(s, e), Apply(s, e).sent[k].0)
    ensures SentOk(Apply(s, e), k)
  {
    if e.Step? {
      var _, _ := StepWrites(s, e);
      assert JobOk(s, e.id);
    }
    if k < |s.sent| {
      assert SentOk(s, k);
    }
  }

  lemma PickedOk(wf: Workflow, id: StageId)
    requires Distinct(wf.stages) && id in Picked(wf)
    ensures Lookup(wf, id).Some? && Lookup(wf, id).value.id == id && Lookup(wf, id).value.status == Pending
    ensures Picked(wf)[id] == Job(Todo, Lookup(wf, id).value.input)
  {
    var k :| 0 <= k < |wf.stages| && wf.stages[k].status == Pending && wf.stages[k].input != ""
             && wf.stages[k].id == id;
    assert StageIndex(wf.stages, id) == k;
  }

  lemma StepKeeps(s: Sys, e: Event, x: StageId)
    requires Inv(s) && Enabled(s, e)
    ensures JobOk(Apply(s, e), x) && Respects(s, Apply(s, e), x) && Distinct(Apply(s, e).wf.stages)
  {
    match e {
      case Call(saved) => CallKeeps(s, saved, x);
      case Step(_, _, _) => JobStepKeeps(s, e, x);
      case Close => assert Apply(s, e).wf.stages == s.wf.stages;
    }
  }

  lemma StepKeepsInv(s: Sys, e: Event)
    requires Inv(s) && Enabled(s, e)
    ensures Inv(Apply(s, e)) && forall x :: Respects(s, Apply(s, e), x)
  {
    var t := Apply(s, e);
    StepKeepsStages(s, e, t);
    forall k: nat | k < |t.sent| ensures SentOk(t, k) {
      SentKept(s, e, k);
    }
  }

  lemma StepKeepsStages(s: Sys, e: Event, t: Sys)
    requires Inv(s) && Enabled(s, e) && t == Apply(s, e)
    ensures Distinct(t.wf.stages) && (forall x :: JobOk(t, x)) && forall x :: Respects(s, t, x)
  {
    forall x ensures JobOk(t, x) && Respects(s, t, x) { StepKeeps(s, e, x); }
    StepKeeps(s, e, Research);
  }

  // ----- whole histories of resumes ------------------------------------------------------------------

  /** From s, the events happen one after the other and lead to t: any number of Resume calls, each with
      its stages stepping in any order. */
  ghost predicate Runs(s: Sys, es: seq<Event>, t: Sys)
    decreases |es|
  {
    if es == [] then s == t else Enabled(s, es[0]) && Runs(Apply(s, es[0]), es[1..], t)
  }

  function DoneIds(wf: Workflow): set<StageId> {
    set k | 0 <= k < |wf.stages| && wf.stages[k].status == Done :: wf.stages[k].id
  }

  /** However often a workflow is resumed, no stage's input changes and a Done stage is never altered. */
  lemma {:induction false} RunRespects(s: Sys, es: seq<Event>, t: Sys)
    requires Inv(s) && Runs(s, es, t)
    ensures Inv(t) && forall x :: Respects(s, t, x)
    decreases |es|
  {
    if es != [] {
      var m := Apply(s, es[0]);
      StepKeepsInv(s, es[0]);
      RunRespects(m, es[1..], t);
      forall x ensures Respects(s, t, x) {
        assert Respects(s, m, x) && Respects(m, t, x);
      }
    }
  }

  /** The Done stages only grow in number. */
  lemma DoneNeverFalls(s: Sys, es: seq<Event>, t: Sys)
    requires Inv(s) && Runs(s, es, t)
    ensures DoneIds(s.wf) <= DoneIds(t.wf) && |DoneIds(s.wf)| <= |DoneIds(t.wf)|
  {
    RunRespects(s, es, t);
    forall id | id in DoneIds(s.wf) ensures id in DoneIds(t.wf) {
      assert Respects(s, t, id);
    }
    SubsetSize(DoneIds(s.wf), DoneIds(t.wf));
  }

  /** Over any history that starts with an idle workflow, every session was created with exactly the input
      its stage was saved with at the start. */
  lemma PromptsAreTheSavedInputs(s: Sys, es: seq<Event>, t: Sys, k: nat)
    requires Distinct(s.wf.stages) && !s.running && s.jobs == map[] && s.sent == []
    requires Runs(s, es, t) && k < |t.sent|
    ensures Lookup(s.wf, t.sent[k].0).Some? && Lookup(s.wf, t.sent[k].0).value.input == t.sent[k].1
  {
    RunRespects(s, es, t);
    assert SentOk(t, k) && Respects(s, t, t.sent[k].0);
  }

  /** One resume ends Done exactly when every stage it re-ran is Done and that last write was saved; it
      never ends Done over a re-run stage that is not. */
  lemma EndsDoneExactly(s: Sys, es: seq<Event>, t: Sys)
    requires Distinct(s.wf.stages) && !s.running && s.jobs == map[] && s.sent == []
    requires Runs(s, es, t) && Enabled(t, Close)
    ensures var end := Apply(t, Close).wf;
      && (forall id | id in t.jobs :: Lookup(end, id).Some?)
      && (end.status == WDone <==> forall id | id in t.jobs :: id in DoneIds(end) && t.jobs[id].at != Over(Unsaved))
      && (end.status == WFailed <==> end.status != WDone)
      && (forall id | id in t.jobs && id in DoneIds(end) :: !IsUsageLimit(Lookup(end, id).value.output))
  {
    RunRespects(s, es, t);
    var end := Apply(t, Close).wf;
    assert end.stages == t.wf.stages;
    forall id | id in t.jobs
      ensures id in DoneIds(end) <==> t.jobs[id].at in {Over(Saved), Over(Unsaved)}
      ensures Lookup(end, id).Some? && (id in DoneIds(end) ==> !IsUsageLimit(Lookup(end, id).value.output))
    {
      assert JobOk(t, id);
      assert DoneIds(end) == DoneIds(t.wf);
    }
  }

  /** What one step of a job writes, case by case. */
  lemma StepExactly(s: Sys, id: StageId, c: Answer, saved: bool)
    requires Inv(s) && Enabled(s, Step(id, c, saved)) && Lookup(s.wf, id).Some?
    ensures var t, st := Apply(s, Step(id, c, saved)), Lookup(s.wf, id).value;
      var now := Lookup(t.wf, id);
      && now.Some? && id in t.jobs
      && (s.jobs[id].at.Todo? ==> now.value == st.(status := Running))
      && (s.jobs[id].at.Asking? && c.Good? ==>
            now.value == st.(session := Some(c.text)) && t.sent == s.sent + [(id, st.input)])
      && (s.jobs[id].at.Asking? && c.Bad? ==> now.value == st.(status := Failed) && t.jobs[id].at == Over(Broken))
      && (s.jobs[id].at.Asking? && c.Again? ==> t == s)
      && (s.jobs[id].at.Waiting? && c.Good? && !IsUsageLimit(c.text) ==>
            now.value == st.(output := c.text, status := Done))
      && (s.jobs[id].at.Waiting? && !(c.Good? && !IsUsageLimit(c.text)) ==>
            now.value == st.(status := Failed) && t.jobs[id].at == Over(Broken))
  {
    assert JobOk(s, id);
    var st := Lookup(s.wf, id).value;
    var t := Apply(s, Step(id, c, saved));
    PutLookup(s.wf, st.(status := Running, input := s.jobs[id].prompt), id);
    PutLookup(s.wf, st.(status := Failed), id);
    if c.Good? {
      PutLookup(s.wf, st.(session := Some(c.text)), id);
      PutLookup(s.wf, st.(output := c.text, status := Done), id);
    }
  }

  /** A stage whose session failed is picked up by the next resume, with the same prompt. */
  lemma FailedAreResumed(s: Sys, es: seq<Event>, t: Sys, id: StageId)
    requires Distinct(s.wf.stages) && !s.running && s.jobs == map[] && s.sent == []
    requires Runs(s, es, t) && Enabled(t, Close) && id in t.jobs && t.jobs[id].at == Over(Broken)
    ensures var u := Apply(t, Close);
      && Enabled(u, Call(true)) && id in Apply(u, Call(true)).jobs
      && Apply(u, Call(true)).jobs[id] == Job(Todo, t.jobs[id].prompt)
  {
    RunRespects(s, es, t);
    var u := Apply(t, Close);
    assert JobOk(t, id) && u.wf.stages == t.wf.stages;
    var k := StageIndex(u.wf.stages, id);
    assert Resumable(u.wf.stages[k]);
    RerunsExactly(u, true, id);
    ResetLookup(u.wf, id);
    PickedOk(Apply(u, Call(true)).wf, id);
  }

  /** An idle workflow whose one stage has failed. */
  function OneFailed(id: StageId, input: string): Sys {
    Sys(Workflow(WFailed, [NewStage(id, Failed, input)]), map[], false, [])
  }

  /** The stage's last write fails: the workflow ends Failed although its only stage is Done, with output. */
  lemma UnsavedStageEndsFailed(id: StageId, input: string, session: string, text: string)
      returns (es: seq<Event>, t: Sys)
    requires input != "" && !IsUsageLimit(text)
    ensures Runs(OneFailed(id, input), es, t) && Enabled(t, Close)
    ensures var end := Apply(t, Close).wf;
      end.status == WFailed && |end.stages| == 1 && end.stages[0].status == Done && end.stages[0].output == text
  {
    var s0 := OneFailed(id, input);
    var first := Call(true);
    assert Resumable(s0.wf.stages[0]);
    var s1 := Apply(s0, first);
    assert s1.wf.stages == [NewStage(id, Pending, input)];
    assert StageIndex(s1.wf.stages, id) == 0;
    RerunsExactly(s0, true, id);
    var rest;
    rest, t := OneJobUnsaved(s1, id, session, text);
    es := [first] + rest;
    assert es[1..] == rest;
    assert t.jobs[id].at == Over(Unsaved);
  }

  lemma OneJobUnsaved(s: Sys, id: StageId, session: string, text: string) returns (es: seq<Event>, t: Sys)
    requires s.running && s.jobs.Keys == {id} && s.jobs[id].at == Todo && |s.wf.stages| == 1 && s.wf.stages[0].id == id
    requires !IsUsageLimit(text)
    ensures Runs(s, es, t) && t.running && t.jobs.Keys == {id} && t.jobs[id].at == Over(Unsaved)
    ensures |t.wf.stages| == 1 && t.wf.stages[0].status == Done && t.wf.stages[0].output == text
  {
    var e1, e2, e3 := Step(id, Good(""), true), Step(id, Good(session), true), Step(id, Good(text), false);
    assert StageIndex(s.wf.stages, id) == 0;
    var s1 := Apply(s, e1);
    assert StageIndex(s1.wf.stages, id) == 0;
    var s2 := Apply(s1, e2);
    assert StageIndex(s2.wf.stages, id) == 0;
    t := Apply(s2, e3);
    es := [e1] + ([e2] + [e3]);
    assert [e3][1..] == [] && Runs(t, [], t);
    assert Runs(s2, [e3], t);
    assert ([e2] + [e3])[1..] == [e3] && Runs(s1, [e2] + [e3], t);
    assert es[1..] == [e2] + [e3];
  }

  /** The stages a resume re-runs: those just reset and those left pending with an input, and no others. */
  lemma RerunsExactly(s: Sys, saved: bool, id: StageId)
    requires Distinct(s.wf.stages) && Enabled(s, Call(saved)) && saved
    ensures id in Apply(s, Call(saved)).jobs <==>
      var st := Lookup(s.wf, id);
      st.Some? && st.value.input != "" && (st.value.status == Failed || st.value.status == Pending)
  {
    ResetLookup(s.wf, id);
    PickedExactly(Workflow(WRunning, ResetAll(s.wf.stages)), id);
  }

  lemma PickedExactly(wf: Workflow, id: StageId)
    requires Distinct(wf.stages)
    ensures id in Picked(wf) <==>
        Lookup(wf, id).Some? && Lookup(wf, id).value.status == Pending && Lookup(wf, id).value.input != ""
  {
    if id in Picked(wf) {
      var k :| 0 <= k < |wf.stages| && wf.stages[k].status == Pending && wf.stages[k].input != ""
               && wf.stages[k].id == id;
      assert StageIndex(wf.stages, id) == k;
    }
  }
}
