/** What one execution of a stage leaves behind: step by step under any interleaving, and from beginning to end
    when nobody else writes (runStage and markStageFailed in internal/workflow/engine.go). */
module StageAlone {
  import opened Options
  import opened StageNames
  import opened StageRun

  // ----- usage limits --------------------------------------------------------------------------------

  lemma Occurs(s: string, key: string, pre: string, post: string)
    requires s == pre + key + post
    ensures key <= s[|pre|..]
  {
    assert s[|pre|..] == key + post;
  }

  lemma OccursAt(s: string, key: string, k: nat)
    requires k <= |s| && key <= s[k..]
    ensures exists pre, post :: s == pre + key + post
  {
    assert s[k..] == key + s[k..][|key|..];
    assert s == s[..k] + key + s[k..][|key|..];
  }

  /** The two spellings of the limit message, anywhere in the text. */
  lemma UsageLimitExactly(s: string)
    ensures IsUsageLimit(s) <==>
      || (exists pre, post :: s == pre + "You've hit your" + post)
      || (exists pre, post :: s == pre + "you've hit your" + post)
  {
    if k: nat :| k <= |s| && "You've hit your" <= s[k..] {
      OccursAt(s, "You've hit your", k);
    }
    if k: nat :| k <= |s| && "you've hit your" <= s[k..] {
      OccursAt(s, "you've hit your", k);
    }
    if pre, post :| s == pre + "You've hit your" + post {
      Occurs(s, "You've hit your", pre, post);
    }
    if pre, post :| s == pre + "you've hit your" + post {
      Occurs(s, "you've hit your", pre, post);
    }
  }

  // ----- one step, whoever else writes ---------------------------------------------------------------

  /** The version `wf` is `loc` but for its stage `id`, which is `s`. */
  ghost predicate Rewritten(wf: Workflow, loc: Workflow, id: StageId, s: Stage) {
    && wf.status == loc.status && |wf.stages| == |loc.stages|
    && forall k | 0 <= k < |loc.stages| :: wf.stages[k] == if k == StageIndex(loc.stages, id) then s else loc.stages[k]
  }

  /** A stage whose execution returns without error is Done in the version just written, in memory and on disk, with
      its own session's result for its output. */
  lemma DoneExactly(e: Env, r: Runner, c: Answer)
    requires EnvOk(e) && RunnerOk(r, e.h) && !r.pc.Ret?
    ensures var (e', r') := StepRunner(e, r, c);
      r'.pc == Ret(true) <==>
        r.pc.Finish? && StageIndex(r.pc.loc.stages, r.id) >= 0 && c.Good?
    ensures var (e', r') := StepRunner(e, r, c);
      r'.pc == Ret(true) ==>
        && r.id in e'.h.results && e'.disk == e'.store
        && Rewritten(e'.store, r.pc.loc, r.id,
                     r.pc.loc.stages[StageIndex(r.pc.loc.stages, r.id)].(output := e'.h.results[r.id], status := Done))
  {
  }

  /** One whose session could not be had, failed, or only reported a usage limit is Failed in the version written. */
  lemma FailedExactly(e: Env, r: Runner, c: Answer)
    ensures r.pc.Create? ==> (StepRunner(e, r, c).1.pc.FailGet? <==> c.Bad?)
    ensures r.pc.Create? ==> (StepRunner(e, r, c).1 == r <==> c.Again?)
    ensures r.pc.Wait? ==> (StepRunner(e, r, c).1.pc.FailGet? <==> !c.Good? || IsUsageLimit(c.text))
    ensures r.pc.FailGet? ==> StepRunner(e, r, c) == (e, r.(pc := FailWrite(e.store)))
    ensures r.pc.FailWrite? ==>
      var (e', r') := StepRunner(e, r, c);
      var k := StageIndex(r.pc.loc.stages, r.id);
      && r'.pc == Ret(false) && e'.h == e.h && (k < 0 ==> e' == e)
      && (k >= 0 ==> Rewritten(e'.store, r.pc.loc, r.id, r.pc.loc.stages[k].(status := Failed)))
      && (k >= 0 ==> e'.disk == if c.Good? then e'.store else e.disk)
  {
  }

  /** The first write makes the stage Running with its prompt, the second records its session; the first must be
      saved, the second need not be. */
  lemma MarkedExactly(e: Env, r: Runner, c: Answer)
    ensures r.pc.Mark? && StageIndex(r.pc.loc.stages, r.id) >= 0 ==>
      var (e', r') := StepRunner(e, r, c);
      var s := r.pc.loc.stages[StageIndex(r.pc.loc.stages, r.id)].(status := Running, input := r.prompt);
      && Rewritten(e'.store, r.pc.loc, r.id, s) && e'.disk == (if c.Good? then e'.store else e.disk)
      && r'.pc == if c.Good? then Create else Ret(false)
    ensures r.pc.SetSession? && StageIndex(r.pc.loc.stages, r.id) >= 0 ==>
      var (e', r') := StepRunner(e, r, c);
      var s := r.pc.loc.stages[StageIndex(r.pc.loc.stages, r.id)].(session := Some(r.pc.session));
      && Rewritten(e'.store, r.pc.loc, r.id, s) && e'.disk == (if c.Good? then e'.store else e.disk)
      && r'.pc == Wait
  {
  }

  // ----- from beginning to end, alone ----------------------------------------------------------------

  /** The steps of an execution, one answer each. */
  function RunStage(e: Env, r: Runner, cs: seq<Answer>): (Env, Runner)
    decreases |cs|
  {
    if cs == [] then (e, r) else
    var (e1, r1) := StepRunner(e, r, cs[0]);
    RunStage(e1, r1, cs[1..])
  }

  /** Still under way before each of the steps. */
  predicate UnderWay(e: Env, r: Runner, cs: seq<Answer>)
    decreases |cs|
  {
    cs == [] || (!r.pc.Ret? && var (e1, r1) := StepRunner(e, r, cs[0]); UnderWay(e1, r1, cs[1..]))
  }

  lemma {:induction false} RunStageJoin(e: Env, r: Runner, cs: seq<Answer>, ds: seq<Answer>)
    ensures var (e1, r1) := RunStage(e, r, cs);
      && RunStage(e, r, cs + ds) == RunStage(e1, r1, ds)
      && (UnderWay(e, r, cs + ds) <==> UnderWay(e, r, cs) && UnderWay(e1, r1, ds))
    decreases |cs|
  {
    if cs == [] {
      assert cs + ds == ds;
    } else {
      var (e1, r1) := StepRunner(e, r, cs[0]);
      assert (cs + ds)[1..] == cs[1..] + ds;
      RunStageJoin(e1, r1, cs[1..], ds);
    }
  }

  const OK: Answer := Good("")

  /** `wf` with the stage at place k replaced. */
  function With(wf: Workflow, k: nat, s: Stage): Workflow
    requires k < |wf.stages|
  {
    wf.(stages := wf.stages[k := s])
  }

  /** The first three steps: running, with the prompt, and a session asked for. */
  lemma BeginsAlone(e: Env, id: StageId, prompt: string, k: nat, c: Answer)
    requires k == StageIndex(e.store.stages, id)
    ensures var (e1, r1) := RunStage(e, Runner(id, prompt, Get1), [OK, OK]);
      var wf := With(e.store, k, e.store.stages[k].(status := Running, input := prompt));
      && e1 == Env(wf, wf, e.h.(left := e.h.left || id == Research)) && r1 == Runner(id, prompt, Create)
      && UnderWay(e, Runner(id, prompt, Get1), [OK, OK])
  {
    assert [OK, OK][1..] == [OK] && [OK][1..] == [];
    var (e1, r1) := StepRunner(e, Runner(id, prompt, Get1), OK);
    var (e2, r2) := StepRunner(e1, r1, OK);
    assert RunStage(e2, r2, []) == (e2, r2);
    assert RunStage(e1, r1, [OK]) == (e2, r2);
  }

  /** Its session is created, recorded, and returns a result, which is stored. */
  lemma EndsAlone(e: Env, r: Runner, k: nat, session: string, text: string)
    requires k == StageIndex(e.store.stages, r.id) && r.pc == Create && !IsUsageLimit(text)
    ensures var cs := [Good(session), OK, OK, Good(text), OK, OK];
      var (e1, r1) := RunStage(e, r, cs);
      var wf := With(e.store, k, e.store.stages[k].(session := Some(session), output := text, status := Done));
      && e1.store == e1.disk == wf && r1 == r.(pc := Ret(true)) && UnderWay(e, r, cs)
      && e1.h == e.h.(created := e.h.created + multiset{r.id}, results := e.h.results[r.id := text])
  {
    var begin, end := [Good(session), OK, OK], [Good(text), OK, OK];
    SessionAlone(e, r, k, session);
    var (e1, r1) := RunStage(e, r, begin);
    IndexKept(e.store, k, e.store.stages[k].(session := Some(session)));
    RunStageJoin(e, r, begin, end);
    assert begin + end == [Good(session), OK, OK, Good(text), OK, OK];
    ThreeSteps(e1, r1, end);
  }

  /** Replacing a stage by one with its ID moves no stage. */
  lemma IndexKept(wf: Workflow, k: nat, s: Stage)
    requires k < |wf.stages| && wf.stages[k].id == s.id
    ensures forall id :: StageIndex(With(wf, k, s).stages, id) == StageIndex(wf.stages, id)
  {
    forall id ensures StageIndex(With(wf, k, s).stages, id) == StageIndex(wf.stages, id) {
      SameIdsSameIndex(With(wf, k, s).stages, wf.stages, id);
    }
  }

  lemma {:induction false} SameIdsSameIndex(a: seq<Stage>, b: seq<Stage>, id: StageId)
    requires |a| == |b| && forall k | 0 <= k < |a| :: a[k].id == b[k].id
    ensures StageIndex(a, id) == StageIndex(b, id)
    decreases a
  {
    if a != [] && a[0].id != id {
      SameIdsSameIndex(a[1..], b[1..], id);
    }
  }

  lemma ThreeSteps(e: Env, r: Runner, cs: seq<Answer>)
    requires |cs| == 3
    ensures var (e1, r1) := StepRunner(e, r, cs[0]);
      var (e2, r2) := StepRunner(e1, r1, cs[1]);
      && RunStage(e, r, cs) == StepRunner(e2, r2, cs[2])
      && (UnderWay(e, r, cs) <==> !r.pc.Ret? && !r1.pc.Ret? && !r2.pc.Ret?)
  {
    var (e1, r1) := StepRunner(e, r, cs[0]);
    var (e2, r2) := StepRunner(e1, r1, cs[1]);
    var (e3, r3) := StepRunner(e2, r2, cs[2]);
    assert cs[1..][1..] == cs[2..] && cs[2..][1..] == [];
    assert RunStage(e3, r3, []) == (e3, r3);
    assert RunStage(e2, r2, cs[2..]) == (e3, r3) && (UnderWay(e2, r2, cs[2..]) <==> !r2.pc.Ret?);
    assert RunStage(e1, r1, cs[1..]) == (e3, r3) && (UnderWay(e1, r1, cs[1..]) <==> !r1.pc.Ret? && !r2.pc.Ret?);
  }

  /** A stage run alone whose calls all go well: Done, in memory and on disk, with its prompt, its session and its
      session's result, and every other stage as it was. */
  lemma StageSucceedsAlone(e: Env, id: StageId, prompt: string, k: nat, session: string, text: string)
    requires k == StageIndex(e.store.stages, id) && !IsUsageLimit(text)
    ensures var r, cs := Runner(id, prompt, Get1), [OK, OK, Good(session), OK, OK, Good(text), OK, OK];
      var (e1, r1) := RunStage(e, r, cs);
      var s := e.store.stages[k].(status := Done, input := prompt, session := Some(session), output := text);
      && e1.store == e1.disk == With(e.store, k, s) && r1 == r.(pc := Ret(true)) && UnderWay(e, r, cs)
      && e1.h == e.h.(left := e.h.left || id == Research, created := e.h.created + multiset{id},
                      results := e.h.results[id := text])
  {
    var r, begin, end := Runner(id, prompt, Get1), [OK, OK], [Good(session), OK, OK, Good(text), OK, OK];
    BeginsAlone(e, id, prompt, k, OK);
    var (e1, r1) := RunStage(e, r, begin);
    IndexKept(e.store, k, e.store.stages[k].(status := Running, input := prompt));
    EndsAlone(e1, r1, k, session, text);
    RunStageJoin(e, r, begin, end);
    assert begin + end == [OK, OK, Good(session), OK, OK, Good(text), OK, OK];
  }

  /** When no session can be had the stage is Failed, with its prompt, so that it can be resumed; */
  lemma StageFailsAtCreate(e: Env, id: StageId, prompt: string, k: nat, saved: bool)
    requires k == StageIndex(e.store.stages, id)
    ensures var r, cs := Runner(id, prompt, Get1), [OK, OK] + [Bad, OK, if saved then OK else Bad];
      var (e1, r1) := RunStage(e, r, cs);
      && r1 == r.(pc := Ret(false))
      && e1.store == With(e.store, k, e.store.stages[k].(status := Failed, input := prompt))
      && (saved ==> e1.disk == e1.store)
  {
    var r, begin, end := Runner(id, prompt, Get1), [OK, OK], [Bad, OK, if saved then OK else Bad];
    BeginsAlone(e, id, prompt, k, OK);
    var (e1, r1) := RunStage(e, r, begin);
    IndexKept(e.store, k, e.store.stages[k].(status := Running, input := prompt));
    RunStageJoin(e, r, begin, end);
    var (e2, r2) := StepRunner(e1, r1, end[0]);
    var (e3, r3) := StepRunner(e2, r2, end[1]);
    assert end[1..][1..] == [end[2]] && [end[2]][1..] == [] && end[1..][0] == end[1];
    assert RunStage(e3, r3, [end[2]]) == StepRunner(e3, r3, end[2]);
    assert RunStage(e2, r2, end[1..]) == StepRunner(e3, r3, end[2]);
  }

  /** and so it is when its session fails or only reports a usage limit, with the session recorded as well. */
  lemma StageFailsAtWait(e: Env, id: StageId, prompt: string, k: nat, session: string, c: Answer, saved: bool)
    requires k == StageIndex(e.store.stages, id) && (!c.Good? || IsUsageLimit(c.text))
    ensures var r, cs := Runner(id, prompt, Get1), [OK, OK] + [Good(session), OK, OK, c, OK, if saved then OK else Bad];
      var (e1, r1) := RunStage(e, r, cs);
      && r1 == r.(pc := Ret(false))
      && e1.store == With(e.store, k, e.store.stages[k].(status := Failed, input := prompt, session := Some(session)))
      && (saved ==> e1.disk == e1.store)
  {
    var r, begin, end := Runner(id, prompt, Get1), [OK, OK], [Good(session), OK, OK, c, OK, if saved then OK else Bad];
    BeginsAlone(e, id, prompt, k, OK);
    var (e1, r1) := RunStage(e, r, begin);
    IndexKept(e.store, k, e.store.stages[k].(status := Running, input := prompt));
    RunStageJoin(e, r, begin, end);
    FailsAlone(e1, r1, k, session, c, saved);
  }

  lemma FailsAlone(e: Env, r: Runner, k: nat, session: string, c: Answer, saved: bool)
    requires k == StageIndex(e.store.stages, r.id) && r.pc == Create && (!c.Good? || IsUsageLimit(c.text))
    ensures var (e1, r1) := RunStage(e, r, [Good(session), OK, OK, c, OK, if saved then OK else Bad]);
      && r1 == r.(pc := Ret(false)) && (saved ==> e1.disk == e1.store)
      && e1.store == With(e.store, k, e.store.stages[k].(status := Failed, session := Some(session)))
  {
    var begin, end := [Good(session), OK, OK], [c, OK, if saved then OK else Bad];
    SessionAlone(e, r, k, session);
    var (e1, r1) := RunStage(e, r, begin);
    IndexKept(e.store, k, e.store.stages[k].(session := Some(session)));
    RunStageJoin(e, r, begin, end);
    assert begin + end == [Good(session), OK, OK, c, OK, if saved then OK else Bad];
    WaitFails(e1, r1, k, c, end[2]);
  }

  lemma WaitFails(e: Env, r: Runner, k: nat, c: Answer, last: Answer)
    requires k == StageIndex(e.store.stages, r.id) && r.pc == Wait && (!c.Good? || IsUsageLimit(c.text))
    ensures var (e1, r1) := RunStage(e, r, [c, OK, last]);
      && r1 == r.(pc := Ret(false)) && e1.store == With(e.store, k, e.store.stages[k].(status := Failed))
      && (last.Good? ==> e1.disk == e1.store)
  {
    ThreeSteps(e, r, [c, OK, last]);
  }

  /** A session is created and recorded. */
  lemma SessionAlone(e: Env, r: Runner, k: nat, session: string)
    requires k == StageIndex(e.store.stages, r.id) && r.pc == Create
    ensures var (e1, r1) := RunStage(e, r, [Good(session), OK, OK]);
      var wf := With(e.store, k, e.store.stages[k].(session := Some(session)));
      && e1 == Env(wf, wf, e.h.(created := e.h.created + multiset{r.id})) && r1 == r.(pc := Wait)
      && UnderWay(e, r, [Good(session), OK, OK])
  {
    ThreeSteps(e, r, [Good(session), OK, OK]);
  }
}
