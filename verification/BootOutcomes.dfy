/** What boot and the cleanup leave behind, for each answer of each of their calls (cmd/poc/main.go). */
module BootOutcomes {
  import opened Options
  import opened Lifecycle
  import opened Slots
  import opened SessionProtocol
  import opened StopRaces

  /** How the calls of boot answer, and how the claude run comes out. */
  datatype Answers = Answers(io: Io -> bool, claude: Outcome)

  function AnswerTo(p: Prog, a: Answers): Outcome {
    match p
    case Attempt(io, _, _) => if a.io(io) then Succeeds else Fails
    case RunClaude(_, _, _) => a.claude
    case _ => Succeeds
  }

  /** A goroutine run to its end by itself. */
  function RunAlone(p: Prog, r: Res, a: Answers): (end: Res)
    ensures r.frees <= end.frees && (r.forgotten ==> end.forgotten)
    decreases p
  {
    if p == Ret then r else
    var (q, u) := Exec(p, r, AnswerTo(p, a));
    RunAlone(q, u, a)
  }

  lemma MoveAlone(to: State, ok: Prog, err: Prog, r: Res, a: Answers)
    ensures RunAlone(Move(to, ok, err), r, a) ==
      if Allowed(r.st, to) then RunAlone(ok, r.(st := to), a) else RunAlone(err, r, a)
  {
  }

  /** A session that failed before it was Ready: the slot is released, and so are the VM and the snapshot as far as
      they were there. */
  function Undone(vm: Vm, snapshots: nat): Res {
    NEW_SESSION.(st := Failed, vm := vm, creates := snapshots, deletes := snapshots, frees := 1)
  }

  const HELD: Res := NEW_SESSION.(st := Ready, vm := Live, creates := 1)

  /** VM stopped, snapshot deleted, slot released, and gone from the manager's map. */
  function GivenBack(r: Res): Res {
    r.(vm := if r.vm == Live then StopCalled else r.vm,
       deletes := r.deletes + 1, frees := r.frees + 1, forgotten := true)
  }

  /** The cleanup of a stopping session. */
  lemma CleanupAlone(r: Res, a: Answers)
    requires r.st == Stopping
    ensures RunAlone(CLEANUP, r, a) == GivenBack(r).(st := Stopped)
  {
  }

  /** The teardown after a usage limit gives everything back while the session stays Ready, */
  lemma LimitOutcome(r: Res, a: Answers)
    requires r.st == Ready && a.claude == HitsLimit
    ensures RunAlone(CLAUDE, r, a) == GivenBack(r)
  {
  }

  /** a claude error gives nothing back, */
  lemma ErrorOutcome(r: Res, a: Answers)
    requires r.st == Ready && a.claude == Fails
    ensures RunAlone(CLAUDE, r, a) == r
  {
  }

  /** and a good run gives everything back and ends Stopped. */
  lemma SuccessOutcome(r: Res, a: Answers)
    requires r.st == Ready && a.claude == Succeeds
    ensures RunAlone(CLAUDE, r, a) == GivenBack(r).(st := Stopped)
  {
  }

  lemma FailAlone(r: Res, a: Answers)
    requires Allowed(r.st, Failed)
    ensures RunAlone(FAIL, r, a) == r.(st := Failed, frees := r.frees + 1)
  {
  }

  /** boot by itself, answer by answer. */
  lemma BootOutcome(interactive: bool, mount: bool, a: Answers)
    ensures RunAlone(Boot(interactive, mount), NEW_SESSION, a) ==
      if !a.io(CreateSnapshot) then Undone(NotLaunched, 0)
      else if !a.io(InjectNetwork) || !a.io(Launch) then Undone(NotLaunched, 1)
      else if !a.io(WaitForSSH) then Undone(StopCalled, 1)
      else if mount && !a.io(MountWorkspace) then HELD.(st := Failed, frees := 1, mountFailed := true)
      else if interactive then HELD
      else RunAlone(CLAUDE, HELD, a)
  {
    AfterLaunchAlone(interactive, mount, a);
    PrepareAlone(AfterLaunch(interactive, mount), a);
    FailAlone(NEW_SESSION, a);
  }

  lemma PrepareAlone(after: Prog, a: Answers)
    ensures var launch := Attempt(Launch, after, DeleteSnapshot(FAIL));
      RunAlone(Attempt(InjectNetwork, Move(Booting, launch, DeleteSnapshot(Ret)), DeleteSnapshot(FAIL)),
               NEW_SESSION.(creates := 1), a) ==
      if !a.io(InjectNetwork) || !a.io(Launch) then Undone(NotLaunched, 1)
      else RunAlone(after, HELD.(st := Booting), a)
  {
    var r1, launch := NEW_SESSION.(creates := 1), Attempt(Launch, after, DeleteSnapshot(FAIL));
    MoveAlone(Booting, launch, DeleteSnapshot(Ret), r1, a);
  }

  lemma AfterLaunchAlone(interactive: bool, mount: bool, a: Answers)
    ensures RunAlone(AfterLaunch(interactive, mount), HELD.(st := Booting), a) ==
      if !a.io(WaitForSSH) then Undone(StopCalled, 1)
      else if mount && !a.io(MountWorkspace) then HELD.(st := Failed, frees := 1, mountFailed := true)
      else if interactive then HELD
      else RunAlone(CLAUDE, HELD, a)
  {
    ConfigureAlone(interactive, mount, a);
    WaitAlone(Configure(interactive, mount), a);
  }

  lemma WaitAlone(configure: Prog, a: Answers)
    ensures var undo := StopVM(DeleteSnapshot(FAIL));
      RunAlone(Move(WaitingSSH, Attempt(WaitForSSH, Move(Configuring, configure, Ret), undo),
                    StopVM(DeleteSnapshot(Ret))),
               HELD.(st := Booting), a) ==
      if !a.io(WaitForSSH) then Undone(StopCalled, 1) else RunAlone(configure, HELD.(st := Configuring), a)
  {
    var r1, undo := HELD.(st := WaitingSSH), StopVM(DeleteSnapshot(FAIL));
    assert RunAlone(undo, r1, a) == RunAlone(DeleteSnapshot(FAIL), r1.(vm := StopCalled), a);
    MoveAlone(Configuring, configure, Ret, r1, a);
    MoveAlone(WaitingSSH, Attempt(WaitForSSH, Move(Configuring, configure, Ret), undo), StopVM(DeleteSnapshot(Ret)),
              HELD.(st := Booting), a);
  }

  lemma ConfigureAlone(interactive: bool, mount: bool, a: Answers)
    ensures RunAlone(Configure(interactive, mount), HELD.(st := Configuring), a) ==
      if mount && !a.io(MountWorkspace) then HELD.(st := Failed, frees := 1, mountFailed := true)
      else if interactive then HELD
      else RunAlone(CLAUDE, HELD, a)
  {
  }

  // ----- in the system -------------------------------------------------------------------------------

  /** The system when boot of the session has run to its end by itself: a released slot is free, and a forgotten
      session has left the map. */
  function Ended(s: Sys, id: Id, a: Answers): Sys
    requires id in s.sess
  {
    var x := s.sess[id];
    var r := RunAlone(x.boot, x.res, a);
    s.(sess := s.sess[id := x.(boot := Ret, res := r)],
       used := if r.frees > x.res.frees then s.used - {x.slot} else s.used,
       inMap := if r.forgotten then s.inMap - {id} else s.inMap)
  }

  /** Some run of the system does just that: boot's own steps, each with its answer, and no other. */
  lemma {:induction false} DriveBoot(s: Sys, id: Id, a: Answers) returns (es: seq<Event>)
    requires id in s.sess && (s.sess[id].res.forgotten ==> id !in s.inMap)
    ensures QuietRun(s, es, Ended(s, id, a))
    ensures forall e | e in es :: e.BootStep? && e.id == id
    ensures s.sess[id].boot != Ret ==> es != [] && es[0] == BootStep(id, AnswerTo(s.sess[id].boot, a))
    decreases s.sess[id].boot
  {
    var x := s.sess[id];
    if x.boot == Ret {
      es := [];
      assert s.sess[id := x.(boot := Ret, res := x.res)] == s.sess;
    } else {
      var e := BootStep(id, AnswerTo(x.boot, a));
      var s1 := Apply(s, e);
      assert s1.sess[id].res.forgotten ==> id !in s1.inMap;
      var rest := DriveBoot(s1, id, a);
      es := [e] + rest;
      assert es[1..] == rest;
      EndedAfterStep(s, id, a, s1);
    }
  }

  lemma EndedAfterStep(s: Sys, id: Id, a: Answers, s1: Sys)
    requires id in s.sess && s.sess[id].boot != Ret && s1 == Apply(s, BootStep(id, AnswerTo(s.sess[id].boot, a)))
    ensures Ended(s1, id, a) == Ended(s, id, a)
  {
  }

  /** Which answers leave a created session its VM, its snapshot and its slot. */
  predicate Keeps(interactive: bool, mount: bool, a: Answers) {
    && a.io(CreateSnapshot) && a.io(InjectNetwork) && a.io(Launch) && a.io(WaitForSSH)
    && (mount ==> a.io(MountWorkspace)) && (interactive || a.claude == Fails)
  }

  /** What a session holds once its boot has ended: a call that fails ends it in Failed, before which all it had is
      given back unless the call was the mount; a claude error leaves it all it has; only a good claude run ends it in
      Stopped. */
  predicate EndsWith(interactive: bool, mount: bool, a: Answers, r: Res) {
    && r.allocs == 1 && r.frees == (if Keeps(interactive, mount, a) then 0 else 1)
    && if !a.io(CreateSnapshot) || !a.io(InjectNetwork) || !a.io(Launch) || !a.io(WaitForSSH) then
         r.st == Failed && r.vm != Live && r.creates == r.deletes && !r.forgotten
       else if mount && !a.io(MountWorkspace) then
         r.st == Failed && r.vm == Live && r.creates == 1 && r.deletes == 0 && r.mountFailed && !r.forgotten
       else if interactive || a.claude == Fails then
         r.st == Ready && r.vm == Live && r.creates == 1 && r.deletes == 0 && !r.forgotten
       else
         && r.st == (if a.claude == Succeeds then Stopped else Ready)
         && r.vm == StopCalled && r.creates == r.deletes == 1 && r.forgotten
  }

  lemma BootEndsWith(interactive: bool, mount: bool, a: Answers)
    ensures EndsWith(interactive, mount, a, RunAlone(Boot(interactive, mount), NEW_SESSION, a))
  {
    BootOutcome(interactive, mount, a);
    match a.claude {
      case HitsLimit => LimitOutcome(HELD, a);
      case Fails => ErrorOutcome(HELD, a);
      case Succeeds => SuccessOutcome(HELD, a);
    }
  }

  /** The system with one session more, whose boot has ended: the slot it got stays in use exactly for the answers
      above, and it leaves the map only once it has been through claude. */
  predicate OneMore(s: Sys, t: Sys, id: Id, interactive: bool, mount: bool, a: Answers) {
    && id in t.sess && t.sess == s.sess[id := t.sess[id]]
    && Some(t.sess[id].slot) == Alloc(s.used, s.maxSlots) && t.sess[id].boot == t.sess[id].stopper == Ret
    && EndsWith(interactive, mount, a, t.sess[id].res)
    && t.used == (if Keeps(interactive, mount, a) then s.used + {t.sess[id].slot} else s.used)
    && t.inMap == (if t.sess[id].res.forgotten then s.inMap - {id} else s.inMap + {id})
  }

  /** From the creation of a session to the end of its boot, with no other event between. */
  lemma CreatedBootEnds(s: Sys, id: Id, interactive: bool, mount: bool, a: Answers) returns (es: seq<Event>, t: Sys)
    requires id !in s.sess && Alloc(s.used, s.maxSlots).Some?
    ensures QuietRun(s, [Create(id, interactive, mount)] + es, t) && OwnSteps(es, id)
    ensures OneMore(s, t, id, interactive, mount, a)
  {
    var e := Create(id, interactive, mount);
    var s1 := Apply(s, e);
    es := DriveBoot(s1, id, a);
    t := Ended(s1, id, a);
    QuietJoin(s, [e], s1, es, t);
    BootEndsWith(interactive, mount, a);
    assert s1.sess[id := t.sess[id]] == s.sess[id := t.sess[id]];
  }

  /** Nothing of `p` depends on how a call or the claude run comes out. */
  predicate Forced(p: Prog) {
    match p
    case Ret => true
    case Move(_, ok, err) => Forced(ok) && Forced(err)
    case StopVM(next) => Forced(next)
    case DeleteSnapshot(next) => Forced(next)
    case ReleaseSlot(next) => Forced(next)
    case Forget(next) => Forced(next)
    case _ => false
  }

  predicate OwnSteps(es: seq<Event>, id: Id) {
    forall e | e in es :: e.BootStep? && e.id == id
  }

  lemma {:induction false} ForcedRun(s: Sys, es: seq<Event>, t: Sys, id: Id, a: Answers)
    requires id in s.sess && Forced(s.sess[id].boot) && (s.sess[id].res.forgotten ==> id !in s.inMap)
    requires Runs(s, es, t) && OwnSteps(es, id) && id in t.sess && t.sess[id].boot == Ret
    ensures t == Ended(s, id, a)
    decreases es
  {
    var x := s.sess[id];
    if es == [] {
      assert s.sess[id := x.(boot := Ret, res := x.res)] == s.sess;
    } else {
      assert es[0] in es;
      var s1 := Apply(s, es[0]);
      assert s1 == Apply(s, BootStep(id, AnswerTo(x.boot, a)));
      assert OwnSteps(es[1..], id);
      ForcedRun(s1, es[1..], t, id, a);
      EndedAfterStep(s, id, a, s1);
    }
  }

  /** However the claude run of a Ready session comes out, and whatever the session holds: once boot has gone on to
      its end by itself, a usage limit has left it Ready with its VM stopped, its snapshot deleted, its slot released
      and the session gone from the map; an error has left it Ready with everything it held; a good run has left it
      Stopped with everything given back. Nothing else has changed. */
  lemma ClaudeOutcomes(s: Sys, es: seq<Event>, t: Sys, id: Id)
    requires id in s.sess && s.sess[id].boot == CLAUDE && s.sess[id].res.st == Ready && !s.sess[id].res.forgotten
    requires Runs(s, es, t) && es != [] && OwnSteps(es, id) && id in t.sess && t.sess[id].boot == Ret
    ensures es[0].BootStep?
    ensures t == s.(sess := t.sess, used := t.used, inMap := t.inMap)
    ensures t.sess == s.sess[id := s.sess[id].(boot := Ret, res := t.sess[id].res)]
    ensures var r, u := s.sess[id].res, t.sess[id].res;
      match es[0].o
      case HitsLimit =>
        u.st == Ready && HasGivenBack(r, u) && t.used == s.used - {s.sess[id].slot} && t.inMap == s.inMap - {id}
      case Fails => u == r && t.used == s.used && t.inMap == s.inMap
      case Succeeds =>
        u.st == Stopped && HasGivenBack(r, u) && t.used == s.used - {s.sess[id].slot} && t.inMap == s.inMap - {id}
  {
    assert es[0] in es;
    var a := Answers(_ => true, es[0].o);
    var r := s.sess[id].res;
    var s1 := Apply(s, es[0]);
    assert OwnSteps(es[1..], id);
    ForcedRun(s1, es[1..], t, id, a);
    EndedAfterStep(s, id, a, s1);
    match es[0].o {
      case HitsLimit => LimitOutcome(r, a);
      case Fails => ErrorOutcome(r, a);
      case Succeeds => SuccessOutcome(r, a);
    }
  }

  predicate HasGivenBack(r: Res, u: Res) {
    && u.vm != Live && (r.vm != Live ==> u.vm == r.vm)
    && u.deletes == r.deletes + 1 && u.frees == r.frees + 1 && u.forgotten
    && u.creates == r.creates && u.allocs == r.allocs && u.mountFailed == r.mountFailed
  }

  /** A session that Stop was accepted for, once Stop's cleanup has run to its end by itself: Stopped, with
      everything given back and gone from the map. */
  lemma CleanupOutcome(s: Sys, es: seq<Event>, t: Sys, id: Id)
    requires Enabled(s, StopAccept(id)) && !s.sess[id].res.forgotten
    requires Runs(Apply(s, StopAccept(id)), es, t) && CleanSteps(es, id)
    requires id in t.sess && t.sess[id].stopper == Ret
    ensures t.sess[id].res.st == Stopped && HasGivenBack(s.sess[id].res, t.sess[id].res)
    ensures t.sess == s.sess[id := s.sess[id].(stopper := Ret, res := t.sess[id].res)]
    ensures t == s.(sess := t.sess, used := s.used - {s.sess[id].slot}, inMap := s.inMap - {id})
  {
    var s1 := Apply(s, StopAccept(id));
    var a := Answers(_ => true, Succeeds);
    CleanupAlone(s1.sess[id].res, a);
    CleanRun(s1, es, t, id, a);
  }

  function CleanEnded(s: Sys, id: Id, a: Answers): Sys
    requires id in s.sess
  {
    var x := s.sess[id];
    var r := RunAlone(x.stopper, x.res, a);
    s.(sess := s.sess[id := x.(stopper := Ret, res := r)],
       used := if r.frees > x.res.frees then s.used - {x.slot} else s.used,
       inMap := if r.forgotten then s.inMap - {id} else s.inMap)
  }

  lemma {:induction false} CleanRun(s: Sys, es: seq<Event>, t: Sys, id: Id, a: Answers)
    requires id in s.sess && Forced(s.sess[id].stopper) && (s.sess[id].res.forgotten ==> id !in s.inMap)
    requires Runs(s, es, t) && CleanSteps(es, id) && id in t.sess && t.sess[id].stopper == Ret
    ensures t == CleanEnded(s, id, a)
    decreases es
  {
    var x := s.sess[id];
    if es == [] {
      assert s.sess[id := x.(stopper := Ret, res := x.res)] == s.sess;
    } else {
      assert es[0] in es;
      var s1 := Apply(s, CleanStep(id));
      assert CleanSteps(es[1..], id) by {
        forall e | e in es[1..] ensures e == CleanStep(id) {
          assert e in es;
        }
      }
      CleanRun(s1, es[1..], t, id, a);
    }
  }

  predicate CleanSteps(es: seq<Event>, id: Id) {
    forall e | e in es :: e == CleanStep(id)
  }
}
