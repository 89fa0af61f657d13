/** Runs of the session protocol, each from any manager that has just started, that end where the code's
    comments do not expect it. */
module Departures {
  import opened Lifecycle
  import opened Slots
  import opened SessionProtocol
  import opened StopRaces

  // ----- driving boot ---------------------------------------------------------------------------

  /** With no call failing, `p` takes a session from `st` to where `q` is left to do in `st2`. */
  predicate Leads(p: Prog, st: State, q: Prog, st2: State) {
    (p == q && st == st2) ||
    match p
    case Attempt(_, ok, _) => Leads(ok, st, q, st2)
    case Move(to, ok, _) => Allowed(st, to) && Leads(ok, to, q, st2)
    case _ => false
  }

  lemma {:induction false} DriveAlong(s: Sys, id: Id, q: Prog, st2: State) returns (es: seq<Event>, t: Sys)
    requires id in s.sess && Leads(s.sess[id].boot, s.sess[id].res.st, q, st2)
    ensures QuietRun(s, es, t) && id in t.sess
    ensures t == s.(sess := s.sess[id := t.sess[id]])
    ensures t.sess[id].slot == s.sess[id].slot && t.sess[id].boot == q && t.sess[id].stopper == s.sess[id].stopper
    ensures t.sess[id].res.st == st2
    ensures t.sess[id].res.frees == s.sess[id].res.frees && t.sess[id].res.allocs == s.sess[id].res.allocs
    decreases s.sess[id].boot
  {
    if s.sess[id].boot == q && s.sess[id].res.st == st2 {
      es, t := [], s;
    } else {
      var e := BootStep(id, Succeeds);
      var s1 := Apply(s, e);
      var more;
      more, t := DriveAlong(s1, id, q, st2);
      es := [e] + more;
      assert es[1..] == more;
    }
  }

  function LaunchStep(interactive: bool, mount: bool): Prog {
    Attempt(Launch, AfterLaunch(interactive, mount), DeleteSnapshot(FAIL))
  }

  function MountStep(interactive: bool): Prog {
    Attempt(MountWorkspace, Finish(interactive), FAIL)
  }

  /** Creates a session and takes it to its launch. */
  lemma DriveToLaunch(s: Sys, id: Id, interactive: bool, mount: bool) returns (es: seq<Event>, t: Sys)
    requires id !in s.sess && Alloc(s.used, s.maxSlots).Some?
    ensures QuietRun(s, es, t) && id in t.sess && t.maxSlots == s.maxSlots && id in t.inMap
    ensures t.sess[id].boot == LaunchStep(interactive, mount) && t.sess[id].stopper == Ret
    ensures t.sess[id].res.st == Booting && t.sess[id].res.frees == 0
  {
    var e := Create(id, interactive, mount);
    var s1 := Apply(s, e);
    var fs;
    fs, t := DriveAlong(s1, id, LaunchStep(interactive, mount), Booting);
    es := [e] + fs;
    QuietJoin(s, [e], s1, fs, t);
  }

  lemma QuietKeepsInv(s: Sys, es: seq<Event>, t: Sys)
    requires Initial(s) && QuietRun(s, es, t)
    ensures Inv(t) && (WithinLimit(s) ==> WithinLimit(t))
  {
    QuietIsDisciplined(s, es, t);
    InitialInv(s);
    RunKeepsInv(s, es, t);
    if WithinLimit(s) { RunStaysWithinLimit(s, es, t); }
  }

  // ----- a Stop during claude ---------------------------------------------------------------------

  /** From any fresh or recovered manager with a free slot, a non-interactive session can get as far as
      running claude. */
  lemma AgentRuns(s: Sys, id: Id) returns (es: seq<Event>, t: Sys)
    requires Initial(s) && id !in s.sess && Alloc(s.used, s.maxSlots).Some?
    ensures QuietRun(s, es, t) && Inv(t) && id in t.sess && id in t.inMap && t.maxSlots == s.maxSlots
    ensures t.sess[id].boot == CLAUDE && t.sess[id].stopper == Ret
    ensures t.sess[id].res.st == Ready && t.sess[id].res.frees == 0
    ensures WithinLimit(s) ==> WithinLimit(t)
  {
    var es1, s1 := DriveToLaunch(s, id, false, false);
    var es2;
    es2, t := DriveAlong(s1, id, CLAUDE, Ready);
    QuietJoin(s, es1, s1, es2, t);
    es := es1 + es2;
    QuietKeepsInv(s, es, t);
  }

  /** And an outside Stop that comes then is accepted and is not safe. */
  lemma UnsafeStopIsMet(s: Sys, id: Id) returns (es: seq<Event>, t: Sys)
    requires Initial(s) && id !in s.sess && Alloc(s.used, s.maxSlots).Some?
    ensures QuietRun(s, es, t) && Inv(t) && Enabled(t, StopAccept(id)) && !StopSafe(t.sess[id])
    ensures WithinLimit(s) ==> WithinLimit(t)
  {
    var fs, m := AgentRuns(s, id);
    t := Apply(m, StopLookup(id));
    QuietJoin(s, fs, m, [StopLookup(id)], t);
    es := fs + [StopLookup(id)];
    StepKeepsInv(m, StopLookup(id));
  }

  /** So from every such manager there is a run in which one Stop makes two sessions own one slot, */
  lemma StopDuringClaudeSharesSlot(s: Sys, id: Id) returns (es: seq<Event>, m: Sys, fs: seq<Event>, t: Sys,
      b: Id, c: Id)
    requires Initial(s) && WithinLimit(s) && id !in s.sess && Alloc(s.used, s.maxSlots).Some?
    ensures DisciplinedRun(s, es, m) && Enabled(m, StopAccept(id)) && QuietRun(Apply(m, StopAccept(id)), fs, t)
    ensures b != c && b in t.sess && c in t.sess && Owns(t.sess[b]) && Owns(t.sess[c])
    ensures t.sess[b].slot == t.sess[c].slot
  {
    es, m := UnsafeStopIsMet(s, id);
    QuietIsDisciplined(s, es, m);
    fs, t, b, c := UnsafeStopSharesSlot(m, id);
  }

  /** and one in which it makes its session release its slot twice. */
  lemma StopDuringClaudeFreesTwice(s: Sys, id: Id) returns (es: seq<Event>, m: Sys, fs: seq<Event>, t: Sys)
    requires Initial(s) && id !in s.sess && Alloc(s.used, s.maxSlots).Some?
    ensures DisciplinedRun(s, es, m) && Enabled(m, StopAccept(id)) && QuietRun(Apply(m, StopAccept(id)), fs, t)
    ensures id in t.sess && t.sess[id].res.frees == 2
  {
    es, m := UnsafeStopIsMet(s, id);
    QuietIsDisciplined(s, es, m);
    fs, t := UnsafeStopFreesTwice(m, id);
  }

  // ----- how the claude run comes out --------------------------------------------------------------

  /** After the first `n` events of `es` the session is Ready and about to run claude, and event `n` is the end of
      that run, with outcome `o`. */
  ghost predicate ClaudeEndsAt(s: Sys, es: seq<Event>, n: nat, m: Sys, id: Id, o: Outcome) {
    && n < |es| && Runs(s, es[..n], m) && es[n] == BootStep(id, o)
    && id in m.sess && m.sess[id].boot == CLAUDE && m.sess[id].res.st == Ready
  }

  ghost predicate ClaudeEnds(s: Sys, es: seq<Event>, id: Id, o: Outcome) {
    exists n: nat, m: Sys :: ClaudeEndsAt(s, es, n, m, id, o)
  }

  lemma ClaudeEndsHere(s: Sys, es: seq<Event>, m: Sys, id: Id, o: Outcome, fs: seq<Event>)
    requires QuietRun(s, es, m) && id in m.sess && m.sess[id].boot == CLAUDE && m.sess[id].res.st == Ready
    requires fs != [] && fs[0] == BootStep(id, o)
    ensures ClaudeEnds(s, es + fs, id, o)
  {
    QuietIsDisciplined(s, es, m);
    assert (es + fs)[..|es|] == es;
    assert ClaudeEndsAt(s, es + fs, |es|, m, id, o);
  }

  lemma ClaudeStillEnds(s: Sys, es: seq<Event>, fs: seq<Event>, id: Id, o: Outcome)
    requires ClaudeEnds(s, es, id, o)
    ensures ClaudeEnds(s, es + fs, id, o)
  {
    var n: nat, m :| ClaudeEndsAt(s, es, n, m, id, o);
    assert (es + fs)[..n] == es[..n];
    assert ClaudeEndsAt(s, es + fs, n, m, id, o);
  }

  // ----- an error of claude -------------------------------------------------------------------------

  /** A claude error: the request for Failed is refused, and nothing is left to do. The session stays Ready, with
      its VM, its snapshot and its slot, */
  lemma ClaudeErrorLeavesReady(s: Sys, id: Id) returns (es: seq<Event>, t: Sys)
    requires Initial(s) && id !in s.sess && Alloc(s.used, s.maxSlots).Some?
    ensures DisciplinedRun(s, es, t) && ClaudeEnds(s, es, id, Fails)
    ensures id in t.sess && AtRest(t.sess[id]) && IdleReady(t.sess[id].res)
  {
    var es1, s1 := AgentRuns(s, id);
    var es2;
    es2, t := ClaudeFails(s1, id);
    ClaudeEndsHere(s, es1, s1, id, Fails, es2);
    QuietJoin(s, es1, s1, es2, t);
    es := es1 + es2;
    QuietKeepsInv(s, es, t);
    QuietIsDisciplined(s, es, t);
    assert Guard(Ret, t.sess[id].res);
  }

  lemma ClaudeFails(s: Sys, id: Id) returns (es: seq<Event>, t: Sys)
    requires id in s.sess && s.sess[id].boot == CLAUDE && s.sess[id].res.st == Ready
    ensures QuietRun(s, es, t) && t == s.(sess := s.sess[id := s.sess[id].(boot := Ret)])
    ensures es != [] && es[0] == BootStep(id, Fails)
  {
    var e1, e2 := BootStep(id, Fails), BootStep(id, Succeeds);
    var s1 := Apply(s, e1);
    t := Apply(s1, e2);
    es := [e1] + [e2];
    QuietJoin(s, [e1], s1, [e2], t);
  }

  predicate AtRest(x: Sess) {
    x.boot == Ret && x.stopper == Ret && x.res.st == Ready
  }

  /** for as long as nobody stops it. */
  lemma {:induction false} RestsUntilStopped(s: Sys, es: seq<Event>, t: Sys, id: Id)
    requires Runs(s, es, t) && id in s.sess && AtRest(s.sess[id]) && StopAccept(id) !in es
    ensures id in t.sess && t.sess[id] == s.sess[id]
    decreases es
  {
    if es != [] {
      RestsUntilStopped(Apply(s, es[0]), es[1..], t, id);
    }
  }

  // ----- a failed mount ------------------------------------------------------------------------------

  /** The workspace mount fails: the slot goes to another session while the VM runs on, with its snapshot. */
  lemma MountFailureSharesSlot(s: Sys, a: Id) returns (es: seq<Event>, t: Sys, b: Id)
    requires Initial(s) && WithinLimit(s) && a !in s.sess && Alloc(s.used, s.maxSlots).Some?
    ensures DisciplinedRun(s, es, t) && a != b && a in t.sess && b in t.sess && t.sess[a].slot == t.sess[b].slot
    ensures t.sess[a].boot == Ret && t.sess[a].res.st == Failed && !Owns(t.sess[a])
    ensures t.sess[a].res.vm == Live && t.sess[a].res.deletes < t.sess[a].res.creates
    ensures Owns(t.sess[b]) && t.sess[b].boot == Boot(true, false)
  {
    var es1, s1 := FailedMount(s, a);
    var es2;
    es2, t, b := FillSlot(s1, s1.sess[a].slot);
    QuietJoin(s, es1, s1, es2, t);
    es := es1 + es2;
    QuietIsDisciplined(s, es, t);
  }

  lemma FailedMount(s: Sys, a: Id) returns (es: seq<Event>, t: Sys)
    requires Initial(s) && WithinLimit(s) && a !in s.sess && Alloc(s.used, s.maxSlots).Some?
    ensures QuietRun(s, es, t) && WithinLimit(t) && a in t.sess && t.sess[a].slot !in t.used
    ensures t.sess[a].boot == Ret && t.sess[a].res.st == Failed && !Owns(t.sess[a])
    ensures t.sess[a].res.vm == Live && t.sess[a].res.deletes < t.sess[a].res.creates
  {
    var es1, s1 := DriveToLaunch(s, a, true, true);
    var es2, s2 := DriveAlong(s1, a, MountStep(true), Configuring);
    QuietJoin(s, es1, s1, es2, s2);
    var es3;
    es3, t := MountFails(s2, a);
    QuietJoin(s, es1 + es2, s2, es3, t);
    es := es1 + es2 + es3;
    QuietKeepsInv(s, es, t);
  }

  lemma MountFails(s: Sys, a: Id) returns (es: seq<Event>, t: Sys)
    requires a in s.sess && s.sess[a].boot == MountStep(true) && s.sess[a].res.st == Configuring
    ensures QuietRun(s, es, t) && a in t.sess && t.sess[a].slot == s.sess[a].slot && t.sess[a].slot !in t.used
    ensures t.sess[a].boot == Ret && t.sess[a].stopper == s.sess[a].stopper
    ensures t.sess[a].res == s.sess[a].res.(st := Failed, mountFailed := true, frees := s.sess[a].res.frees + 1)
  {
    var e1, e2, e3 := BootStep(a, Fails), BootStep(a, Succeeds), BootStep(a, Succeeds);
    var s1 := Apply(s, e1);
    var s2 := Apply(s1, e2);
    QuietJoin(s, [e1], s1, [e2], s2);
    t := Apply(s2, e3);
    es := [e1] + [e2] + [e3];
    QuietJoin(s, [e1] + [e2], s2, [e3], t);
  }

  // ----- what a usage limit leaves -------------------------------------------------------------------

  /** `p` runs to its end in state Ready, with every request for Failed refused. */
  predicate Unwinds(p: Prog) {
    match p
    case Ret => true
    case StopVM(next) => Unwinds(next)
    case DeleteSnapshot(next) => Unwinds(next)
    case ReleaseSlot(next) => Unwinds(next)
    case Forget(next) => Unwinds(next)
    case Move(to, _, err) => to == Failed && Unwinds(err)
    case RunClaude(limit, _, _) => Unwinds(limit)
    case Attempt(_, _, _) => false
  }

  function Releases(p: Prog): nat {
    match p
    case StopVM(next) => Releases(next)
    case DeleteSnapshot(next) => Releases(next)
    case ReleaseSlot(next) => 1 + Releases(next)
    case Forget(next) => Releases(next)
    case Move(_, _, err) => Releases(err)
    case RunClaude(limit, _, _) => Releases(limit)
    case _ => 0
  }

  lemma {:induction false} DriveToEnd(s: Sys, id: Id) returns (es: seq<Event>, t: Sys)
    requires id in s.sess && s.sess[id].res.st == Ready && Unwinds(s.sess[id].boot)
    ensures QuietRun(s, es, t) && id in t.sess && t.sess[id].boot == Ret && t.sess[id].res.st == Ready
    ensures t.sess.Keys == s.sess.Keys && t.sess[id].slot == s.sess[id].slot && t.maxSlots == s.maxSlots
    ensures t.used == if Releases(s.sess[id].boot) > 0 then s.used - {s.sess[id].slot} else s.used
    ensures s.sess[id].boot != Ret ==> es != [] && es[0] == BootStep(id, HitsLimit)
    decreases s.sess[id].boot
  {
    if s.sess[id].boot == Ret {
      es, t := [], s;
    } else {
      var e := BootStep(id, HitsLimit);
      var s1 := Apply(s, e);
      var rest;
      rest, t := DriveToEnd(s1, id);
      es := [e] + rest;
      assert es[1..] == rest;
    }
  }

  /** A usage limit met by the claude run: the session is gone and its slot is free, but its state, and so
      its row, still says Ready. */
  lemma LimitLeavesReady(s: Sys, a: Id) returns (es: seq<Event>, t: Sys)
    requires Initial(s) && WithinLimit(s) && a !in s.sess && Alloc(s.used, s.maxSlots).Some?
    ensures QuietRun(s, es, t) && ClaudeEnds(s, es, a, HitsLimit) && WithinLimit(t) && a in t.sess
    ensures t.sess[a].res.st == Ready && t.sess[a].boot == Ret && t.sess[a].slot !in t.used
  {
    var es1, s1 := AgentRuns(s, a);
    LimitUnwinds();
    var es2;
    es2, t := DriveToEnd(s1, a);
    ClaudeEndsHere(s, es1, s1, a, HitsLimit, es2);
    QuietJoin(s, es1, s1, es2, t);
    QuietIsDisciplined(s1, es2, t);
    RunStaysWithinLimit(s1, es2, t);
    es := es1 + es2;
  }

  lemma LimitUnwinds()
    ensures Unwinds(CLAUDE) && Releases(CLAUDE) == 1
  {
    assert Unwinds(TEARDOWN) && Releases(TEARDOWN) == 1;
  }

  /** A later session on that slot makes two that say Ready, and on its way there, with its VM launched, one
      that says Ready and one that says Booting. The runs need no Stop at all. */
  lemma LimitLeavesTwoReady(s: Sys, a: Id) returns (es: seq<Event>, t: Sys, b: Id)
    requires Initial(s) && WithinLimit(s) && a !in s.sess && Alloc(s.used, s.maxSlots).Some?
    ensures DisciplinedRun(s, es, t) && ClaudeEnds(s, es, a, HitsLimit) && a != b && a in t.sess && b in t.sess
    ensures t.sess[a].res.st == t.sess[b].res.st == Ready && t.sess[a].slot == t.sess[b].slot
  {
    var es1, s1;
    es1, s1, b := LimitLeavesReadyAndBooting(s, a);
    AfterLaunchLeads();
    var es2;
    es2, t := DriveAlong(s1, b, Ret, Ready);
    QuietJoin(s, es1, s1, es2, t);
    ClaudeStillEnds(s, es1, es2, a, HitsLimit);
    es := es1 + es2;
    QuietIsDisciplined(s, es, t);
  }

  lemma AfterLaunchLeads()
    ensures Leads(AfterLaunch(true, false), Booting, Ret, Ready)
  {
    assert Leads(Finish(true), Configuring, Ret, Ready);
  }

  lemma LimitLeavesReadyAndBooting(s: Sys, a: Id) returns (es: seq<Event>, t: Sys, b: Id)
    requires Initial(s) && WithinLimit(s) && a !in s.sess && Alloc(s.used, s.maxSlots).Some?
    ensures QuietRun(s, es, t) && ClaudeEnds(s, es, a, HitsLimit)
    ensures a != b && a in t.sess && b in t.sess && t.sess[a].slot == t.sess[b].slot
    ensures t.sess[a].res.st == Ready && t.sess[a].boot == Ret
    ensures t.sess[b].res.st == Booting && t.sess[b].res.vm == Live && t.sess[b].boot == AfterLaunch(true, false)
  {
    var es1, s1 := LimitLeavesReady(s, a);
    var es2;
    es2, t, b := NextBoots(s1, s1.sess[a].slot);
    QuietJoin(s, es1, s1, es2, t);
    ClaudeStillEnds(s, es1, es2, a, HitsLimit);
    es := es1 + es2;
  }

  /** A free slot within the limit goes to some new session, whose VM is then launched. */
  lemma NextBoots(s: Sys, k: int) returns (es: seq<Event>, t: Sys, b: Id)
    requires WithinLimit(s) && InRange(s.maxSlots, k) && k !in s.used
    ensures QuietRun(s, es, t) && b !in s.sess && b in t.sess && t.sess[b].slot == k
    ensures forall id | id in s.sess :: id in t.sess && t.sess[id] == s.sess[id]
    ensures t.sess[b].res.st == Booting && t.sess[b].res.vm == Live && t.sess[b].boot == AfterLaunch(true, false)
  {
    var es1, s1;
    es1, s1, b := FillSlot(s, k);
    var es2, s2 := DriveAlong(s1, b, LaunchStep(true, false), Booting);
    QuietJoin(s, es1, s1, es2, s2);
    var e := BootStep(b, Succeeds);
    t := Apply(s2, e);
    es := es1 + es2 + [e];
    QuietJoin(s, es1 + es2, s2, [e], t);
  }
}
