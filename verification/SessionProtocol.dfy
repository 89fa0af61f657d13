/** Sessions, their boot and cleanup goroutines, and the slots, snapshots and VMs they hold
    (Create, boot and Stop in cmd/poc/main.go), over every interleaving. */
module SessionProtocol {
  import opened Options
  import opened Sets
  import opened Lifecycle
  import opened Slots

  // ----- the goroutines as programs ---------------------------------------------

  datatype Io = CreateSnapshot | InjectNetwork | Launch | WaitForSSH | MountWorkspace

  /** What a goroutine still has to do. Each constructor is one step: an I/O call that may succeed or
      fail, a requested state transition, or one lock-protected block. */
  datatype Prog =
    | Ret
    | Attempt(io: Io, ok: Prog, err: Prog)
    | Move(to: State, ok: Prog, err: Prog)
    | RunClaude(limit: Prog, error: Prog, success: Prog)
    | StopVM(next: Prog)
    | DeleteSnapshot(next: Prog)
    | ReleaseSlot(next: Prog)
    | Forget(next: Prog)

  /** The `fail` closure of boot: the slot is released before the state becomes Failed. */
  const FAIL := ReleaseSlot(Move(Failed, Ret, Ret))

  /** The cleanup that Stop runs, and that a finished non-interactive run performs inline. */
  const CLEANUP := StopVM(DeleteSnapshot(ReleaseSlot(Move(Stopped, Forget(Ret), Forget(Ret)))))

  /** The teardown after a usage limit. */
  const TEARDOWN := StopVM(DeleteSnapshot(ReleaseSlot(Forget(Ret))))

  const LIMIT_TAIL := Move(Failed, TEARDOWN, TEARDOWN)
  const ERROR_TAIL := Move(Failed, TEARDOWN, Ret)
  const SUCCESS_TAIL := Move(Stopping, CLEANUP, CLEANUP)
  const CLAUDE := RunClaude(LIMIT_TAIL, ERROR_TAIL, SUCCESS_TAIL)

  function Finish(interactive: bool): Prog {
    Move(Ready, if interactive then Ret else CLAUDE, Ret)
  }

  function Configure(interactive: bool, mount: bool): Prog {
    if mount then Attempt(MountWorkspace, Finish(interactive), FAIL) else Finish(interactive)
  }

  function AfterLaunch(interactive: bool, mount: bool): Prog {
    Move(WaitingSSH,
         Attempt(WaitForSSH,
                 Move(Configuring, Configure(interactive, mount), Ret),
                 StopVM(DeleteSnapshot(FAIL))),
         StopVM(DeleteSnapshot(Ret)))
  }

  /** boot, from the snapshot on. `mount` says that a repository was requested. */
  function Boot(interactive: bool, mount: bool): Prog {
    Attempt(CreateSnapshot,
            Attempt(InjectNetwork,
                    Move(Booting,
                         Attempt(Launch, AfterLaunch(interactive, mount), DeleteSnapshot(FAIL)),
                         DeleteSnapshot(Ret)),
                    DeleteSnapshot(FAIL)),
            FAIL)
  }

  // ----- one step of one goroutine ----------------------------------------------

  datatype Vm = NotLaunched | Live | StopCalled

  /** What one session holds, with counts of what was done on its behalf. */
  datatype Res = Res(st: State, vm: Vm, creates: nat, deletes: nat, allocs: nat, frees: nat, mountFailed: bool,
      forgotten: bool)

  datatype Outcome = Succeeds | Fails | HitsLimit

  function AfterIo(io: Io, ok: bool, r: Res): Res {
    match io
    case CreateSnapshot => if ok then r.(creates := r.creates + 1) else r
    case Launch => if ok then r.(vm := Live) else r
    case MountWorkspace => if ok then r else r.(mountFailed := true)
    case InjectNetwork => r
    case WaitForSSH => r
  }

  function Exec(p: Prog, r: Res, o: Outcome): (Prog, Res) {
    match p
    case Ret => (Ret, r)
    case Attempt(io, ok, err) => if o == Succeeds then (ok, AfterIo(io, true, r)) else (err, AfterIo(io, false, r))
    case Move(to, ok, err) => if Allowed(r.st, to) then (ok, r.(st := to)) else (err, r)
    case RunClaude(limit, error, success) =>
      (match o case HitsLimit => limit case Fails => error case Succeeds => success, r)
    case StopVM(next) => (next, if r.vm == Live then r.(vm := StopCalled) else r)
    case DeleteSnapshot(next) => (next, r.(deletes := r.deletes + 1))
    case ReleaseSlot(next) => (next, r.(frees := r.frees + 1))
    case Forget(next) => (next, r.(forgotten := true))
  }

  // ----- what must hold at every step of a session --------------------------------

  /** Nothing is freed twice or deleted twice; a session that shows Stopped or Failed has released its
      slot; a released slot has no live VM and no undeleted snapshot, unless the workspace mount
      failed, in which case both are left behind for good. */
  predicate Sound(r: Res) {
    && r.frees <= r.allocs <= 1
    && r.deletes <= r.creates <= 1
    && (if r.st in {Stopped, Failed} then r.frees == r.allocs else r.allocs == 1)
    && (r.vm == Live ==> r.creates == 1 && r.deletes == 0)
    && (r.frees == r.allocs && !r.mountFailed ==> r.vm != Live && r.deletes == r.creates)
    && (r.mountFailed ==> r.vm == Live && r.st in {Configuring, Failed})
    && (r.forgotten ==> r.frees == r.allocs)
  }

  /** The points boot can be at while the session is Ready. */
  predicate ReadyPoint(p: Prog) {
    || p in {Ret, CLAUDE, LIMIT_TAIL, ERROR_TAIL, SUCCESS_TAIL, Forget(Ret)}
    || p in {TEARDOWN, DeleteSnapshot(ReleaseSlot(Forget(Ret))), ReleaseSlot(Forget(Ret))}
  }

  /** What must hold of the action about to be taken. */
  predicate Guard(p: Prog, r: Res) {
    && Sound(r)
    && (r.st == Ready ==> ReadyPoint(p))
    && match p
       case Ret =>
         if r.st == Ready && r.frees < r.allocs then r.vm == Live
         else
           && r.frees == r.allocs && r.st in {Ready, Stopped, Failed}
           && (r.allocs == 1 && r.st != Failed ==> r.forgotten)
       case Move(to, _, _) => if p in {LIMIT_TAIL, ERROR_TAIL} then r.st == Ready else Allowed(r.st, to)
       case DeleteSnapshot(_) => r.deletes < r.creates && r.vm != Live
       case ReleaseSlot(_) => r.frees < r.allocs
       case Forget(_) => r.frees == r.allocs
       case _ => true
  }

  /** `p` can be run from `r` with every guard met, whatever each I/O call answers. */
  predicate Safe(p: Prog, r: Res) {
    Guard(p, r) &&
    match p
    case Ret => true
    case Attempt(io, ok, err) => Safe(ok, AfterIo(io, true, r)) && Safe(err, AfterIo(io, false, r))
    case Move(to, ok, err) => if Allowed(r.st, to) then Safe(ok, r.(st := to)) else Safe(err, r)
    case RunClaude(limit, error, success) => Safe(limit, r) && Safe(error, r) && Safe(success, r)
    case StopVM(next) => Safe(next, if r.vm == Live then r.(vm := StopCalled) else r)
    case DeleteSnapshot(next) => Safe(next, r.(deletes := r.deletes + 1))
    case ReleaseSlot(next) => Safe(next, r.(frees := r.frees + 1))
    case Forget(next) => Safe(next, r.(forgotten := true))
  }

  lemma SafeAttempt(io: Io, ok: Prog, err: Prog, r: Res)
    requires Sound(r) && r.st != Ready && Safe(ok, AfterIo(io, true, r)) && Safe(err, AfterIo(io, false, r))
    ensures Safe(Attempt(io, ok, err), r)
  {
  }

  lemma SafeStop(next: Prog, r: Res)
    requires Sound(r) && r.vm == Live && Safe(next, r.(vm := StopCalled))
    requires r.st == Ready ==> next == DeleteSnapshot(ReleaseSlot(Forget(Ret)))
    ensures Safe(StopVM(next), r)
  {
  }

  lemma FailIsSafe(r: Res)
    requires Sound(r) && r.frees < r.allocs && r.st in {Provisioning, Booting, WaitingSSH, Configuring}
    requires r.mountFailed || (r.vm != Live && r.deletes == r.creates)
    ensures Safe(FAIL, r)
  {
    var r1 := r.(frees := r.frees + 1);
    assert Safe(Ret, r1.(st := Failed));
    assert Safe(Move(Failed, Ret, Ret), r1);
  }

  lemma DeleteThenFailIsSafe(r: Res)
    requires Sound(r) && r.frees < r.allocs && r.st in {Provisioning, Booting, WaitingSSH, Configuring}
    requires r.creates == 1 && r.deletes == 0 && !r.mountFailed
    ensures r.vm != Live ==> Safe(DeleteSnapshot(FAIL), r)
    ensures Safe(StopVM(DeleteSnapshot(FAIL)), r)
  {
    var stopped := if r.vm == Live then r.(vm := StopCalled) else r;
    FailIsSafe(stopped.(deletes := 1));
    assert Safe(DeleteSnapshot(FAIL), stopped);
  }

  /** A Ready session that still owns everything. */
  predicate IdleReady(r: Res) {
    && r.st == Ready && !r.forgotten && r.vm == Live && !r.mountFailed
    && r.creates == 1 && r.deletes == 0 && r.allocs == 1 && r.frees == 0
  }

  lemma CleanupIsSafe(r: Res)
    requires r.st == Stopping && IdleReady(r.(st := Ready))
    ensures Safe(CLEANUP, r)
  {
    var r1 := r.(vm := StopCalled);
    var r2 := r1.(deletes := 1);
    var r3 := r2.(frees := 1);
    var last := Move(Stopped, Forget(Ret), Forget(Ret));
    assert Safe(Ret, r3.(st := Stopped, forgotten := true));
    assert Safe(Forget(Ret), r3.(st := Stopped));
    SafeStop(DeleteSnapshot(ReleaseSlot(last)), r);
  }

  lemma TeardownIsSafe(r: Res)
    requires IdleReady(r)
    ensures Safe(TEARDOWN, r)
  {
    var r1 := r.(vm := StopCalled);
    var r2 := r1.(deletes := 1);
    assert Safe(Ret, r2.(frees := 1, forgotten := true));
    assert Safe(Forget(Ret), r2.(frees := 1));
    SafeStop(DeleteSnapshot(ReleaseSlot(Forget(Ret))), r);
  }

  lemma ClaudeIsSafe(r: Res)
    requires IdleReady(r)
    ensures Safe(CLAUDE, r)
  {
    TeardownIsSafe(r);
    assert Safe(LIMIT_TAIL, r);
    assert Safe(ERROR_TAIL, r);
    CleanupIsSafe(r.(st := Stopping));
    assert Safe(SUCCESS_TAIL, r);
  }

  const NEW_SESSION := Res(Provisioning, NotLaunched, 0, 0, 1, 0, false, false)

  lemma FinishIsSafe(interactive: bool, r: Res)
    requires r.st == Configuring && IdleReady(r.(st := Ready))
    ensures Safe(Finish(interactive), r)
  {
    var run := if interactive then Ret else CLAUDE;
    assert Safe(run, r.(st := Ready)) by { if !interactive { ClaudeIsSafe(r.(st := Ready)); } }
  }

  lemma ConfigureIsSafe(interactive: bool, mount: bool, r: Res)
    requires r.st == Configuring && IdleReady(r.(st := Ready))
    ensures Safe(Configure(interactive, mount), r)
  {
    FinishIsSafe(interactive, r);
    MountIsSafe(Finish(interactive), r);
  }

  lemma MountIsSafe(finish: Prog, r: Res)
    requires r.st == Configuring && IdleReady(r.(st := Ready)) && Safe(finish, r)
    ensures Safe(Attempt(MountWorkspace, finish, FAIL), r)
  {
    FailIsSafe(r.(mountFailed := true));
    SafeAttempt(MountWorkspace, finish, FAIL, r);
  }

  lemma AfterLaunchIsSafe(interactive: bool, mount: bool, r: Res)
    requires r.st == Booting && IdleReady(r.(st := Ready))
    ensures Safe(AfterLaunch(interactive, mount), r)
  {
    var r1 := r.(st := WaitingSSH);
    var configure, undo := Move(Configuring, Configure(interactive, mount), Ret), StopVM(DeleteSnapshot(FAIL));
    ConfigureIsSafe(interactive, mount, r.(st := Configuring));
    DeleteThenFailIsSafe(r1);
    SafeAttempt(WaitForSSH, configure, undo, r1);
  }

  lemma PrepareIsSafe(launch: Prog)
    requires Safe(launch, NEW_SESSION.(creates := 1, st := Booting))
    ensures Safe(Attempt(InjectNetwork, Move(Booting, launch, DeleteSnapshot(Ret)), DeleteSnapshot(FAIL)),
        NEW_SESSION.(creates := 1))
  {
    var r1 := NEW_SESSION.(creates := 1);
    DeleteThenFailIsSafe(r1);
    SafeAttempt(InjectNetwork, Move(Booting, launch, DeleteSnapshot(Ret)), DeleteSnapshot(FAIL), r1);
  }

  lemma LaunchIsSafe(after: Prog)
    requires Safe(after, NEW_SESSION.(creates := 1, st := Booting, vm := Live))
    ensures Safe(Attempt(Launch, after, DeleteSnapshot(FAIL)), NEW_SESSION.(creates := 1, st := Booting))
  {
    var r2 := NEW_SESSION.(creates := 1, st := Booting);
    DeleteThenFailIsSafe(r2);
    SafeAttempt(Launch, after, DeleteSnapshot(FAIL), r2);
  }

  lemma BootIsSafe(interactive: bool, mount: bool)
    ensures Safe(Boot(interactive, mount), NEW_SESSION)
  {
    var after := AfterLaunch(interactive, mount);
    AfterLaunchIsSafe(interactive, mount, NEW_SESSION.(creates := 1, st := Booting, vm := Live));
    LaunchIsSafe(after);
    PrepareIsSafe(Attempt(Launch, after, DeleteSnapshot(FAIL)));
    FailIsSafe(NEW_SESSION);
    SafeAttempt(CreateSnapshot, Boot(interactive, mount).ok, FAIL, NEW_SESSION);
  }

  // ----- the whole system ---------------------------------------------------------

  type Id = nat

  /** `boot` is what the boot goroutine still has to do, `stopper` what Stop's cleanup goroutine has. */
  datatype Sess = Sess(slot: int, res: Res, boot: Prog, stopper: Prog)

  /** `inMap` is the manager's session map; `looked` are the sessions some Stop call holds a pointer to. */
  datatype Sys = Sys(maxSlots: int, used: set<int>, sess: map<Id, Sess>, inMap: set<Id>, looked: set<Id>)

  datatype Event =
    | Create(id: Id, interactive: bool, mount: bool)
    | BootStep(id: Id, o: Outcome)
    | CleanStep(id: Id)
    | StopLookup(id: Id)
    | StopAccept(id: Id)
    | StopForget(id: Id)

  /** A Stop that finds its session Stopped or Failed only removes it from the map; one that finds it
      in another state than Ready does nothing. */
  predicate Enabled(s: Sys, e: Event) {
    match e
    case Create(id, _, _) => id !in s.sess
    case BootStep(id, _) => id in s.sess && s.sess[id].boot != Ret
    case CleanStep(id) => id in s.sess && s.sess[id].stopper != Ret
    case StopLookup(id) => id in s.inMap && id in s.sess
    case StopAccept(id) => id in s.looked && id in s.sess && s.sess[id].res.st == Ready
    case StopForget(id) => id in s.looked && id in s.sess && s.sess[id].res.st in {Stopped, Failed}
  }

  /** The shared state after the action at the head of `p` on behalf of session `id`. */
  function Touch(s: Sys, id: Id, x: Sess, p: Prog): Sys {
    s.(sess := s.sess[id := x],
       used := if p.ReleaseSlot? then s.used - {x.slot} else s.used,
       inMap := if p.Forget? then s.inMap - {id} else s.inMap)
  }

  function Apply(s: Sys, e: Event): Sys
    requires Enabled(s, e)
  {
    match e
    case Create(id, interactive, mount) =>
      (match Alloc(s.used, s.maxSlots)
       case None => s
       case Some(slot) =>
         s.(used := s.used + {slot}, inMap := s.inMap + {id},
            sess := s.sess[id := Sess(slot, NEW_SESSION, Boot(interactive, mount), Ret)]))
    case BootStep(id, o) =>
      var x := s.sess[id];
      var (p, r) := Exec(x.boot, x.res, o);
      Touch(s, id, x.(boot := p, res := r), x.boot)
    case CleanStep(id) =>
      var x := s.sess[id];
      var (p, r) := Exec(x.stopper, x.res, Succeeds);
      Touch(s, id, x.(stopper := p, res := r), x.stopper)
    case StopLookup(id) => s.(looked := s.looked + {id})
    case StopAccept(id) =>
      var x := s.sess[id];
      s.(sess := s.sess[id := x.(res := x.res.(st := Stopping), stopper := CLEANUP)])
    case StopForget(id) => s.(inMap := s.inMap - {id})
  }

  predicate Owns(x: Sess) {
    x.res.frees < x.res.allocs
  }

  /** One goroutine at a time works on a session; when Stop's cleanup does, boot is over, or about to
      find its request for Failed refused. */
  predicate Good(x: Sess) {
    || (x.stopper == Ret && Safe(x.boot, x.res))
    || (x.boot in {Ret, ERROR_TAIL} && x.res.st in {Stopping, Stopped} && Safe(x.stopper, x.res))
  }

  ghost function OwnedSlots(sess: map<Id, Sess>): set<int> {
    set id | id in sess && Owns(sess[id]) :: sess[id].slot
  }

  ghost predicate OwnersDistinct(s: Sys) {
    forall a, b | a in s.sess && b in s.sess && Owns(s.sess[a]) && Owns(s.sess[b]) && s.sess[a].slot == s.sess[b].slot
      :: a == b
  }

  ghost predicate Inv(s: Sys) {
    && (forall id :: id in s.sess ==> Good(s.sess[id]))
    && s.used == OwnedSlots(s.sess)
    && OwnersDistinct(s)
    && s.inMap <= s.sess.Keys && s.looked <= s.sess.Keys
    && (forall id | id in s.inMap :: !s.sess[id].res.forgotten)
  }

  /** An outside Stop may be accepted only when boot has finished (or a failed claude run is about to
      be refused) and the slot is still held: claude is not running and no teardown is under way. */
  predicate StopSafe(x: Sess) {
    x.boot in {Ret, ERROR_TAIL} && Owns(x)
  }

  predicate Disciplined(s: Sys, e: Event)
    requires Enabled(s, e)
  {
    e.StopAccept? ==> StopSafe(s.sess[e.id])
  }

  lemma ThreadStepKeepsInv(s: Sys, id: Id, x: Sess, p: Prog)
    requires Inv(s) && id in s.sess && Good(x) && x.slot == s.sess[id].slot
    requires if p.ReleaseSlot? then Owns(s.sess[id]) && !Owns(x) else Owns(s.sess[id]) == Owns(x)
    requires x.res.forgotten ==> s.sess[id].res.forgotten || p.Forget?
    ensures Inv(Touch(s, id, x, p))
  {
    var t := Touch(s, id, x, p);
    forall k ensures k in t.used <==> k in OwnedSlots(t.sess) {
      if k in OwnedSlots(t.sess) {
        var a :| a in t.sess && Owns(t.sess[a]) && t.sess[a].slot == k;
        assert a in s.sess && Owns(s.sess[a]);
      }
      if k in t.used {
        var a :| a in s.sess && Owns(s.sess[a]) && s.sess[a].slot == k;
        assert Owns(t.sess[a]);
      }
    }
  }

  lemma ThreadKeepsOwnership(p: Prog, r: Res, o: Outcome)
    requires Safe(p, r)
    ensures var r' := Exec(p, r, o).1;
      && (if p.ReleaseSlot? then r.frees < r.allocs && r'.frees == r'.allocs
           else r'.frees == r.frees && r'.allocs == r.allocs)
      && (r'.forgotten ==> r.forgotten || p.Forget?)
  {
  }

  lemma BootKeepsInv(s: Sys, id: Id, o: Outcome)
    requires Inv(s) && Enabled(s, BootStep(id, o))
    ensures Inv(Apply(s, BootStep(id, o)))
  {
    var x := s.sess[id];
    var (p, r) := Exec(x.boot, x.res, o);
    if Safe(x.boot, x.res) { ThreadKeepsOwnership(x.boot, x.res, o); }
    ThreadStepKeepsInv(s, id, x.(boot := p, res := r), x.boot);
  }

  lemma CleanKeepsInv(s: Sys, id: Id)
    requires Inv(s) && Enabled(s, CleanStep(id))
    ensures Inv(Apply(s, CleanStep(id)))
  {
    var x := s.sess[id];
    var (p, r) := Exec(x.stopper, x.res, Succeeds);
    ThreadKeepsOwnership(x.stopper, x.res, Succeeds);
    ThreadStepKeepsInv(s, id, x.(stopper := p, res := r), x.stopper);
  }

  lemma SafeStopIsIdle(x: Sess)
    requires Good(x) && x.res.st == Ready && StopSafe(x)
    ensures Good(x.(res := x.res.(st := Stopping), stopper := CLEANUP))
  {
    assert Guard(x.boot, x.res);
    assert Safe(Ret, x.res);
    CleanupIsSafe(x.res.(st := Stopping));
  }

  lemma StopKeepsInv(s: Sys, id: Id)
    requires Inv(s) && Enabled(s, StopAccept(id)) && StopSafe(s.sess[id])
    ensures Inv(Apply(s, StopAccept(id)))
  {
    var x := s.sess[id];
    SafeStopIsIdle(x);
    var y := x.(res := x.res.(st := Stopping), stopper := CLEANUP);
    ThreadStepKeepsInv(s, id, y, Ret);
    assert Touch(s, id, y, Ret) == Apply(s, StopAccept(id));
  }

  /** Every step of a disciplined run keeps the invariant. */
  lemma StepKeepsInv(s: Sys, e: Event)
    requires Inv(s) && Enabled(s, e) && Disciplined(s, e)
    ensures Inv(Apply(s, e))
  {
    match e
    case Create(id, interactive, mount) => CreateKeepsInv(s, id, interactive, mount);
    case BootStep(id, o) => BootKeepsInv(s, id, o);
    case CleanStep(id) => CleanKeepsInv(s, id);
    case StopLookup(id) =>
    case StopAccept(id) => StopKeepsInv(s, id);
    case StopForget(id) =>
  }

  lemma AddOwnerKeepsInv(s: Sys, id: Id, x: Sess)
    requires Inv(s) && id !in s.sess && Good(x) && Owns(x) && x.slot !in s.used
    ensures Inv(s.(used := s.used + {x.slot}, inMap := s.inMap + {id}, sess := s.sess[id := x]))
  {
    var t := s.sess[id := x];
    forall k ensures k in s.used + {x.slot} <==> k in OwnedSlots(t) {
      if k in s.used {
        var a :| a in s.sess && Owns(s.sess[a]) && s.sess[a].slot == k;
        assert Owns(t[a]) && t[a].slot == k;
      }
      assert Owns(t[id]) && t[id].slot == x.slot;
      if k in OwnedSlots(t) {
        var a :| a in t && Owns(t[a]) && t[a].slot == k;
        assert a == id || (a in s.sess && Owns(s.sess[a]));
      }
    }
    forall a | a in s.sess && Owns(s.sess[a]) ensures s.sess[a].slot != x.slot {
      assert s.sess[a].slot in OwnedSlots(s.sess);
    }
  }

  lemma CreateKeepsInv(s: Sys, id: Id, interactive: bool, mount: bool)
    requires Inv(s) && id !in s.sess
    ensures Inv(Apply(s, Create(id, interactive, mount)))
  {
    var slot := Alloc(s.used, s.maxSlots);
    if slot.Some? {
      BootIsSafe(interactive, mount);
      AddOwnerKeepsInv(s, id, Sess(slot.value, NEW_SESSION, Boot(interactive, mount), Ret));
    }
  }

  // ----- runs -----------------------------------------------------------------------

  ghost predicate Runs(s: Sys, es: seq<Event>, t: Sys)
    decreases es
  {
    if es == [] then t == s else Enabled(s, es[0]) && Runs(Apply(s, es[0]), es[1..], t)
  }

  /** A run in which every accepted outside Stop meets StopSafe. */
  ghost predicate DisciplinedRun(s: Sys, es: seq<Event>, t: Sys)
    decreases es
  {
    if es == [] then t == s
    else Enabled(s, es[0]) && Disciplined(s, es[0]) && DisciplinedRun(Apply(s, es[0]), es[1..], t)
  }

  lemma {:induction false} RunKeepsInv(s: Sys, es: seq<Event>, t: Sys)
    requires Inv(s) && DisciplinedRun(s, es, t)
    ensures Inv(t)
    decreases es
  {
    if es != [] {
      StepKeepsInv(s, es[0]);
      RunKeepsInv(Apply(s, es[0]), es[1..], t);
    }
  }

  /** A session as recovery leaves it: Ready with everything it owns, or terminal and owning nothing. */
  predicate Recovered(x: Sess) {
    && x.boot == Ret && x.stopper == Ret
    && (IdleReady(x.res)
        || (x.res.st in {Stopped, Failed} && x.res == Res(x.res.st, NotLaunched, 0, 0, 0, 0, false, false)))
  }

  /** A manager that has just started: empty, or holding recovered sessions on distinct slots. */
  ghost predicate Initial(s: Sys) {
    && (forall id | id in s.sess :: Recovered(s.sess[id]))
    && s.used == OwnedSlots(s.sess)
    && OwnersDistinct(s)
    && s.inMap <= s.sess.Keys && s.looked == {}
  }

  lemma InitialInv(s: Sys)
    requires Initial(s)
    ensures Inv(s)
    ensures forall id | id in s.sess :: Early(s.sess[id])
  {
    forall id | id in s.sess ensures Good(s.sess[id]) {
      assert Safe(Ret, s.sess[id].res);
    }
  }

  /** Slot ownership: in every state of every disciplined run the used slots are exactly the slots of
      the sessions that took one and have not given it back, no two of them share a slot, nothing is
      given back twice, and a session that shows Stopped or Failed has given its slot back. */
  lemma SlotOwnership(s: Sys, es: seq<Event>, t: Sys)
    requires Initial(s) && DisciplinedRun(s, es, t)
    ensures t.used == OwnedSlots(t.sess)
    ensures forall a, b | a in t.sess && b in t.sess && a != b && Owns(t.sess[a]) && Owns(t.sess[b])
              :: t.sess[a].slot != t.sess[b].slot
    ensures forall id | id in t.sess :: t.sess[id].res.frees <= t.sess[id].res.allocs <= 1
    ensures forall id | id in t.sess && t.sess[id].res.st in {Stopped, Failed}
              :: t.sess[id].res.frees == t.sess[id].res.allocs
  {
    InitialInv(s);
    RunKeepsInv(s, es, t);
    forall id | id in t.sess ensures Sound(t.sess[id].res) {
    }
  }

  /** Resource order: in every disciplined run, once a session's slot is free again, its VM has been
      told to stop and each snapshot created for it has been deleted exactly once; the only exception
      is a failed workspace mount, after which the VM and the snapshot are always left behind. */
  lemma ResourceOrder(s: Sys, es: seq<Event>, t: Sys, id: Id)
    requires Initial(s) && DisciplinedRun(s, es, t) && id in t.sess && !Owns(t.sess[id])
    ensures var r := t.sess[id].res;
      && (r.vm == Live <==> r.mountFailed)
      && (r.deletes == r.creates <==> !r.mountFailed)
      && r.deletes <= r.creates <= 1
  {
    InitialInv(s);
    RunKeepsInv(s, es, t);
  }

  /** The manager's map: a session still in it with no goroutine at work is Ready and holds its slot, or has
      Failed, or was loaded as stopped; whoever stopped is gone from it. */
  lemma MapHoldsNoLeftovers(s: Sys, es: seq<Event>, t: Sys, id: Id)
    requires Initial(s) && DisciplinedRun(s, es, t) && id in t.inMap && id in t.sess && t.sess[id].boot == Ret
    requires t.sess[id].stopper == Ret
    ensures var r := t.sess[id].res;
      (r.st == Ready && Owns(t.sess[id])) || r.st == Failed || (r.st == Stopped && r.allocs == 0)
  {
    InitialInv(s);
    RunKeepsInv(s, es, t);
    assert Guard(Ret, t.sess[id].res);
  }

  /** Whoever is not in the map has finished, or was taken out by its own goroutines. */
  ghost predicate OnlyDoneHaveLeft(s: Sys) {
    forall id | id in s.sess && id !in s.inMap :: s.sess[id].res.forgotten || s.sess[id].res.st in {Stopped, Failed}
  }

  /** In every run, disciplined or not: a session out of reach of a Stop is one that has no need of it. */
  lemma {:induction false} RunKeepsMap(s: Sys, es: seq<Event>, t: Sys)
    requires OnlyDoneHaveLeft(s) && Runs(s, es, t)
    ensures OnlyDoneHaveLeft(t)
    decreases es
  {
    if es != [] {
      RunKeepsMap(Apply(s, es[0]), es[1..], t);
    }
  }

  /** A Stop that finds its session Stopped or Failed takes it out of the map and does nothing else. The next one does
      not find it. */
  lemma StopClearsTheDone(s: Sys, id: Id)
    requires id in s.inMap && id in s.sess && s.sess[id].res.st in {Stopped, Failed}
    ensures var t := s.(looked := s.looked + {id}, inMap := s.inMap - {id});
      Runs(s, [StopLookup(id), StopForget(id)], t) && !Enabled(t, StopLookup(id))
  {
    var s1 := Apply(s, StopLookup(id));
    var t := Apply(s1, StopForget(id));
    assert Runs(t, [], t);
    assert Runs(s1, [StopForget(id)], t);
    assert [StopLookup(id), StopForget(id)][1..] == [StopForget(id)];
  }

  /** A slot that is not in use has no live VM on it, unless a workspace mount failed there. */
  lemma FreeSlotHasNoVm(s: Sys, es: seq<Event>, t: Sys, id: Id)
    requires Initial(s) && DisciplinedRun(s, es, t) && id in t.sess
    requires t.sess[id].slot !in t.used && !t.sess[id].res.mountFailed
    ensures t.sess[id].res.vm != Live
  {
    InitialInv(s);
    RunKeepsInv(s, es, t);
    assert Owns(t.sess[id]) ==> t.sess[id].slot in OwnedSlots(t.sess);
  }

  /** The limit: no run, disciplined or not, takes the count of used slots above a positive `maxSlots`,
      unless it was there already. */
  lemma {:induction false} RunKeepsLimit(s: Sys, es: seq<Event>, t: Sys)
    requires Runs(s, es, t) && s.maxSlots > 0
    ensures t.maxSlots == s.maxSlots && |t.used| <= if |s.used| <= s.maxSlots then s.maxSlots else |s.used|
    decreases es
  {
    if es != [] {
      RunKeepsLimit(Apply(s, es[0]), es[1..], t);
    }
  }

  predicate InRange(maxSlots: int, slot: int) {
    0 <= slot && (maxSlots <= 0 || slot < maxSlots)
  }

  /** Every slot in use, or ever taken by a session, is one the manager could hand out now. */
  ghost predicate WithinLimit(s: Sys) {
    && (forall k | k in s.used :: InRange(s.maxSlots, k))
    && (forall id | id in s.sess :: InRange(s.maxSlots, s.sess[id].slot))
  }

  lemma {:induction false} RunStaysWithinLimit(s: Sys, es: seq<Event>, t: Sys)
    requires Runs(s, es, t) && WithinLimit(s)
    ensures WithinLimit(t)
    decreases es
  {
    if es != [] {
      RunStaysWithinLimit(Apply(s, es[0]), es[1..], t);
    }
  }

  /** Before Ready no Stop is accepted, so boot is alone with the session. */
  predicate Early(x: Sess) {
    x.res.st in {Provisioning, Booting, WaitingSSH, Configuring} ==> x.stopper == Ret && Safe(x.boot, x.res)
  }

  lemma StepKeepsEarly(s: Sys, e: Event)
    requires Enabled(s, e) && forall id | id in s.sess :: Early(s.sess[id])
    ensures forall id | id in Apply(s, e).sess :: Early(Apply(s, e).sess[id])
  {
    match e
    case Create(id, interactive, mount) => BootIsSafe(interactive, mount);
    case BootStep(id, o) => EarlyStep(s.sess[id], o);
    case CleanStep(id) => EarlyStep(s.sess[id], Succeeds);
    case StopLookup(id) =>
    case StopAccept(id) =>
    case StopForget(id) =>
  }

  lemma EarlyStep(x: Sess, o: Outcome)
    requires Early(x)
    ensures var (p, r) := Exec(x.boot, x.res, o); Early(x.(boot := p, res := r))
    ensures x.stopper != Ret ==> var (p, r) := Exec(x.stopper, x.res, Succeeds); Early(x.(stopper := p, res := r))
  {
  }

  lemma {:induction false} RunKeepsEarly(s: Sys, es: seq<Event>, t: Sys)
    requires Runs(s, es, t) && forall id | id in s.sess :: Early(s.sess[id])
    ensures forall id | id in t.sess :: Early(t.sess[id])
    decreases es
  {
    if es != [] {
      StepKeepsEarly(s, es[0]);
      RunKeepsEarly(Apply(s, es[0]), es[1..], t);
    }
  }

  /** In every run, disciplined or not, boot's requests for Booting, WaitingSSH, Configuring and Ready
      are accepted before the session is Ready, and its requests for Failed after a claude run are refused. */
  lemma BootMoves(s: Sys, es: seq<Event>, t: Sys, id: Id)
    requires Initial(s) && Runs(s, es, t) && id in t.sess && t.sess[id].boot.Move?
    ensures t.sess[id].res.st in {Provisioning, Booting, WaitingSSH, Configuring} ==>
        Allowed(t.sess[id].res.st, t.sess[id].boot.to)
    ensures t.sess[id].boot in {LIMIT_TAIL, ERROR_TAIL} ==> !Allowed(t.sess[id].res.st, Failed)
  {
    InitialInv(s);
    RunKeepsEarly(s, es, t);
    assert Early(t.sess[id]);
  }

  // ----- interactive sessions ----------------------------------------------------------

  /** A boot that is over once the session is Ready, and after a release only reports the failure. */
  predicate Tame(p: Prog) {
    match p
    case Ret => true
    case Attempt(_, ok, err) => Tame(ok) && Tame(err)
    case Move(to, ok, err) => (to == Ready ==> ok == Ret) && Tame(ok) && Tame(err)
    case StopVM(next) => Tame(next)
    case DeleteSnapshot(next) => Tame(next)
    case ReleaseSlot(next) => next == Move(Failed, Ret, Ret)
    case RunClaude(_, _, _) => false
    case Forget(_) => false
  }

  lemma InteractiveBootIsTame(mount: bool)
    ensures Tame(Boot(true, mount))
  {
    assert Tame(FAIL);
    assert Tame(Finish(true));
    assert Tame(Configure(true, mount));
    assert Tame(AfterLaunch(true, mount));
  }

  /** Nobody but Stop's cleanup works on the session from Ready on, and it is Ready only with its slot. */
  predicate Undisturbed(x: Sess) {
    && Tame(x.boot)
    && match x.res.st
       case Ready => x.boot == Ret && x.stopper == Ret && Owns(x)
       case Stopping => x.boot == Ret
       case Stopped => x.boot == Ret
       case Failed => true
       case _ => x.stopper == Ret && (Owns(x) || x.boot == Move(Failed, Ret, Ret))
  }

  lemma UndisturbedStep(x: Sess, o: Outcome)
    requires Undisturbed(x)
    ensures x.boot != Ret ==> var (p, r) := Exec(x.boot, x.res, o); Undisturbed(x.(boot := p, res := r))
    ensures x.stopper != Ret ==> var (p, r) := Exec(x.stopper, x.res, Succeeds); Undisturbed(x.(stopper := p, res := r))
  {
  }

  /** The sessions with a claude run, as the run's own creations add to them. */
  function Agents(e: Event, agents: set<Id>): set<Id> {
    if e.Create? then if e.interactive then agents - {e.id} else agents + {e.id} else agents
  }

  /** No outside Stop of the run is accepted by a non-interactive session. */
  predicate SparesAgents(es: seq<Event>, agents: set<Id>)
    decreases |es|
  {
    es == [] || ((es[0].StopAccept? ==> es[0].id !in agents) && SparesAgents(es[1..], Agents(es[0], agents)))
  }

  ghost predicate OthersUndisturbed(s: Sys, agents: set<Id>) {
    forall id | id in s.sess && id !in agents :: Undisturbed(s.sess[id])
  }

  lemma StepKeepsUndisturbed(s: Sys, e: Event, agents: set<Id>)
    requires Enabled(s, e) && OthersUndisturbed(s, agents)
    ensures OthersUndisturbed(Apply(s, e), Agents(e, agents))
  {
    match e
    case Create(id, interactive, mount) => if interactive { InteractiveBootIsTame(mount); }
    case BootStep(id, o) => if id !in agents { UndisturbedStep(s.sess[id], o); }
    case CleanStep(id) => if id !in agents { UndisturbedStep(s.sess[id], Succeeds); }
    case StopLookup(_) =>
    case StopAccept(_) =>
    case StopForget(_) =>
  }

  /** However Stops of interactive sessions are timed, the run is a disciplined one. */
  lemma {:induction false} InteractiveStopsAreSafe(s: Sys, es: seq<Event>, t: Sys, agents: set<Id>)
    requires OthersUndisturbed(s, agents) && Runs(s, es, t) && SparesAgents(es, agents)
    ensures DisciplinedRun(s, es, t)
    decreases |es|
  {
    if es != [] {
      StepKeepsUndisturbed(s, es[0], agents);
      InteractiveStopsAreSafe(Apply(s, es[0]), es[1..], t, Agents(es[0], agents));
    }
  }

  /** Slot ownership and resource order, for every run from a fresh or recovered manager in which only
      interactive sessions are stopped from outside, whatever the interleaving. */
  lemma OwnershipWithInteractiveStops(s: Sys, es: seq<Event>, t: Sys)
    requires Initial(s) && Runs(s, es, t) && SparesAgents(es, {})
    ensures t.used == OwnedSlots(t.sess)
    ensures forall a, b | a in t.sess && b in t.sess && a != b && Owns(t.sess[a]) && Owns(t.sess[b])
              :: t.sess[a].slot != t.sess[b].slot
    ensures forall id | id in t.sess :: Sound(t.sess[id].res)
  {
    InteractiveStopsAreSafe(s, es, t, {});
    InitialInv(s);
    RunKeepsInv(s, es, t);
    forall id | id in t.sess ensures Sound(t.sess[id].res) {
    }
  }
}
