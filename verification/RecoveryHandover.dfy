/** What recovery hands over to the running system: when the manager it leaves is a legal start of the session
    protocol that agrees with the host, and what holds of the slots in any case. */
module RecoveryHandover {
  import opened Lifecycle
  import opened Recovery
  import opened RecoveryLaws
  import P = SessionProtocol
  import D = Departures
  import Q = StopRaces
  import S = Slots

  // ----- the manager after a restart -----------------------------------------------------------------

  /** The running system's view of a recovered session, given whether a VM that is its own still runs. A Ready
      session without one has had its VM stopped. */
  function Resumed(x: Session, running: bool): P.Sess {
    var ready := x.status == Ready;
    var vm := if running then P.Live else if ready then P.StopCalled else P.NotLaunched;
    var held := if ready then 1 else 0;
    P.Sess(x.slot, P.Res(x.status, vm, held, 0, held, 0, false, false), P.Ret, P.Ret)
  }

  /** A VM on a recovered slot is taken for the recovered session's, one elsewhere for that of the session whose
      row has the slot. */
  predicate Running(w: World, end: Host, x: Session) {
    x.slot in end.vms.Values && (x.status == Ready || x.slot !in w.used)
  }

  function Manager(w: World, end: Host, maxSlots: int): P.Sys {
    P.Sys(maxSlots, w.used, map id | id in w.sessions :: Resumed(w.sessions[id], Running(w, end, w.sessions[id])),
          w.sessions.Keys, {})
  }

  /** A legal start that agrees with the host: every session is as the protocol expects it, and no VM runs on a slot
      that is not in use. */
  ghost predicate LegalStart(w: World, end: Host, maxSlots: int) {
    P.Initial(Manager(w, end, maxSlots)) && forall p | p in end.vms :: end.vms[p] in w.used
  }

  // ----- conditions on rows, host and answers --------------------------------------------------------

  /** No two ready rows that were seen alive share a slot. */
  ghost predicate KeptDistinct(h: Host, rows: seq<Row>, a: Answers) {
    forall i: nat, j: nat | i < j < |rows| && Kept(h, rows, a, i) && Kept(h, rows, a, j) :: rows[i].slot != rows[j].slot
  }

  /** Each recovered slot has a VM that no row's stop kills. */
  ghost predicate KeptAlive(h: Host, rows: seq<Row>, a: Answers) {
    forall k | k in KeptSlots(h, rows, a) :: exists p :: p in h.vms && h.vms[p] == k && !RowKills(h, rows, a, p)
  }

  /** Each VM on another slot is killed, by a row's stop or by the sweep. */
  ghost predicate NoStrays(h: Host, rows: seq<Row>, a: Answers, o: Luck, slots: seq<int>) {
    forall p | p in h.vms && h.vms[p] !in KeptSlots(h, rows, a) ::
      RowKills(h, rows, a, p) || Swept(HostAfter(h, rows, a), KeptSlots(h, rows, a), o, slots, p)
  }

  // ----- the slots -----------------------------------------------------------------------------------

  lemma OwnedIsReady(w: World, end: Host, maxSlots: int)
    ensures P.OwnedSlots(Manager(w, end, maxSlots).sess) == ReadySlots(w.sessions)
  {
    var sess := Manager(w, end, maxSlots).sess;
    forall k | k in ReadySlots(w.sessions) ensures k in P.OwnedSlots(sess) {
      var id :| id in w.sessions && w.sessions[id].status == Ready && w.sessions[id].slot == k;
      assert P.Owns(sess[id]) && sess[id].slot == k;
    }
    forall k | k in P.OwnedSlots(sess) ensures k in ReadySlots(w.sessions) {
      var id :| id in sess && P.Owns(sess[id]) && sess[id].slot == k;
      assert w.sessions[id].status == Ready && w.sessions[id].slot == k;
    }
  }

  /** Row by row, the manager's sessions. */
  lemma SessionAt(store: map<Id, Row>, h: Host, rows: seq<Row>, a: Answers, now: int, end: Host, maxSlots: int, m: nat)
    requires Lists(rows, store) && m < |rows|
    ensures var w := RecoverRows(Before(store, h), rows, a, now);
      var s := Manager(w, end, maxSlots);
      && rows[m].id in s.sess && rows[m].id in w.sessions && s.sess[rows[m].id].slot == rows[m].slot
      && s.sess[rows[m].id] == Resumed(w.sessions[rows[m].id], Running(w, end, w.sessions[rows[m].id]))
      && w.sessions[rows[m].id].status in {Ready, Stopped, Failed}
      && (P.Owns(s.sess[rows[m].id]) <==> Kept(h, rows, a, m))
      && (w.sessions[rows[m].id].status == Ready <==> Kept(h, rows, a, m))
  {
    RowAgrees(store, h, rows, a, now, m);
  }

  lemma SlotsOfManager(store: map<Id, Row>, h: Host, rows: seq<Row>, a: Answers, now: int, end: Host, maxSlots: int)
    requires Lists(rows, store)
    ensures var s := Manager(RecoverRows(Before(store, h), rows, a, now), end, maxSlots);
      && s.sess.Keys == s.inMap == Ids(rows) && s.looked == {}
      && s.used == P.OwnedSlots(s.sess) == KeptSlots(h, rows, a)
      && (P.OwnersDistinct(s) <==> KeptDistinct(h, rows, a))
  {
    var w := RecoverRows(Before(store, h), rows, a, now);
    var s := Manager(w, end, maxSlots);
    UsedAreReady(store, h, rows, a, now);
    RowsRecover(store, h, rows, a, now);
    OwnedIsReady(w, end, maxSlots);
    forall m: nat | m < |rows|
      ensures rows[m].id in s.sess && s.sess[rows[m].id].slot == rows[m].slot
      ensures P.Owns(s.sess[rows[m].id]) <==> Kept(h, rows, a, m)
    {
      SessionAt(store, h, rows, a, now, end, maxSlots, m);
    }
    DistinctPositions(h, rows, a, s);
  }

  lemma DistinctPositions(h: Host, rows: seq<Row>, a: Answers, s: P.Sys)
    requires UniqueIds(rows) && s.sess.Keys == Ids(rows)
    requires forall m: nat | m < |rows| :: rows[m].id in s.sess && s.sess[rows[m].id].slot == rows[m].slot
    requires forall m: nat | m < |rows| :: P.Owns(s.sess[rows[m].id]) <==> Kept(h, rows, a, m)
    ensures P.OwnersDistinct(s) <==> KeptDistinct(h, rows, a)
  {
    if KeptDistinct(h, rows, a) {
      forall x, y | x in s.sess && y in s.sess && P.Owns(s.sess[x]) && P.Owns(s.sess[y])
                    && s.sess[x].slot == s.sess[y].slot
        ensures x == y
      {
        var i: nat :| i < |rows| && rows[i].id == x;
        var j: nat :| j < |rows| && rows[j].id == y;
        assert i < j || j < i || i == j;
      }
    }
  }

  // ----- when all of the protocol's theorems carry over ----------------------------------------------

  /** The VMs on recovered slots after the sweep. */
  lemma VmsAfter(h: Host, rows: seq<Row>, a: Answers, o: Luck, slots: seq<int>, end: Host)
    requires end == Sweep(HostAfter(h, rows, a), KeptSlots(h, rows, a), o, slots)
    ensures (forall k | k in KeptSlots(h, rows, a) :: k in end.vms.Values) <==> KeptAlive(h, rows, a)
    ensures (forall p | p in end.vms :: end.vms[p] in KeptSlots(h, rows, a)) <==> NoStrays(h, rows, a, o, slots)
  {
    var g := HostAfter(h, rows, a);
    RowsKill(h, rows, a);
    SweepVms(g, KeptSlots(h, rows, a), o, slots);
    forall p ensures p in end.vms <==>
      p in h.vms && !RowKills(h, rows, a, p) && !Swept(g, KeptSlots(h, rows, a), o, slots, p)
    {
      SurvivorsExactly(h, rows, a, o, slots, p);
    }
    forall k | k in KeptSlots(h, rows, a)
      ensures k in end.vms.Values <==> exists p :: p in h.vms && h.vms[p] == k && !RowKills(h, rows, a, p)
    {
      if p :| p in h.vms && h.vms[p] == k && !RowKills(h, rows, a, p) {
        assert end.vms[p] == k;
      }
      if k in end.vms.Values {
        var p :| p in end.vms && end.vms[p] == k;
        assert h.vms[p] == k;
      }
    }
  }

  lemma ResumedIsRecovered(x: Session, running: bool)
    requires x.status in {Ready, Stopped, Failed}
    ensures P.Recovered(Resumed(x, running)) <==> (running <==> x.status == Ready)
  {
  }

  /** Recovery leaves a legal start of the session protocol that agrees with the host, so that everything proved
      there about runs holds from it, of the slots and of the VMs, exactly when no two ready rows seen alive share a
      slot, each recovered slot has a VM left, and no VM is left on any other slot. */
  lemma LegalStartExactly(store: map<Id, Row>, h: Host, rows: seq<Row>, a: Answers, now: int, o: Luck, slots: seq<int>,
                          maxSlots: int, w: World, end: Host)
    requires Lists(rows, store) && w == RecoverRows(Before(store, h), rows, a, now)
    requires end == Sweep(w.host, w.live, o, slots)
    ensures LegalStart(w, end, maxSlots) <==>
      KeptDistinct(h, rows, a) && KeptAlive(h, rows, a) && NoStrays(h, rows, a, o, slots)
  {
    RowsRecover(store, h, rows, a, now);
    SlotsOfManager(store, h, rows, a, now, end, maxSlots);
    VmsAfter(h, rows, a, o, slots, end);
    InitialIs(Manager(w, end, maxSlots));
    if forall p | p in end.vms :: end.vms[p] in w.used {
      RecoveredExactly(store, h, rows, a, now, end, maxSlots, w);
    }
  }

  lemma InitialIs(s: P.Sys)
    requires s.sess.Keys == s.inMap && s.looked == {} && s.used == P.OwnedSlots(s.sess)
    ensures P.Initial(s) <==> (forall id | id in s.sess :: P.Recovered(s.sess[id])) && P.OwnersDistinct(s)
  {
  }

  lemma RecoveredExactly(store: map<Id, Row>, h: Host, rows: seq<Row>, a: Answers, now: int, end: Host, maxSlots: int,
                         w: World)
    requires Lists(rows, store) && w == RecoverRows(Before(store, h), rows, a, now)
    requires forall p | p in end.vms :: end.vms[p] in w.used
    ensures var s := Manager(w, end, maxSlots);
      (forall id | id in s.sess :: P.Recovered(s.sess[id])) <==>
      (forall k | k in KeptSlots(h, rows, a) :: k in end.vms.Values)
  {
    var s := Manager(w, end, maxSlots);
    RowsRecover(store, h, rows, a, now);
    forall m: nat | m < |rows|
      ensures rows[m].id in s.sess
      ensures P.Recovered(s.sess[rows[m].id]) <==> (Kept(h, rows, a, m) ==> rows[m].slot in end.vms.Values)
    {
      SessionAt(store, h, rows, a, now, end, maxSlots, m);
      var x := w.sessions[rows[m].id];
      ResumedIsRecovered(x, Running(w, end, x));
    }
    if forall k | k in KeptSlots(h, rows, a) :: k in end.vms.Values {
      forall id | id in s.sess ensures P.Recovered(s.sess[id]) {
        var m: nat :| m < |rows| && rows[m].id == id;
        assert Kept(h, rows, a, m) ==> rows[m].slot in KeptSlots(h, rows, a);
      }
    } else {
      var k :| k in KeptSlots(h, rows, a) && k !in end.vms.Values;
      var m: nat :| m < |rows| && Kept(h, rows, a, m) && rows[m].slot == k;
      assert !P.Recovered(s.sess[rows[m].id]);
    }
  }

  // ----- what carries over in any case ---------------------------------------------------------------

  /** Two systems that differ in the state of VMs only. */
  ghost predicate SameButVms(s: P.Sys, t: P.Sys) {
    && s.maxSlots == t.maxSlots && s.used == t.used && s.inMap == t.inMap && s.looked == t.looked
    && s.sess.Keys == t.sess.Keys
    && (forall id | id in s.sess :: s.sess[id] == t.sess[id].(res := t.sess[id].res.(vm := s.sess[id].res.vm)))
  }

  lemma ExecIgnoresVm(p: P.Prog, r: P.Res, vm: P.Vm, o: P.Outcome)
    ensures var (q, u) := P.Exec(p, r, o);
      var (q', v) := P.Exec(p, r.(vm := vm), o);
      q == q' && u == v.(vm := u.vm)
  {
  }

  lemma StepSameButVms(s: P.Sys, t: P.Sys, e: P.Event)
    requires SameButVms(s, t) && P.Enabled(s, e) && P.Disciplined(s, e)
    ensures P.Enabled(t, e) && P.Disciplined(t, e) && SameButVms(P.Apply(s, e), P.Apply(t, e))
  {
    match e {
      case Create(_, _, _) =>
      case BootStep(id, o) => BootSame(s, t, id, o);
      case CleanStep(id) => CleanSame(s, t, id);
      case StopLookup(_) =>
      case StopAccept(_) =>
      case StopForget(_) =>
    }
  }

  lemma BootSame(s: P.Sys, t: P.Sys, id: Id, o: P.Outcome)
    requires SameButVms(s, t) && P.Enabled(s, P.BootStep(id, o))
    ensures P.Enabled(t, P.BootStep(id, o)) && SameButVms(P.Apply(s, P.BootStep(id, o)), P.Apply(t, P.BootStep(id, o)))
  {
    ExecIgnoresVm(s.sess[id].boot, s.sess[id].res, t.sess[id].res.vm, o);
    TouchSame(s, t, id, P.Exec(s.sess[id].boot, s.sess[id].res, o), P.Exec(t.sess[id].boot, t.sess[id].res, o), true);
  }

  lemma CleanSame(s: P.Sys, t: P.Sys, id: Id)
    requires SameButVms(s, t) && P.Enabled(s, P.CleanStep(id))
    ensures P.Enabled(t, P.CleanStep(id)) && SameButVms(P.Apply(s, P.CleanStep(id)), P.Apply(t, P.CleanStep(id)))
  {
    ExecIgnoresVm(s.sess[id].stopper, s.sess[id].res, t.sess[id].res.vm, P.Succeeds);
    TouchSame(s, t, id, P.Exec(s.sess[id].stopper, s.sess[id].res, P.Succeeds),
              P.Exec(t.sess[id].stopper, t.sess[id].res, P.Succeeds), false);
  }

  function After(x: P.Sess, step: (P.Prog, P.Res), boot: bool): P.Sess {
    if boot then x.(boot := step.0, res := step.1) else x.(stopper := step.0, res := step.1)
  }

  lemma TouchSame(s: P.Sys, t: P.Sys, id: Id, a: (P.Prog, P.Res), b: (P.Prog, P.Res), boot: bool)
    requires SameButVms(s, t) && id in s.sess && a.0 == b.0 && a.1 == b.1.(vm := a.1.vm)
    ensures var p := if boot then s.sess[id].boot else s.sess[id].stopper;
      SameButVms(P.Touch(s, id, After(s.sess[id], a, boot), p), P.Touch(t, id, After(t.sess[id], b, boot), p))
  {
  }

  lemma {:induction false} RunSameButVms(s: P.Sys, t: P.Sys, es: seq<P.Event>, u: P.Sys) returns (v: P.Sys)
    requires SameButVms(s, t) && P.DisciplinedRun(s, es, u)
    ensures P.DisciplinedRun(t, es, v) && SameButVms(u, v)
    decreases |es|
  {
    if es == [] {
      v := t;
    } else {
      StepSameButVms(s, t, es[0]);
      v := RunSameButVms(P.Apply(s, es[0]), P.Apply(t, es[0]), es[1..], u);
    }
  }

  /** Exact slot ownership, as the session protocol keeps it. */
  ghost predicate SlotsOwned(s: P.Sys) {
    && s.used == P.OwnedSlots(s.sess) && P.OwnersDistinct(s)
    && (forall id | id in s.sess :: s.sess[id].res.frees <= s.sess[id].res.allocs <= 1)
    && (forall id | id in s.sess && s.sess[id].res.st in {Stopped, Failed} ::
          s.sess[id].res.frees == s.sess[id].res.allocs)
  }

  ghost predicate AlwaysOwned(s: P.Sys) {
    forall es, t | P.DisciplinedRun(s, es, t) :: SlotsOwned(t)
  }

  /** Whatever became of the VMs, slot ownership holds in all disciplined runs after the restart exactly when no two
      ready rows seen alive share a slot. */
  lemma OwnershipCarriesExactly(store: map<Id, Row>, h: Host, rows: seq<Row>, a: Answers, now: int, end: Host,
                                maxSlots: int)
    requires Lists(rows, store)
    ensures var s := Manager(RecoverRows(Before(store, h), rows, a, now), end, maxSlots);
      AlwaysOwned(s) <==> KeptDistinct(h, rows, a)
  {
    var s := Manager(RecoverRows(Before(store, h), rows, a, now), end, maxSlots);
    SlotsOfManager(store, h, rows, a, now, end, maxSlots);
    IdealIsRecovered(store, h, rows, a, now, end, maxSlots);
    OwnedExactly(s);
  }

  lemma OwnedExactly(s: P.Sys)
    requires s.sess.Keys == s.inMap && s.looked == {} && s.used == P.OwnedSlots(s.sess)
    requires forall id | id in s.sess :: P.Recovered(Ideal(s).sess[id])
    ensures AlwaysOwned(s) <==> P.OwnersDistinct(s)
  {
    if P.OwnersDistinct(s) {
      IdealIsInitial(s);
      forall es, t | P.DisciplinedRun(s, es, t) ensures SlotsOwned(t) {
        var v := RunSameButVms(s, Ideal(s), es, t);
        P.SlotOwnership(Ideal(s), es, v);
        OwnershipIgnoresVms(t, v);
      }
    } else {
      assert P.DisciplinedRun(s, [], s);
    }
  }

  /** The same manager with the VMs the protocol expects. */
  function Ideal(s: P.Sys): P.Sys {
    s.(sess := map id | id in s.sess ::
      s.sess[id].(res := s.sess[id].res.(vm := if s.sess[id].res.st == Ready then P.Live else P.NotLaunched)))
  }

  lemma IdealIsInitial(s: P.Sys)
    requires s.sess.Keys == s.inMap && s.looked == {} && s.used == P.OwnedSlots(s.sess) && P.OwnersDistinct(s)
    requires forall id | id in s.sess :: P.Recovered(Ideal(s).sess[id])
    ensures SameButVms(s, Ideal(s)) && P.Initial(Ideal(s))
  {
    OwnershipIgnoresVms(s, Ideal(s));
    InitialIs(Ideal(s));
  }

  lemma IdealIsRecovered(store: map<Id, Row>, h: Host, rows: seq<Row>, a: Answers, now: int, end: Host, maxSlots: int)
    requires Lists(rows, store)
    ensures var s := Manager(RecoverRows(Before(store, h), rows, a, now), end, maxSlots);
      forall id | id in s.sess :: P.Recovered(Ideal(s).sess[id])
  {
    var w := RecoverRows(Before(store, h), rows, a, now);
    RowsRecover(store, h, rows, a, now);
    forall id | id in w.sessions ensures P.Recovered(Ideal(Manager(w, end, maxSlots)).sess[id]) {
      var m: nat :| m < |rows| && rows[m].id == id;
      SessionAt(store, h, rows, a, now, end, maxSlots, m);
    }
  }

  lemma OwnershipIgnoresVms(s: P.Sys, t: P.Sys)
    requires SameButVms(s, t)
    ensures P.OwnedSlots(s.sess) == P.OwnedSlots(t.sess)
    ensures P.OwnersDistinct(s) <==> P.OwnersDistinct(t)
    ensures forall id | id in s.sess :: s.sess[id].res.frees == t.sess[id].res.frees
    ensures forall id | id in s.sess :: s.sess[id].res.allocs == t.sess[id].res.allocs
  {
    forall id | id in s.sess ensures P.Owns(s.sess[id]) == P.Owns(t.sess[id]) && s.sess[id].slot == t.sess[id].slot {}
    forall k | k in P.OwnedSlots(s.sess) ensures k in P.OwnedSlots(t.sess) {
      var id :| id in s.sess && P.Owns(s.sess[id]) && s.sess[id].slot == k;
      assert P.Owns(t.sess[id]);
    }
    forall k | k in P.OwnedSlots(t.sess) ensures k in P.OwnedSlots(s.sess) {
      var id :| id in t.sess && P.Owns(t.sess[id]) && t.sess[id].slot == k;
      assert P.Owns(s.sess[id]);
    }
  }

  // ----- restarts that the code leads to -------------------------------------------------------------

  /** The row the manager keeps for a session: every accepted move is written, so it has the session's state. */
  function RowOf(id: Id, x: P.Sess, info: Info, job: Job, at: int): Row {
    Row(id, x.slot, x.res.st, Text(""), info, at, job)
  }

  /** Every call goes well. */
  const GOOD: Answer := Answer(true, true, {}, true, true)
  const LUCKY: Luck := Luck({}, {}, {})

  /** A host with one VM, on slot k, and a store with two rows. */
  function TwoRows(x: Row, y: Row, pid: Pid, k: int, now: int): World
    requires x.id != y.id
  {
    RecoverRows(Before(map[x.id := x, y.id := y], Host(map[pid := k], {k})), [x, y], n => GOOD, now)
  }

  lemma TwoRowsFacts(x: Row, y: Row, pid: Pid, k: int, now: int)
    requires x.id != y.id && x.slot == y.slot == k && x.status == Ready
    ensures Lists([x, y], map[x.id := x, y.id := y])
    ensures var h, rows, a := Host(map[pid := k], {k}), [x, y], n => GOOD;
      Kept(h, rows, a, 0) && (SeenAt(h, rows, a, 1)) && KeptSlots(h, rows, a) == {k}
    ensures var w := TwoRows(x, y, pid, k, now);
      && x.id in w.sessions && w.sessions[x.id] == SessionAfter(x, true)
      && y.id in w.sessions && w.sessions[y.id] == SessionAfter(y, y.status == Ready)
  {
    var h, rows, a, store := Host(map[pid := k], {k}), [x, y], n => GOOD, map[x.id := x, y.id := y];
    assert h.vms[pid] == k;
    assert rows[0].id == x.id && rows[1].id == y.id && Ids(rows) == store.Keys;
    assert rows[..0] == [] && rows[..1] == [x] && [x][..0] == [];
    assert Kept(h, rows, a, 0) && rows[0].slot == k;
    RowAgrees(store, h, rows, a, now, 0);
    RowAgrees(store, h, rows, a, now, 1);
  }

  /** After a usage limit the row says Ready for good. A later session on the same slot makes two such rows, and a
      restart while that session's VM runs, with every call going well, recovers both sessions on the one slot. */
  lemma LimitThenRestart(s: P.Sys, id: Id, info: Info, job: Job, pid: Pid, now: int)
      returns (es: seq<P.Event>, t: P.Sys, b: Id)
    requires P.Initial(s) && P.WithinLimit(s) && id !in s.sess && S.Alloc(s.used, s.maxSlots).Some?
    ensures P.DisciplinedRun(s, es, t) && D.ClaudeEnds(s, es, id, P.HitsLimit)
    ensures b != id && id in t.sess && b in t.sess
    ensures var k := t.sess[b].slot;
      var w := TwoRows(RowOf(id, t.sess[id], info, job, now), RowOf(b, t.sess[b], info, job, now), pid, k, now);
      && id in w.sessions && b in w.sessions
      && w.sessions[id].status == w.sessions[b].status == Ready && w.sessions[id].slot == w.sessions[b].slot == k
      && forall end :: !AlwaysOwned(Manager(w, end, s.maxSlots))
  {
    es, t, b := D.LimitLeavesTwoReady(s, id);
    var k := t.sess[b].slot;
    var x, y := RowOf(id, t.sess[id], info, job, now), RowOf(b, t.sess[b], info, job, now);
    TwoRowsFacts(x, y, pid, k, now);
    var h := Host(map[pid := k], {k});
    assert Kept(h, [x, y], n => GOOD, 0) && Kept(h, [x, y], n => GOOD, 1);
    assert !KeptDistinct(h, [x, y], n => GOOD);
    forall end ensures !AlwaysOwned(Manager(TwoRows(x, y, pid, k, now), end, s.maxSlots)) {
      OwnershipCarriesExactly(map[id := x, b := y], h, [x, y], n => GOOD, now, end, s.maxSlots);
    }
  }

  /** While that later session boots, its row is in flight. A restart then recovers the session of the usage limit on
      the booting one's VM, and the second row's stop kills that VM and removes its socket: every call goes well,
      slots stay distinct, and a Ready session has neither VM nor socket. */
  lemma LimitThenRestartAtBoot(s: P.Sys, id: Id, info: Info, job: Job, pid: Pid, now: int, slots: seq<int>)
      returns (es: seq<P.Event>, t: P.Sys, b: Id)
    requires P.Initial(s) && P.WithinLimit(s) && id !in s.sess && S.Alloc(s.used, s.maxSlots).Some?
    ensures P.DisciplinedRun(s, es, t) && D.ClaudeEnds(s, es, id, P.HitsLimit)
    ensures b != id && id in t.sess && b in t.sess && t.sess[b].res.vm == P.Live
    ensures var k := t.sess[b].slot;
      var w := TwoRows(RowOf(id, t.sess[id], info, job, now), RowOf(b, t.sess[b], info, job, now), pid, k, now);
      var end := Sweep(w.host, w.live, LUCKY, slots);
      && id in w.sessions && w.sessions[id].status == Ready && w.sessions[id].attached && w.sessions[id].slot == k
      && end.vms == map[] && k !in end.sockets
      && AlwaysOwned(Manager(w, end, s.maxSlots)) && !LegalStart(w, end, s.maxSlots)
  {
    es, t, b := D.LimitLeavesReadyAndBooting(s, id);
    Q.QuietIsDisciplined(s, es, t);
    var x, y := RowOf(id, t.sess[id], info, job, now), RowOf(b, t.sess[b], info, job, now);
    BootingTakes(x, y, pid, now, slots, s.maxSlots);
  }

  lemma BootingTakes(x: Row, y: Row, pid: Pid, now: int, slots: seq<int>, maxSlots: int)
    requires x.id != y.id && x.slot == y.slot && x.status == Ready && y.status == Booting
    ensures var w := TwoRows(x, y, pid, x.slot, now);
      var end := Sweep(w.host, w.live, LUCKY, slots);
      && x.id in w.sessions && w.sessions[x.id] == SessionAfter(x, true)
      && end.vms == map[] && x.slot !in end.sockets
      && AlwaysOwned(Manager(w, end, maxSlots)) && !LegalStart(w, end, maxSlots)
  {
    var k, rows, a, store := x.slot, [x, y], n => GOOD, map[x.id := x, y.id := y];
    var h, w := Host(map[pid := k], {k}), TwoRows(x, y, pid, k, now);
    var end := Sweep(w.host, w.live, LUCKY, slots);
    TwoRowsFacts(x, y, pid, k, now);
    BootingStops(x, y, pid, now, slots);
    DistinctWhenOne(h, rows, a);
    OwnershipCarriesExactly(store, h, rows, a, now, end, maxSlots);
    RowsRecover(store, h, rows, a, now);
    LegalStartExactly(store, h, rows, a, now, LUCKY, slots, maxSlots, w, end);
    VmsAfter(h, rows, a, LUCKY, slots, end);
    assert k in KeptSlots(h, rows, a) && k !in end.vms.Values;
  }

  lemma DistinctWhenOne(h: Host, rows: seq<Row>, a: Answers)
    requires |rows| == 2 && rows[1].status != Ready
    ensures KeptDistinct(h, rows, a)
  {
  }

  lemma BootingStops(x: Row, y: Row, pid: Pid, now: int, slots: seq<int>)
    requires x.id != y.id && x.slot == y.slot && x.status == Ready && y.status == Booting
    ensures var w := TwoRows(x, y, pid, x.slot, now);
      var end := Sweep(w.host, w.live, LUCKY, slots);
      end.vms == map[] && x.slot !in end.sockets
  {
    var k, rows, a, store := x.slot, [x, y], n => GOOD, map[x.id := x, y.id := y];
    var h, w := Host(map[pid := k], {k}), TwoRows(x, y, pid, k, now);
    RowsRecover(store, h, rows, a, now);
    NothingLeft(x, y, pid, now);
    SweepVms(w.host, w.live, LUCKY, slots);
    SweepSockets(w.host, w.live, LUCKY, slots);
  }

  lemma NothingLeft(x: Row, y: Row, pid: Pid, now: int)
    requires x.id != y.id && x.slot == y.slot && x.status == Ready && y.status == Booting
    ensures HostAfter(Host(map[pid := x.slot], {x.slot}), [x, y], n => GOOD) == Host(map[], {})
  {
    var k, rows, a := x.slot, [x, y], n => GOOD;
    var h := Host(map[pid := k], {k});
    TwoRowsFacts(x, y, pid, k, now);
    assert KillsAt(h, rows, a, 1, pid) && UnlinksAt(h, rows, a, 1, k);
    RowsKill(h, rows, a);
  }

  /** One failed lsof is enough to lose a VM: the stop of a booting row removes the socket without killing, and no
      recovery ever finds the VM again, while its slot counts as free. */
  lemma FailedLsofLosesVm(x: Row, pid: Pid, now: int, o: Luck, slots: seq<int>, rounds: seq<Round>, maxSlots: int)
    requires x.status == Booting
    ensures var h := Host(map[pid := x.slot], {x.slot});
      var w := RecoverRows(Before(map[x.id := x], h), [x], n => GOOD.(finds := false), now);
      var end := Sweep(w.host, w.live, o, slots);
      && x.slot !in w.used && !LegalStart(w, end, maxSlots)
      && pid in end.vms && pid in HostAfterAll(end, rounds).vms && x.slot !in HostAfterAll(end, rounds).sockets
  {
    var h, rows, a, store := Host(map[pid := x.slot], {x.slot}), [x], n => GOOD.(finds := false), map[x.id := x];
    var w := RecoverRows(Before(store, h), rows, a, now);
    var end := Sweep(w.host, w.live, o, slots);
    assert h.vms[pid] == x.slot && rows[..0] == [] && rows[0].id == x.id && Ids(rows) == store.Keys;
    RowsRecover(store, h, rows, a, now);
    RowsKill(h, rows, a);
    assert UnlinksAt(h, rows, a, 0, x.slot);
    SweepVms(w.host, w.live, o, slots);
    SweepSockets(w.host, w.live, o, slots);
    LostForGood(end, rounds, pid);
  }
}
