/** What startup recovery achieves, for any rows, whatever the calls it makes answer. */
module RecoveryLaws {
  import opened Lifecycle
  import opened Recovery

  // ----- row by row ----------------------------------------------------------------------------------

  /** The host after the rows: only stops of in-flight rows change it. */
  function HostAfter(h: Host, rows: seq<Row>, a: Answers): Host {
    if rows == [] then h else
    var n := |rows| - 1;
    var g := HostAfter(h, rows[..n], a);
    if InFlight(rows[n].status) && SeenAlive(g, rows[n].slot, a(n).looks)
    then StopDetached(g, rows[n].slot, a(n)) else g
  }

  /** The m-th row's socket was alive when it was read. */
  predicate SeenAt(h: Host, rows: seq<Row>, a: Answers, m: nat)
    requires m < |rows|
  {
    SeenAlive(HostAfter(h, rows[..m], a), rows[m].slot, a(m).looks)
  }

  /** The m-th row is recovered. */
  predicate Kept(h: Host, rows: seq<Row>, a: Answers, m: nat)
    requires m < |rows|
  {
    rows[m].status == Ready && SeenAt(h, rows, a, m)
  }

  predicate Stops(h: Host, rows: seq<Row>, a: Answers, m: nat)
    requires m < |rows|
  {
    InFlight(rows[m].status) && SeenAt(h, rows, a, m)
  }

  ghost function KeptSlots(h: Host, rows: seq<Row>, a: Answers): set<int> {
    set m: nat | m < |rows| && Kept(h, rows, a, m) :: rows[m].slot
  }

  ghost function Ids(rows: seq<Row>): set<Id> {
    set m | 0 <= m < |rows| :: rows[m].id
  }

  lemma SeenInFront(h: Host, rows: seq<Row>, a: Answers, m: nat, n: nat)
    requires m < n <= |rows|
    ensures SeenAt(h, rows[..n], a, m) == SeenAt(h, rows, a, m)
  {
    assert rows[..n][..m] == rows[..m];
  }

  lemma Snoc(h: Host, rows: seq<Row>, a: Answers)
    requires rows != []
    ensures var n := |rows| - 1;
      && KeptSlots(h, rows, a) == KeptSlots(h, rows[..n], a) + (if Kept(h, rows, a, n) then {rows[n].slot} else {})
      && Ids(rows) == Ids(rows[..n]) + {rows[n].id}
  {
    var n := |rows| - 1;
    var front := rows[..n];
    forall m: nat | m < n ensures Kept(h, front, a, m) == Kept(h, rows, a, m) {
      SeenInFront(h, rows, a, m, n);
    }
    forall k | k in KeptSlots(h, front, a) ensures k in KeptSlots(h, rows, a) {
      var m: nat :| m < n && Kept(h, front, a, m) && front[m].slot == k;
      assert rows[m].slot == k;
    }
    forall k | k in KeptSlots(h, rows, a)
      ensures k in KeptSlots(h, front, a) || (Kept(h, rows, a, n) && k == rows[n].slot)
    {
      var m: nat :| m < |rows| && Kept(h, rows, a, m) && rows[m].slot == k;
      assert m < n ==> front[m] == rows[m];
    }
    forall id | id in Ids(front) ensures id in Ids(rows) {
      var m :| 0 <= m < n && front[m].id == id;
      assert rows[m].id == id;
    }
  }

  function Before(store: map<Id, Row>, h: Host): World {
    World(map[], {}, {}, store, h)
  }

  /** The host, the recovered slots and the used slots do not depend on the writes to the store: they are
      exactly what the stops leave and the slots of the recovered rows. */
  lemma {:induction false} RowsRecover(store: map<Id, Row>, h: Host, rows: seq<Row>, a: Answers, now: int)
    ensures var w := RecoverRows(Before(store, h), rows, a, now);
      w.host == HostAfter(h, rows, a) && w.live == w.used == KeptSlots(h, rows, a) && w.sessions.Keys == Ids(rows)
    decreases rows
  {
    if rows != [] {
      Snoc(h, rows, a);
      RowsRecover(store, h, rows[..|rows| - 1], a, now);
    }
  }

  /** The row and the session recovery leaves for a row. */
  function RowAfter(row: Row, kept: bool, saved: bool, now: int): Row {
    if kept || Terminal(row.status) || !saved then row
    else FailedRow(row, if row.status == Ready then LostOnHostRestart else LostOnServerRestart, now)
  }

  function SessionAfter(row: Row, kept: bool): Session {
    if kept || Terminal(row.status) then Load(row, row.status, row.errorMsg, kept)
    else Load(row, Failed, if row.status == Ready then LostOnHostRestart else LostOnServerRestart, false)
  }

  /** One row's effect on its session and on the store. */
  lemma RecoverRowParts(w: World, row: Row, a: Answer, now: int)
    ensures var w1, kept := RecoverRow(w, row, a, now), row.status == Ready && SeenAlive(w.host, row.slot, a.looks);
      && w1.sessions == w.sessions[row.id := SessionAfter(row, kept)]
      && (row.id in w.store && w.store[row.id] == row ==>
           w1.store == w.store[row.id := RowAfter(row, kept, a.saved, now)])
      && (forall id | id != row.id ::
           (id in w1.store <==> id in w.store) && (id in w.store ==> w1.store[id] == w.store[id]))
  {
  }

  predicate UniqueIds(rows: seq<Row>) {
    forall i, j | 0 <= i < j < |rows| :: rows[i].id != rows[j].id
  }

  lemma {:induction false} OthersUntouched(store: map<Id, Row>, h: Host, rows: seq<Row>, a: Answers, now: int, id: Id)
    requires forall m | 0 <= m < |rows| :: rows[m].id != id
    ensures var w := RecoverRows(Before(store, h), rows, a, now);
      (id in w.store <==> id in store) && (id in store ==> w.store[id] == store[id])
    decreases rows
  {
    if rows != [] {
      var n := |rows| - 1;
      OthersUntouched(store, h, rows[..n], a, now, id);
      RecoverRowParts(RecoverRows(Before(store, h), rows[..n], a, now), rows[n], a(n), now);
    }
  }

  /** The final session and row for the m-th row. */
  lemma {:induction false} RowAgrees(store: map<Id, Row>, h: Host, rows: seq<Row>, a: Answers, now: int, m: nat)
    requires UniqueIds(rows) && m < |rows| && rows[m].id in store && store[rows[m].id] == rows[m]
    ensures var w, row, kept := RecoverRows(Before(store, h), rows, a, now), rows[m], Kept(h, rows, a, m);
      && row.id in w.sessions && w.sessions[row.id] == SessionAfter(row, kept)
      && row.id in w.store && w.store[row.id] == RowAfter(row, kept, a(m).saved, now)
    decreases rows
  {
    var n := |rows| - 1;
    if m < n {
      var front := rows[..n];
      var u := RecoverRows(Before(store, h), front, a, now);
      RowAgrees(store, h, front, a, now, m);
      SeenInFront(h, rows, a, m, n);
      RecoverRowParts(u, rows[n], a(n), now);
    } else {
      LastRowAgrees(store, h, rows, a, now);
    }
  }

  lemma LastRowAgrees(store: map<Id, Row>, h: Host, rows: seq<Row>, a: Answers, now: int)
    requires UniqueIds(rows) && rows != []
    requires var row := rows[|rows| - 1]; row.id in store && store[row.id] == row
    ensures var w, m := RecoverRows(Before(store, h), rows, a, now), |rows| - 1;
      var row, kept := rows[m], Kept(h, rows, a, m);
      && row.id in w.sessions && w.sessions[row.id] == SessionAfter(row, kept)
      && row.id in w.store && w.store[row.id] == RowAfter(row, kept, a(m).saved, now)
  {
    var n := |rows| - 1;
    var front := rows[..n];
    RowsRecover(store, h, front, a, now);
    OthersUntouched(store, h, front, a, now, rows[n].id);
    RecoverRowParts(RecoverRows(Before(store, h), front, a, now), rows[n], a(n), now);
  }

  // ----- sessions, slots and rows --------------------------------------------------------------------

  /** `rows` lists the store: every row once, under its own ID. */
  ghost predicate Lists(rows: seq<Row>, store: map<Id, Row>) {
    && UniqueIds(rows) && Ids(rows) == store.Keys
    && (forall m | 0 <= m < |rows| :: rows[m].id in store && store[rows[m].id] == rows[m])
  }

  ghost function ReadySlots(sessions: map<Id, Session>): set<int> {
    set id | id in sessions && sessions[id].status == Ready :: sessions[id].slot
  }

  /** Session by session: each ends Ready, Stopped or Failed, Ready exactly when its row was ready and seen
      alive. Store and map agree on the status exactly when no write was due or the write went well. */
  lemma SessionSettles(store: map<Id, Row>, h: Host, rows: seq<Row>, a: Answers, now: int, m: nat)
    requires Lists(rows, store) && m < |rows|
    ensures var w, row, kept := RecoverRows(Before(store, h), rows, a, now), rows[m], Kept(h, rows, a, m);
      && row.id in w.sessions && row.id in w.store
      && w.sessions[row.id].status in {Ready, Stopped, Failed}
      && (w.sessions[row.id].status == Ready <==> kept)
      && (w.sessions[row.id].status == Ready ==> w.sessions[row.id].slot in w.used)
      && (w.store[row.id].status == w.sessions[row.id].status <==>
            kept || row.status in {Stopped, Failed} || a(m).saved)
  {
    RowAgrees(store, h, rows, a, now, m);
    RowsRecover(store, h, rows, a, now);
  }

  /** And what they contain: a session has its row's slot and data, and a handle exactly when it is recovered; a row
      that is rewritten is marked failed with the reason, and loses its role, prompt and result. */
  lemma ContentsSettle(store: map<Id, Row>, h: Host, rows: seq<Row>, a: Answers, now: int, m: nat)
    requires Lists(rows, store) && m < |rows|
    ensures var w, row, kept := RecoverRows(Before(store, h), rows, a, now), rows[m], Kept(h, rows, a, m);
      var settled := kept || row.status in {Stopped, Failed};
      var reason := if row.status == Ready then LostOnHostRestart else LostOnServerRestart;
      && row.id in w.sessions && row.id in w.store
      && w.sessions[row.id] == (if settled then Session(row.slot, row.status, row.errorMsg, row.info, kept)
                                else Session(row.slot, Failed, reason, row.info, false))
      && w.store[row.id] == (if settled || !a(m).saved then row
                             else Row(row.id, row.slot, Failed, reason, row.info, now, Job("", "", "")))
  {
    RowAgrees(store, h, rows, a, now, m);
  }

  /** No row is added or removed. */
  lemma StoreKeys(store: map<Id, Row>, h: Host, rows: seq<Row>, a: Answers, now: int)
    requires Lists(rows, store)
    ensures RecoverRows(Before(store, h), rows, a, now).store.Keys == store.Keys
  {
    var w := RecoverRows(Before(store, h), rows, a, now);
    forall id ensures id in w.store <==> id in store {
      if id in store {
        var m :| 0 <= m < |rows| && rows[m].id == id;
        RowAgrees(store, h, rows, a, now, m);
      } else {
        OthersUntouched(store, h, rows, a, now, id);
      }
    }
  }

  /** A slot is in use exactly when a Ready session has it. */
  lemma UsedAreReady(store: map<Id, Row>, h: Host, rows: seq<Row>, a: Answers, now: int)
    requires Lists(rows, store)
    ensures var w := RecoverRows(Before(store, h), rows, a, now);
      w.sessions.Keys == w.store.Keys == store.Keys && w.used == w.live == ReadySlots(w.sessions)
  {
    var w := RecoverRows(Before(store, h), rows, a, now);
    RowsRecover(store, h, rows, a, now);
    StoreKeys(store, h, rows, a, now);
    forall m: nat | m < |rows|
      ensures rows[m].id in w.sessions && w.sessions[rows[m].id].slot == rows[m].slot
      ensures w.sessions[rows[m].id].status == Ready <==> Kept(h, rows, a, m)
    {
      RowAgrees(store, h, rows, a, now, m);
    }
  }

  // ----- which VMs and sockets are left --------------------------------------------------------------

  predicate KillsAt(h: Host, rows: seq<Row>, a: Answers, m: nat, p: Pid)
    requires m < |rows|
  {
    p in h.vms && Stops(h, rows, a, m) && Killed(h.vms, rows[m].slot, a(m).finds, a(m).hardy, p)
  }

  predicate UnlinksAt(h: Host, rows: seq<Row>, a: Answers, m: nat, k: int)
    requires m < |rows|
  {
    Stops(h, rows, a, m) && rows[m].slot == k && a(m).unlinks
  }

  /** Some in-flight row's stop kills the process. */
  ghost predicate RowKills(h: Host, rows: seq<Row>, a: Answers, p: Pid) {
    exists m: nat | m < |rows| :: KillsAt(h, rows, a, m, p)
  }

  ghost predicate RowUnlinks(h: Host, rows: seq<Row>, a: Answers, k: int) {
    exists m: nat | m < |rows| :: UnlinksAt(h, rows, a, m, k)
  }

  lemma KillsSnoc(h: Host, rows: seq<Row>, a: Answers, p: Pid)
    requires rows != []
    ensures RowKills(h, rows, a, p) <==> (RowKills(h, rows[..|rows| - 1], a, p) || KillsAt(h, rows, a, |rows| - 1, p))
  {
    var n := |rows| - 1;
    var front := rows[..n];
    if RowKills(h, rows, a, p) {
      var m: nat :| m < |rows| && KillsAt(h, rows, a, m, p);
      if m < n {
        SeenInFront(h, rows, a, m, n);
        assert KillsAt(h, front, a, m, p);
      }
    }
    if RowKills(h, front, a, p) {
      var m: nat :| m < n && KillsAt(h, front, a, m, p);
      SeenInFront(h, rows, a, m, n);
      assert KillsAt(h, rows, a, m, p);
    }
  }

  lemma UnlinksSnoc(h: Host, rows: seq<Row>, a: Answers, k: int)
    requires rows != []
    ensures RowUnlinks(h, rows, a, k) <==>
        (RowUnlinks(h, rows[..|rows| - 1], a, k) || UnlinksAt(h, rows, a, |rows| - 1, k))
  {
    var n := |rows| - 1;
    var front := rows[..n];
    if RowUnlinks(h, rows, a, k) {
      var m: nat :| m < |rows| && UnlinksAt(h, rows, a, m, k);
      if m < n {
        SeenInFront(h, rows, a, m, n);
        assert UnlinksAt(h, front, a, m, k);
      }
    }
    if RowUnlinks(h, front, a, k) {
      var m: nat :| m < n && UnlinksAt(h, front, a, m, k);
      SeenInFront(h, rows, a, m, n);
      assert UnlinksAt(h, rows, a, m, k);
    }
  }

  /** The rows' part: exactly which processes are killed and which sockets are removed. Only in-flight rows
      seen alive do either, and only a process alone on its slot is killed. */
  lemma {:induction false} RowsKill(h: Host, rows: seq<Row>, a: Answers)
    ensures var g := HostAfter(h, rows, a);
      && (forall p :: p in g.vms <==> p in h.vms && !RowKills(h, rows, a, p))
      && (forall p | p in g.vms :: g.vms[p] == h.vms[p])
      && (forall k :: k in g.sockets <==> k in h.sockets && !RowUnlinks(h, rows, a, k))
    decreases rows
  {
    if rows != [] {
      var front := rows[..|rows| - 1];
      RowsKill(h, front, a);
      forall p { KillsSnoc(h, rows, a, p); }
      forall k { UnlinksSnoc(h, rows, a, k); }
      var g := HostAfter(h, front, a);
      forall p | p in g.vms ensures Sole(g.vms, p) == Sole(h.vms, p) {
      }
    }
  }

  /** The states that are neither recovered nor final. */
  lemma InFlightExactly(st: State)
    ensures InFlight(st) <==> st !in {Ready, Stopped, Failed}
  {
    match st {
      case Provisioning => case Booting => case WaitingSSH => case Configuring =>
      case Ready => case Stopping => case Stopped => case Failed =>
    }
  }

  /** When a row's stop kills a VM. */
  lemma RowKillsExactly(h: Host, rows: seq<Row>, a: Answers, p: Pid)
    ensures RowKills(h, rows, a, p) <==>
      p in h.vms && Alone(h, p) &&
      exists m: nat :: m < |rows| && rows[m].status !in {Ready, Stopped, Failed} && SeenAt(h, rows, a, m)
        && rows[m].slot == h.vms[p] && a(m).finds && p !in a(m).hardy
  {
    if m: nat :| m < |rows| && KillsAt(h, rows, a, m, p) {
      assert Alone(h, p);
    }
    forall m: nat | m < |rows| && p in h.vms && Alone(h, p)
      ensures KillsAt(h, rows, a, m, p) <==>
        rows[m].status !in {Ready, Stopped, Failed} && SeenAt(h, rows, a, m) && rows[m].slot == h.vms[p] && a(m).finds
        && p !in a(m).hardy
    {
      InFlightExactly(rows[m].status);
      assert Sole(h.vms, p);
    }
  }

  /** Recovery as a whole: a process still runs after it exactly when no row's stop killed it and the sweep
      did not. */
  lemma SurvivorsExactly(h: Host, rows: seq<Row>, a: Answers, o: Luck, slots: seq<int>, p: Pid)
    ensures var g := HostAfter(h, rows, a);
      p in Sweep(g, KeptSlots(h, rows, a), o, slots).vms <==>
        p in h.vms && !RowKills(h, rows, a, p) && !Swept(g, KeptSlots(h, rows, a), o, slots, p)
  {
    RowsKill(h, rows, a);
    SweepVms(HostAfter(h, rows, a), KeptSlots(h, rows, a), o, slots);
  }

  // ----- what takes a slot from a ready row ----------------------------------------------------------

  /** An in-flight row whose stop, if it comes while the slot is as it was at first, removes the socket or kills
      the only VM. */
  predicate Taker(h: Host, row: Row, x: Answer, k: int) {
    && InFlight(row.status) && row.slot == k && x.looks
    && (x.unlinks || exists p | p in h.vms :: Killed(h.vms, k, x.finds, x.hardy, p))
  }

  /** One of the first m rows takes the slot. */
  predicate Taken(h: Host, rows: seq<Row>, a: Answers, m: nat, k: int)
    requires m <= |rows|
  {
    exists n: nat | n < m :: Taker(h, rows[n], a(n), k)
  }

  /** VMs and sockets only go. */
  predicate Shrunk(g: Host, f: Host) {
    f.sockets <= g.sockets && (forall p | p in f.vms :: p in g.vms && g.vms[p] == f.vms[p])
  }

  lemma {:induction false} HostShrinks(h: Host, rows: seq<Row>, a: Answers, m: nat, n: nat)
    requires m <= n <= |rows|
    ensures Shrunk(HostAfter(h, rows[..m], a), HostAfter(h, rows[..n], a))
    decreases n
  {
    if m < n {
      HostShrinks(h, rows, a, m, n - 1);
      assert rows[..n] == rows[..n - 1] + [rows[n - 1]];
    }
  }

  /** The slot is as it was. */
  predicate SameAt(g: Host, h: Host, k: int) {
    && (k in g.sockets <==> k in h.sockets)
    && (forall p | p in g.vms && g.vms[p] == k :: p in h.vms && h.vms[p] == k)
    && (forall p | p in h.vms && h.vms[p] == k :: p in g.vms && g.vms[p] == k)
  }

  lemma UntakenStays(h: Host, rows: seq<Row>, a: Answers, n: nat, k: int)
    requires n <= |rows| && !Taken(h, rows, a, n, k)
    ensures SameAt(HostAfter(h, rows[..n], a), h, k)
  {
    RowsKill(h, rows[..n], a);
    forall p, m: nat | p in h.vms && h.vms[p] == k && m < n ensures !KillsAt(h, rows[..n], a, m, p) {
    }
  }

  /** Once taken, the slot is not alive any more. */
  lemma {:induction false} TakenGoes(h: Host, rows: seq<Row>, a: Answers, m: nat, k: int, looks: bool)
    requires m <= |rows| && Taken(h, rows, a, m, k)
    ensures !SeenAlive(HostAfter(h, rows[..m], a), k, looks)
    decreases m
  {
    var n := m - 1;
    HostShrinks(h, rows, a, n, m);
    if Taken(h, rows, a, n, k) {
      TakenGoes(h, rows, a, n, k, looks);
    } else {
      UntakenStays(h, rows, a, n, k);
      TakerTakes(h, rows, a, n, k, looks);
    }
  }

  lemma TakerTakes(h: Host, rows: seq<Row>, a: Answers, n: nat, k: int, looks: bool)
    requires n < |rows| && Taker(h, rows[n], a(n), k) && SameAt(HostAfter(h, rows[..n], a), h, k)
    ensures !SeenAlive(HostAfter(h, rows[..n + 1], a), k, looks)
  {
    var g := HostAfter(h, rows[..n], a);
    assert rows[..n + 1][..n] == rows[..n];
    var f := HostAfter(h, rows[..n + 1], a);
    if SeenAlive(g, k, a(n).looks) {
      assert f == StopDetached(g, k, a(n));
      if !a(n).unlinks {
        var p :| p in h.vms && Killed(h.vms, k, a(n).finds, a(n).hardy, p);
        assert Sole(g.vms, p) && p !in f.vms;
        assert forall q | q in f.vms :: f.vms[q] != k;
      }
    } else {
      assert f == g;
    }
  }

  /** A row is recovered exactly when it is ready, its slot was alive at first, lsof works for it, and no in-flight
      row before it takes the slot. */
  lemma KeptExactly(h: Host, rows: seq<Row>, a: Answers, m: nat)
    requires m < |rows|
    ensures Kept(h, rows, a, m) <==>
      && rows[m].status == Ready && a(m).looks && rows[m].slot in h.sockets && rows[m].slot in h.vms.Values
      && !Taken(h, rows, a, m, rows[m].slot)
  {
    var g, k := HostAfter(h, rows[..m], a), rows[m].slot;
    if Taken(h, rows, a, m, k) {
      TakenGoes(h, rows, a, m, k, a(m).looks);
    } else {
      UntakenStays(h, rows, a, m, k);
    }
  }

  /** When a row takes a slot: it is in flight there, lsof works, and its stop removes the socket or kills a VM that
      has the slot to itself. */
  lemma TakerExactly(h: Host, row: Row, x: Answer, k: int)
    ensures Taker(h, row, x, k) <==>
      && row.status !in {Ready, Stopped, Failed} && row.slot == k && x.looks
      && (x.unlinks || (x.finds && exists p :: p in h.vms && h.vms[p] == k && p !in x.hardy && Alone(h, p)))
  {
    InFlightExactly(row.status);
    forall p | p in h.vms
      ensures Killed(h.vms, k, x.finds, x.hardy, p) <==> x.finds && h.vms[p] == k && p !in x.hardy && Alone(h, p)
    {
      assert Sole(h.vms, p) <==> Alone(h, p);
    }
  }

  ghost predicate Alone(h: Host, p: Pid)
    requires p in h.vms
  {
    forall q | q in h.vms && q != p :: h.vms[q] != h.vms[p]
  }

  /** A recovered session's VMs run on after the sweep, and its socket is there, exactly as far as the rows' stops
      leave them; a VM and the socket both remain exactly when no in-flight row takes the slot. */
  lemma RecoveredSurvive(h: Host, rows: seq<Row>, a: Answers, o: Luck, slots: seq<int>, m: nat)
    requires m < |rows| && Kept(h, rows, a, m)
    ensures var end, k := Sweep(HostAfter(h, rows, a), KeptSlots(h, rows, a), o, slots), rows[m].slot;
      && (forall p | p in h.vms && h.vms[p] == k :: p in end.vms <==> !RowKills(h, rows, a, p))
      && (k in end.sockets <==> !RowUnlinks(h, rows, a, k))
      && (SeenAlive(end, k, true) <==> !Taken(h, rows, a, |rows|, k))
      && SameAt(end, HostAfter(h, rows, a), k)
  {
    var g, k := HostAfter(h, rows, a), rows[m].slot;
    var end := Sweep(g, KeptSlots(h, rows, a), o, slots);
    assert rows[..|rows|] == rows;
    assert k in KeptSlots(h, rows, a);
    KeptExactly(h, rows, a, m);
    RowsKill(h, rows, a);
    if Taken(h, rows, a, |rows|, k) {
      TakenGoes(h, rows, a, |rows|, k, true);
    } else {
      UntakenStays(h, rows, a, |rows|, k);
    }
  }

  /** A scanned slot without a recovered session: its socket stays exactly when it could not be removed, and a
      VM of it stays exactly when the socket was gone before the sweep, lsof failed, the VM had company, or it
      withstood the kill. */
  lemma OrphansExactly(h: Host, rows: seq<Row>, a: Answers, o: Luck, slots: seq<int>, k: int)
    requires k in slots && k !in KeptSlots(h, rows, a)
    ensures var g := HostAfter(h, rows, a);
      var end := Sweep(g, KeptSlots(h, rows, a), o, slots);
      && (k in end.sockets <==> k in g.sockets && k in o.stuck)
      && (forall p | p in g.vms && g.vms[p] == k ::
            p in end.vms <==> k !in g.sockets || k in o.blind || p in o.hardy || !Alone(g, p))
  {
    var g := HostAfter(h, rows, a);
    SweepVms(g, KeptSlots(h, rows, a), o, slots);
    SweepSockets(g, KeptSlots(h, rows, a), o, slots);
  }

  // ----- VMs that are lost for good ------------------------------------------------------------------

  /** A VM whose socket is gone is found by no recovery, */
  lemma LostStays(h: Host, rows: seq<Row>, a: Answers, skip: set<int>, o: Luck, slots: seq<int>, p: Pid)
    requires p in h.vms && h.vms[p] !in h.sockets
    ensures var end := Sweep(HostAfter(h, rows, a), skip, o, slots);
      p in end.vms && end.vms[p] == h.vms[p] && h.vms[p] !in end.sockets
  {
    var g := HostAfter(h, rows, a);
    RowsKill(h, rows, a);
    if n: nat :| n < |rows| && KillsAt(h, rows, a, n, p) {
      HostShrinks(h, rows, a, 0, n);
    }
    SweepVms(g, skip, o, slots);
    SweepSockets(g, skip, o, slots);
  }

  /** What one recovery meets: the rows and answers, and what the sweep scans. */
  datatype Round = Round(rows: seq<Row>, a: Answers, o: Luck, slots: seq<int>)

  ghost function HostAfterAll(h: Host, rounds: seq<Round>): Host
    decreases |rounds|
  {
    if rounds == [] then h else
    var r := rounds[0];
    HostAfterAll(Sweep(HostAfter(h, r.rows, r.a), KeptSlots(h, r.rows, r.a), r.o, r.slots), rounds[1..])
  }

  /** however many restarts there are. */
  lemma {:induction false} LostForGood(h: Host, rounds: seq<Round>, p: Pid)
    requires p in h.vms && h.vms[p] !in h.sockets
    ensures p in HostAfterAll(h, rounds).vms && h.vms[p] !in HostAfterAll(h, rounds).sockets
    decreases |rounds|
  {
    if rounds != [] {
      var r := rounds[0];
      LostStays(h, r.rows, r.a, KeptSlots(h, r.rows, r.a), r.o, r.slots, p);
      LostForGood(Sweep(HostAfter(h, r.rows, r.a), KeptSlots(h, r.rows, r.a), r.o, r.slots), rounds[1..], p);
    }
  }

  // ----- what does not matter ------------------------------------------------------------------------

  predicate SameButStore(w: World, v: World) {
    w.sessions == v.sessions && w.used == v.used && w.live == v.live && w.host == v.host
  }

  /** Whether the writes to the store go well changes nothing but the store. */
  lemma {:induction false} WritesDoNotMatter(store: map<Id, Row>, h: Host, rows: seq<Row>, a: Answers, b: Answers,
                                             now: int)
    requires forall n: nat :: a(n) == b(n).(saved := a(n).saved)
    ensures SameButStore(RecoverRows(Before(store, h), rows, a, now), RecoverRows(Before(store, h), rows, b, now))
    decreases rows
  {
    if rows != [] {
      var n := |rows| - 1;
      var front := rows[..n];
      WritesDoNotMatter(store, h, front, a, b, now);
      var w, v := RecoverRows(Before(store, h), front, a, now), RecoverRows(Before(store, h), front, b, now);
    }
  }

  /** When the order of the rows matters: with the same answers for the same rows, two orders leave the same
      sessions exactly when each ready row whose slot was alive at first comes, in both or in neither, after an
      in-flight row that takes its slot; and then they leave the same slots and the same store. */
  lemma OrderMattersExactly(store: map<Id, Row>, h: Host, rows: seq<Row>, a: Answers, now: int,
                            rows2: seq<Row>, b: Answers)
    requires Lists(rows, store) && Lists(rows2, store) && SameAnswers(rows, a, rows2, b)
    ensures var w, v := RecoverRows(Before(store, h), rows, a, now), RecoverRows(Before(store, h), rows2, b, now);
      && (w.sessions == v.sessions <==> TakenAlike(h, rows, a, rows2, b))
      && (w.sessions == v.sessions ==> w.store == v.store && w.used == v.used)
  {
    var w, v := RecoverRows(Before(store, h), rows, a, now), RecoverRows(Before(store, h), rows2, b, now);
    UsedAreReady(store, h, rows, a, now);
    UsedAreReady(store, h, rows2, b, now);
    forall m: nat, n: nat | m < |rows| && n < |rows2| && rows[m].id == rows2[n].id
      ensures SameIn(w, v, rows[m].id, AlikeAt(h, rows, a, rows2, b, m, n))
    {
      SameOutcome(store, h, rows, a, now, rows2, b, m, n);
    }
    SamePositions(w, v, h, rows, a, rows2, b);
  }

  /** Two recoveries give the session `id` the same outcome exactly when `alike`, and then its row, too. */
  predicate SameIn(w: World, v: World, id: Id, alike: bool) {
    && id in w.sessions && id in v.sessions && id in w.store && id in v.store
    && (w.sessions[id] == v.sessions[id] <==> alike)
    && (w.sessions[id] == v.sessions[id] ==> w.store[id] == v.store[id])
  }

  lemma SamePositions(w: World, v: World, h: Host, rows: seq<Row>, a: Answers, rows2: seq<Row>, b: Answers)
    requires w.sessions.Keys == v.sessions.Keys == w.store.Keys == v.store.Keys == Ids(rows) == Ids(rows2)
    requires forall m: nat, n: nat | m < |rows| && n < |rows2| && rows[m].id == rows2[n].id ::
      SameIn(w, v, rows[m].id, AlikeAt(h, rows, a, rows2, b, m, n))
    ensures w.sessions == v.sessions <==> TakenAlike(h, rows, a, rows2, b)
    ensures w.sessions == v.sessions ==> w.store == v.store
  {
    forall id | id in Ids(rows)
      ensures exists m: nat, n: nat | m < |rows| && n < |rows2| && rows[m].id == rows2[n].id == id ::
        SameIn(w, v, id, AlikeAt(h, rows, a, rows2, b, m, n))
    {
      var m: nat :| m < |rows| && rows[m].id == id;
      var n: nat :| n < |rows2| && rows2[n].id == id;
      assert SameIn(w, v, id, AlikeAt(h, rows, a, rows2, b, m, n));
    }
    if TakenAlike(h, rows, a, rows2, b) {
      SameMap(w.sessions, v.sessions);
    }
    if w.sessions == v.sessions {
      SameMap(w.store, v.store);
    }
  }

  ghost predicate SameAnswers(rows: seq<Row>, a: Answers, rows2: seq<Row>, b: Answers) {
    forall m: nat, n: nat | m < |rows| && n < |rows2| && rows[m].id == rows2[n].id :: a(m) == b(n)
  }

  predicate AlikeAt(h: Host, rows: seq<Row>, a: Answers, rows2: seq<Row>, b: Answers, m: nat, n: nat)
    requires m < |rows| && n < |rows2|
  {
    rows[m].status == Ready && SeenAlive(h, rows[m].slot, a(m).looks) ==>
      (Taken(h, rows, a, m, rows[m].slot) <==> Taken(h, rows2, b, n, rows[m].slot))
  }

  ghost predicate TakenAlike(h: Host, rows: seq<Row>, a: Answers, rows2: seq<Row>, b: Answers) {
    forall m: nat, n: nat | m < |rows| && n < |rows2| && rows[m].id == rows2[n].id ::
      AlikeAt(h, rows, a, rows2, b, m, n)
  }

  lemma SameOutcome(store: map<Id, Row>, h: Host, rows: seq<Row>, a: Answers, now: int, rows2: seq<Row>, b: Answers,
                    m: nat, n: nat)
    requires Lists(rows, store) && Lists(rows2, store) && m < |rows| && n < |rows2| && rows[m].id == rows2[n].id
    requires a(m) == b(n)
    ensures var w, v := RecoverRows(Before(store, h), rows, a, now), RecoverRows(Before(store, h), rows2, b, now);
      SameIn(w, v, rows[m].id, AlikeAt(h, rows, a, rows2, b, m, n))
  {
    RowAgrees(store, h, rows, a, now, m);
    RowAgrees(store, h, rows2, b, now, n);
    KeptExactly(h, rows, a, m);
    KeptExactly(h, rows2, b, n);
  }

  lemma SameMap<V>(x: map<Id, V>, y: map<Id, V>)
    requires x.Keys == y.Keys && forall id | id in y :: x[id] == y[id]
    ensures x == y
  {
  }
}
