/** Startup recovery: loadFromDB in cmd/poc/main.go, the detached stop in internal/vm/detached.go and the
    orphan sweep in internal/vm/cleanup.go.

    VMs are processes; a VM is on a slot whether or not the slot's socket file still exists, and a slot may have
    several. Every call of lsof, every kill, every removal of a socket file and every write to the store has an
    answer of its own. */
module Recovery {
  import opened Options
  import opened Lifecycle

  type Id = nat
  type Pid = nat

  /** What recovery copies from row to session unread, and what it leaves behind. */
  datatype Info = Info(repoURL: string, branch: string, devMode: bool, createdAt: int)
  datatype Job = Job(role: string, prompt: string, result: string)

  /** The error text of a row; the two that recovery writes are named. */
  datatype ErrorMsg = Text(text: string) | LostOnHostRestart | LostOnServerRestart

  datatype Row = Row(id: Id, slot: int, status: State, errorMsg: ErrorMsg, info: Info, updatedAt: int, job: Job)

  /** A session in the manager's map; `attached` when it was given a handle to a VM. */
  datatype Session = Session(slot: int, status: State, error: ErrorMsg, info: Info, attached: bool)

  // ----- VMs and sockets -----------------------------------------------------------------------------

  /** `vms` are the running Firecracker processes, each with its slot; `sockets` are the slots whose control
      socket exists. */
  datatype Host = Host(vms: map<Pid, int>, sockets: set<int>)

  /** IsSocketAlive: the socket exists, and lsof works and prints something. */
  predicate SeenAlive(h: Host, slot: int, lsof: bool) {
    slot in h.sockets && lsof && slot in h.vms.Values
  }

  predicate Sole(vms: map<Pid, int>, p: Pid)
    requires p in vms
  {
    forall q | q in vms && vms[q] == vms[p] :: q == p
  }

  /** A process is killed when lsof works and prints it alone: two process IDs do not parse as one number.
      Those in `hardy` withstand the signals. */
  predicate Killed(vms: map<Pid, int>, slot: int, lsof: bool, hardy: set<Pid>, p: Pid)
    requires p in vms
  {
    lsof && vms[p] == slot && Sole(vms, p) && p !in hardy
  }

  function Kill(vms: map<Pid, int>, slot: int, lsof: bool, hardy: set<Pid>): map<Pid, int> {
    map p | p in vms && !Killed(vms, slot, lsof, hardy, p) :: vms[p]
  }

  // ----- the rows ------------------------------------------------------------------------------------

  /** What the calls made for one row answer: the two uses of lsof, the kill, the removal of the socket and
      the write of the row. */
  datatype Answer = Answer(looks: bool, finds: bool, hardy: set<Pid>, unlinks: bool, saved: bool)

  predicate InFlight(st: State) {
    st in {Provisioning, Booting, WaitingSSH, Configuring, Stopping}
  }

  predicate Terminal(st: State) {
    st in {Stopped, Failed}
  }

  datatype World = World(sessions: map<Id, Session>, used: set<int>, live: set<int>, store: map<Id, Row>, host: Host)

  /** Rows rewritten as failed keep no role, prompt or result. */
  function FailedRow(row: Row, error: ErrorMsg, now: int): Row {
    Row(row.id, row.slot, Failed, error, row.info, now, Job("", "", ""))
  }

  function Load(row: Row, status: State, error: ErrorMsg, attached: bool): Session {
    Session(row.slot, status, error, row.info, attached)
  }

  function Save(store: map<Id, Row>, row: Row, saved: bool): map<Id, Row> {
    if saved then store[row.id := row] else store
  }

  /** DetachedVM.Stop: kill, then remove the socket in any case. */
  function StopDetached(h: Host, slot: int, a: Answer): Host {
    Host(Kill(h.vms, slot, a.finds, a.hardy), if a.unlinks then h.sockets - {slot} else h.sockets)
  }

  /** What recovery makes of one row. */
  function RecoverRow(w: World, row: Row, a: Answer, now: int): World {
    var alive := SeenAlive(w.host, row.slot, a.looks);
    var w1 :=
      if row.status == Ready then
        if alive then
          w.(sessions := w.sessions[row.id := Load(row, Ready, row.errorMsg, true)], live := w.live + {row.slot})
        else
          w.(sessions := w.sessions[row.id := Load(row, Failed, LostOnHostRestart, false)],
             store := Save(w.store, FailedRow(row, LostOnHostRestart, now), a.saved))
      else if InFlight(row.status) then
        w.(host := if alive then StopDetached(w.host, row.slot, a) else w.host,
           sessions := w.sessions[row.id := Load(row, Failed, LostOnServerRestart, false)],
           store := Save(w.store, FailedRow(row, LostOnServerRestart, now), a.saved))
      else
        w.(sessions := w.sessions[row.id := Load(row, row.status, row.errorMsg, false)]);
    if row.slot in w1.live then w1.(used := w1.used + {row.slot}) else w1
  }

  type Answers = nat -> Answer

  /** Recovered slots are in use. */
  lemma {:induction false} LiveIsUsed(w: World, rows: seq<Row>, a: Answers, now: int)
    requires w.live <= w.used
    ensures RecoverRows(w, rows, a, now).live <= RecoverRows(w, rows, a, now).used
    decreases rows
  {
    if rows != [] {
      LiveIsUsed(w, rows[..|rows| - 1], a, now);
    }
  }

  /** All rows in the order the store lists them; `a(n)` answers for the n-th. */
  function RecoverRows(w: World, rows: seq<Row>, a: Answers, now: int): World {
    if rows == [] then w
    else RecoverRow(RecoverRows(w, rows[..|rows| - 1], a, now), rows[|rows| - 1], a(|rows| - 1), now)
  }

  // ----- the sweep -----------------------------------------------------------------------------------

  /** What the sweep's calls answer: slots for which lsof fails, processes that withstand a kill, and slots
      whose socket cannot be removed. */
  datatype Luck = Luck(blind: set<int>, hardy: set<Pid>, stuck: set<int>)

  /** One scanned slot: spared, or without a socket, it is left alone. */
  function SweepSlot(h: Host, skip: set<int>, o: Luck, slot: int): Host {
    if slot in skip || slot !in h.sockets then h
    else Host(Kill(h.vms, slot, slot !in o.blind, o.hardy), if slot in o.stuck then h.sockets else h.sockets - {slot})
  }

  function Sweep(h: Host, skip: set<int>, o: Luck, slots: seq<int>): Host {
    if slots == [] then h
    else SweepSlot(Sweep(h, skip, o, slots[..|slots| - 1]), skip, o, slots[|slots| - 1])
  }

  /** The slots the sweep scans: all below a positive limit, otherwise those whose socket was found. */
  function ScannedSlots(maxSlots: int, found: seq<int>): seq<int> {
    if maxSlots > 0 then seq(maxSlots, i => i) else found
  }

  lemma ScannedExactly(maxSlots: int, found: seq<int>)
    ensures forall k :: k in ScannedSlots(maxSlots, found) <==> (if maxSlots > 0 then 0 <= k < maxSlots else k in found)
  {
    var slots := ScannedSlots(maxSlots, found);
    if maxSlots > 0 {
      forall k | 0 <= k < maxSlots ensures k in slots { assert slots[k] == k; }
    }
  }

  // ----- the code ------------------------------------------------------------------------------------

  class SessionManager {
    var sessions: map<Id, Session>
    var usedSlots: set<int>
    var store: map<Id, Row>
    var host: Host
    const maxSlots: int

    constructor (maxSlots: int, store: map<Id, Row>, host: Host)
      ensures this.maxSlots == maxSlots && sessions == map[] && usedSlots == {}
      ensures this.store == store && this.host == host
    {
      this.maxSlots, this.store, this.host := maxSlots, store, host;
      sessions, usedSlots := map[], {};
    }

    /** `listed` is what the store's List returned, None when that failed, and then nothing is done;
        `found` are the slots of the socket files on disk. */
    method LoadFromDB(listed: Option<seq<Row>>, a: Answers, found: seq<int>, o: Luck, now: int) returns (errs: seq<int>)
      modifies this
      ensures listed.None? ==> unchanged(this) && errs == []
      ensures listed.Some? ==>
        var w := RecoverRows(World(old(sessions), old(usedSlots), {}, old(store), old(host)), listed.value, a, now);
        && sessions == w.sessions && usedSlots == w.used && store == w.store
        && host == Sweep(w.host, w.live, o, ScannedSlots(maxSlots, found))
        && (forall k :: k in errs <==>
              (if maxSlots > 0 then 0 <= k < maxSlots else k in found) && k !in w.live && k in host.sockets)
        // under a limit every slot below it that is not in use afterwards has been swept
        && (maxSlots > 0 ==> forall k | 0 <= k < maxSlots && k !in usedSlots :: SlotSwept(w.host, host, o, k))
    {
      if listed.None? {
        return [];
      }
      var rows, liveSlots := listed.value, {};
      ghost var w0 := World(sessions, usedSlots, {}, store, host);
      var n := 0;
      while n < |rows|
        invariant 0 <= n <= |rows|
        invariant RecoverRows(w0, rows[..n], a, now) == World(sessions, usedSlots, liveSlots, store, host)
      {
        assert rows[..n + 1][..n] == rows[..n];
        liveSlots := LoadRow(rows[n], a(n), now, liveSlots);
        n := n + 1;
      }
      assert rows[..n] == rows;
      LiveIsUsed(w0, rows, a, now);
      errs := CleanupOrphansExcept(found, liveSlots, o);
    }

    /** The body of the loop over the rows. */
    method LoadRow(row: Row, a: Answer, now: int, live0: set<int>) returns (live: set<int>)
      modifies this
      ensures World(sessions, usedSlots, live, store, host)
        == RecoverRow(World(old(sessions), old(usedSlots), live0, old(store), old(host)), row, a, now)
    {
      live := live0;
      if row.status == Ready {
        if SeenAlive(host, row.slot, a.looks) {
          sessions := sessions[row.id := Load(row, Ready, row.errorMsg, true)];
          live := live + {row.slot};
        } else {
          if a.saved { store := store[row.id := FailedRow(row, LostOnHostRestart, now)]; }
          sessions := sessions[row.id := Load(row, Failed, LostOnHostRestart, false)];
        }
      } else if InFlight(row.status) {
        if SeenAlive(host, row.slot, a.looks) {
          host := StopDetached(host, row.slot, a);
        }
        if a.saved { store := store[row.id := FailedRow(row, LostOnServerRestart, now)]; }
        sessions := sessions[row.id := Load(row, Failed, LostOnServerRestart, false)];
      } else {
        sessions := sessions[row.id := Load(row, row.status, row.errorMsg, false)];
      }
      if row.slot in live {
        usedSlots := usedSlots + {row.slot};
      }
    }

    method SlotsForCleanup(found: seq<int>) returns (slots: seq<int>)
      ensures slots == ScannedSlots(maxSlots, found)
      ensures forall k :: k in slots <==> (if maxSlots > 0 then 0 <= k < maxSlots else k in found)
    {
      ScannedExactly(maxSlots, found);
      if maxSlots <= 0 {
        return found;
      }
      slots := [];
      while |slots| < maxSlots
        invariant |slots| <= maxSlots
        invariant slots == seq(|slots|, i => i)
      {
        slots := slots + [|slots|];
      }
    }

    /** An error for each scanned slot whose socket stays, and for no other. */
    method CleanupOrphansExcept(found: seq<int>, skip: set<int>, o: Luck) returns (errs: seq<int>)
      modifies this`host
      ensures host == Sweep(old(host), skip, o, ScannedSlots(maxSlots, found))
      ensures forall k :: k in errs <==>
        (if maxSlots > 0 then 0 <= k < maxSlots else k in found) && k !in skip && k in host.sockets
      ensures forall k :: (if maxSlots > 0 then 0 <= k < maxSlots else k in found) && k !in skip ==>
        SlotSwept(old(host), host, o, k)
      ensures forall k :: !(if maxSlots > 0 then 0 <= k < maxSlots else k in found) || k in skip ==>
        SlotUntouched(old(host), host, k)
    {
      var slots := SlotsForCleanup(found);
      errs := [];
      var n := 0;
      while n < |slots|
        invariant 0 <= n <= |slots|
        invariant host == Sweep(old(host), skip, o, slots[..n])
        invariant forall k :: k in errs <==> k in Unremoved(old(host), skip, o, slots[..n])
      {
        var slot := slots[n];
        SweepSockets(old(host), skip, o, slots[..n]);
        assert slots[..n + 1] == slots[..n] + [slot];
        n := n + 1;
        if slot in skip || slot !in host.sockets {
          continue;
        }
        host := host.(vms := Kill(host.vms, slot, slot !in o.blind, o.hardy));
        if slot in o.stuck {
          errs := errs + [slot];
        } else {
          host := host.(sockets := host.sockets - {slot});
        }
      }
      assert slots[..n] == slots;
      SweepSlotBySlot(old(host), skip, o, slots, host);
    }
  }

  // ----- what the sweep leaves -----------------------------------------------------------------------

  /** The scanned, unspared slots whose socket could not be removed. */
  function Unremoved(h: Host, skip: set<int>, o: Luck, slots: seq<int>): set<int> {
    set k | k in h.sockets && k in slots && k !in skip && k in o.stuck
  }

  /** A slot after the sweep: its socket is gone unless it could not be removed, and a VM of it runs on exactly when
      there was no socket, lsof failed, the VM had company on the slot, or it withstood the kill. */
  ghost predicate SlotSwept(before: Host, after: Host, o: Luck, k: int) {
    && (k in after.sockets <==> k in before.sockets && k in o.stuck)
    && (forall p | p in before.vms && before.vms[p] == k ::
          p in after.vms <==>
            || k !in before.sockets || k in o.blind || p in o.hardy
            || exists q :: q in before.vms && q != p && before.vms[q] == k)
  }

  ghost predicate SlotUntouched(before: Host, after: Host, k: int) {
    && (k in after.sockets <==> k in before.sockets)
    && (forall p | p in before.vms && before.vms[p] == k :: p in after.vms)
  }

  lemma SweepSlotBySlot(h: Host, skip: set<int>, o: Luck, slots: seq<int>, after: Host)
    requires after == Sweep(h, skip, o, slots)
    ensures forall k | k in slots && k !in skip :: SlotSwept(h, after, o, k)
    ensures forall k | k !in slots || k in skip :: SlotUntouched(h, after, k)
    ensures forall p | p in after.vms :: p in h.vms && after.vms[p] == h.vms[p]
  {
    SweepSockets(h, skip, o, slots);
    SweepVms(h, skip, o, slots);
  }

  lemma {:induction false} SweepSockets(h: Host, skip: set<int>, o: Luck, slots: seq<int>)
    ensures Sweep(h, skip, o, slots).sockets == set k | k in h.sockets && (k in skip || k !in slots || k in o.stuck)
    decreases slots
  {
    if slots != [] {
      SweepSockets(h, skip, o, slots[..|slots| - 1]);
      assert slots == slots[..|slots| - 1] + [slots[|slots| - 1]];
    }
  }

  /** The sweep kills a process exactly when its slot is scanned and not spared, its socket is there, lsof
      works, the process is alone on its slot and does not withstand the kill. */
  predicate Swept(h: Host, skip: set<int>, o: Luck, slots: seq<int>, p: Pid) {
    && p in h.vms && h.vms[p] in slots && h.vms[p] !in skip && h.vms[p] in h.sockets
    && Killed(h.vms, h.vms[p], h.vms[p] !in o.blind, o.hardy, p)
  }

  lemma {:induction false} SweepVms(h: Host, skip: set<int>, o: Luck, slots: seq<int>)
    ensures Sweep(h, skip, o, slots).vms == map p | p in h.vms && !Swept(h, skip, o, slots, p) :: h.vms[p]
    decreases slots
  {
    if slots == [] {
      assert forall p | p in h.vms :: !Swept(h, skip, o, slots, p);
    } else {
      var front, slot := slots[..|slots| - 1], slots[|slots| - 1];
      var m := Sweep(h, skip, o, front);
      SweepVms(h, skip, o, front);
      SweepSockets(h, skip, o, front);
      assert slots == front + [slot];
      forall p | p in h.vms ensures p in Sweep(h, skip, o, slots).vms <==> !Swept(h, skip, o, slots, p) {
        if p in m.vms { SoleKept(h, m.vms, p, skip, o, front); }
      }
    }
  }

  /** Whoever shares a slot is not killed, so no process becomes alone. */
  lemma SoleKept(h: Host, after: map<Pid, int>, p: Pid, skip: set<int>, o: Luck, slots: seq<int>)
    requires after == map p | p in h.vms && !Swept(h, skip, o, slots, p) :: h.vms[p]
    requires p in after
    ensures Sole(after, p) <==> Sole(h.vms, p)
  {
    if q :| q in h.vms && h.vms[q] == h.vms[p] && q != p {
      assert !Sole(h.vms, q) && q in after;
    }
  }
}
