/** The thin-volume allocator (internal/compute/firecracker/snapshot.go): concurrent creates and
    deletes with partial failures, crashes and restarts. */
module ThinVolumes {
  import opened Options
  import opened Sets

  /** Session IDs, which are also the device names; and the calls in flight. */
  type Sid = nat
  type Call = nat

  /** The first counter value a manager may use: 2, or a larger number found in the counter file. */
  function NextOf(file: Option<int>): int {
    if file.Some? && file.value >= 2 then file.value else 2
  }

  // ----- the system -----------------------------------------------------------------------

  /** Where a call stands. Creates go through Snap (number reserved, create_snap not yet sent), Size,
      Stale, Dev and Record, or Undo; deletes through RemoveDev, DeleteVol and Forget. */
  datatype Phase = Snap | Size | Stale | Dev | Record | Undo | RemoveDev | DeleteVol | Forget

  datatype Op = Op(at: Phase, sid: Sid, vol: int)

  predicate Creating(op: Op) {
    op.at !in {RemoveDev, DeleteVol, Forget}
  }

  datatype Manager = Manager(next: int, sessions: map<Sid, int>)

  /** `pool` are the thin volumes, `dev` the device table, `file` the counter file, `born` the session
      IDs ever used, `busy` the call last begun for a session, `lost` the devices left by a failed
      command or not read at startup, `leaked` the volumes left by a failed command or found without a
      device at startup, `hollow` the devices whose volume was deleted under them. */
  datatype Sys = Sys(pool: set<int>, base: int, dev: map<Sid, int>, file: Option<int>, mgr: Option<Manager>,
                     ops: map<Call, Op>, born: set<Sid>, busy: map<Sid, Call>, lost: set<Sid>, leaked: set<int>,
                       hollow: set<Sid>)

  /** `seen` are the devices that could be read at startup, `left` is what the counter file holds after the
      reconciliation; `ok` is the answer a command gave, `did` whether it took effect: a command that reports failure
      may have taken effect all the same, one that reports success has. */
  datatype Event =
    | Start(seen: set<Sid>, left: Option<int>)
    | Reserve(call: Call, sid: Sid, ok: bool, did: bool)
    | Step(call: Call, ok: bool, did: bool)
    | Delete(call: Call, sid: Sid)
    | Crash

  function Seen(dev: map<Sid, int>, seen: set<Sid>): map<Sid, int> {
    map sid | sid in dev && sid in seen :: dev[sid]
  }

  /** The counter after reconciliation: the least value not below `next` that is above all volumes. */
  ghost function Reconciled(next: int, vols: set<int>): (n: int)
    ensures n >= next && forall v | v in vols :: v < n
    ensures n == next || n - 1 in vols
    decreases |vols|
  {
    if exists v :: v in vols && v >= next then
      var v :| v in vols && v >= next;
      var n := Reconciled(v + 1, vols - {v});
      assert forall u | u in vols :: u == v || u in vols - {v};
      n
    else next
  }

  /** What the counter file may hold after reconciliation: its old value, or one that a write of the loop
      left, which need not be the last. */
  ghost predicate MayLeave(file: Option<int>, vols: set<int>, left: Option<int>) {
    || left == file
    || (left.Some? && NextOf(file) < left.value <= Reconciled(NextOf(file), vols) && left.value - 1 in vols)
  }

  /** Reading a device at startup may fail, and so may each write. Creating a device fails when its name
      exists. */
  ghost predicate Enabled(s: Sys, e: Event) {
    match e
    case Start(seen, left) => s.mgr.None? && seen <= s.dev.Keys && MayLeave(s.file, Seen(s.dev, seen).Values, left)
    case Reserve(call, sid, ok, did) => s.mgr.Some? && call !in s.ops && (ok ==> did)
    case Step(call, ok, did) =>
      s.mgr.Some? && call in s.ops && (ok ==> did) && (s.ops[call].at.Dev? && did ==> s.ops[call].sid !in s.dev)
    case Delete(call, sid) => s.mgr.Some? && call !in s.ops && sid in s.mgr.value.sessions
    case Crash => s.mgr.Some?
  }

  ghost function Apply(s: Sys, e: Event): Sys
    requires Enabled(s, e)
  {
    match e
    case Start(seen, left) =>
      var next := Reconciled(NextOf(s.file), Seen(s.dev, seen).Values);
      s.(mgr := Some(Manager(next, Seen(s.dev, seen))), file := left,
         lost := s.dev.Keys - seen, leaked := s.pool - {s.base} - Seen(s.dev, seen).Values)
    case Reserve(call, sid, ok, did) =>
      var m := s.mgr.value;
      var s1 := s.(file := if did then Some(m.next + 1) else s.file, born := s.born + {sid});
      if ok then
        s1.(mgr := Some(m.(next := m.next + 1)), ops := s.ops[call := Op(Snap, sid, m.next)],
            busy := s.busy[sid := call])
      else s1
    case Step(call, ok, did) => ApplyOp(s, call, s.ops[call], ok, did)
    case Delete(call, sid) =>
      s.(ops := s.ops[call := Op(RemoveDev, sid, s.mgr.value.sessions[sid])], busy := s.busy[sid := call])
    case Crash => s.(mgr := None, ops := map[], busy := map[])
  }

  function To(s: Sys, call: Call, op: Op, at: Phase): map<Call, Op> {
    s.ops[call := op.(at := at)]
  }

  /** The delete message for a call's volume. */
  function DropVolume(s: Sys, op: Op, did: bool): Sys {
    s.(pool := if did then s.pool - {op.vol} else s.pool,
       leaked := if did then s.leaked else s.leaked + {op.vol},
       hollow := if did && op.sid in s.dev then s.hollow + {op.sid} else s.hollow)
  }

  function ApplyOp(s: Sys, call: Call, op: Op, ok: bool, did: bool): Sys
    requires s.mgr.Some?
  {
    var m := s.mgr.value;
    match op.at
    case Snap =>
      s.(pool := if did then s.pool + {op.vol} else s.pool,
         ops := if ok then To(s, call, op, Size) else s.ops - {call}, busy := if ok then s.busy else s.busy - {op.sid},
         leaked := if did && !ok then s.leaked + {op.vol} else s.leaked)
    case Size => s.(ops := To(s, call, op, if ok then Stale else Undo))
    case Stale => s.(dev := if did then s.dev - {op.sid} else s.dev, ops := To(s, call, op, Dev))
    case Dev =>
      s.(dev := if did then s.dev[op.sid := op.vol] else s.dev, ops := To(s, call, op, if ok then Record else Undo),
         lost := if did && !ok then s.lost + {op.sid} else s.lost)
    case Record =>
      s.(mgr := Some(m.(sessions := m.sessions[op.sid := op.vol])), ops := s.ops - {call}, busy := s.busy - {op.sid})
    case Undo => DropVolume(s, op, did).(ops := s.ops - {call}, busy := s.busy - {op.sid})
    case RemoveDev =>
      s.(dev := if did then s.dev - {op.sid} else s.dev, ops := To(s, call, op, DeleteVol),
         lost := if did then s.lost else s.lost + {op.sid})
    case DeleteVol => DropVolume(s, op, did).(ops := To(s, call, op, Forget))
    case Forget =>
      s.(mgr := Some(m.(sessions := m.sessions - {op.sid})), ops := s.ops - {call}, busy := s.busy - {op.sid})
  }

  // ----- freshness -------------------------------------------------------------------------

  /** The counter file is above every volume, and so is a running manager's counter, also above the
      numbers it has reserved; reserved numbers are distinct and not yet in the pool. What the device table
      shows does not matter. The base is left to BaseBelow. */
  ghost predicate Below(s: Sys) {
    && (forall v | v in s.pool && v != s.base :: v < NextOf(s.file))
    && match s.mgr
       case None => s.ops == map[]
       case Some(m) =>
         && (forall v | v in s.pool && v != s.base :: v < m.next)
         && (forall c | c in s.ops && Creating(s.ops[c]) :: s.ops[c].vol < m.next && s.ops[c].vol < NextOf(s.file))
         && (forall c | c in s.ops && s.ops[c].at == Snap :: s.ops[c].vol in s.pool ==> s.ops[c].vol == s.base)
         && (forall a, b | a in s.ops && b in s.ops && a != b && s.ops[a].at == Snap && Creating(s.ops[b]) ::
              s.ops[a].vol != s.ops[b].vol)
         && NextOf(s.file) <= m.next + 1
  }

  ghost predicate BaseBelow(s: Sys) {
    && s.base < NextOf(s.file)
    && (s.mgr.Some? ==> s.base < s.mgr.value.next)
    && (forall c | c in s.ops && s.ops[c].at == Snap :: s.ops[c].vol != s.base)
  }

  lemma StartKeepsBelow(s: Sys, e: Event)
    requires Enabled(s, e) && e.Start?
    ensures Below(s) ==> Below(Apply(s, e))
    ensures BaseBelow(s) && s.ops == map[] ==> BaseBelow(Apply(s, e))
  {
  }

  lemma ReserveKeepsBelow(s: Sys, e: Event)
    requires Enabled(s, e) && e.Reserve?
    ensures Below(s) ==> Below(Apply(s, e))
    ensures BaseBelow(s) ==> BaseBelow(Apply(s, e))
  {
  }

  /** What any step of a call leaves alone: the counter, the file, the base and the other calls. */
  ghost predicate OpFrame(s: Sys, call: Call, op: Op, t: Sys) {
    && s.mgr.Some? && t.mgr.Some? && t.mgr.value.next == s.mgr.value.next
    && t.file == s.file && t.base == s.base && t.born == s.born
    && t.ops.Keys <= s.ops.Keys && s.ops.Keys - {call} <= t.ops.Keys
    && (forall c | c in t.ops && c != call :: t.ops[c] == s.ops[c])
    && (call in t.ops ==> t.ops[call].vol == op.vol && t.ops[call].sid == op.sid && t.ops[call].at != Snap
                          && Creating(t.ops[call]) == Creating(op))
    && t.pool <= (if op.at == Snap then s.pool + {op.vol} else s.pool)
  }

  lemma OpFrames(s: Sys, call: Call, ok: bool, did: bool)
    requires Enabled(s, Step(call, ok, did))
    ensures OpFrame(s, call, s.ops[call], ApplyOp(s, call, s.ops[call], ok, did))
  {
    match s.ops[call].at
    case Snap => case Size => case Stale => case Dev => case Record => case Undo =>
    case RemoveDev => case DeleteVol => case Forget =>
  }

  lemma FrameKeepsBelow(s: Sys, call: Call, t: Sys)
    requires call in s.ops && OpFrame(s, call, s.ops[call], t)
    ensures Below(s) ==> Below(t)
    ensures BaseBelow(s) ==> BaseBelow(t)
  {
  }

  /** Startup may read any part of the device table or none of it, and lose any of its writes. */
  lemma StepKeepsBelow(s: Sys, e: Event)
    requires Enabled(s, e) && (s.mgr.None? ==> s.ops == map[])
    ensures Below(s) ==> Below(Apply(s, e))
    ensures BaseBelow(s) ==> BaseBelow(Apply(s, e))
    ensures Apply(s, e).mgr.None? ==> Apply(s, e).ops == map[]
  {
    match e
    case Start(_, _) => StartKeepsBelow(s, e);
    case Reserve(_, _, _, _) => ReserveKeepsBelow(s, e);
    case Step(call, ok, did) =>
      OpFrames(s, call, ok, did);
      FrameKeepsBelow(s, call, ApplyOp(s, call, s.ops[call], ok, did));
    case Delete(_, _) =>
    case Crash =>
  }

  ghost predicate Runs(s: Sys, es: seq<Event>, t: Sys)
    decreases es
  {
    if es == [] then t == s else Enabled(s, es[0]) && Runs(Apply(s, es[0]), es[1..], t)
  }

  lemma {:induction false} RunKeepsBelow(s: Sys, es: seq<Event>, t: Sys)
    requires Runs(s, es, t) && (s.mgr.None? ==> s.ops == map[])
    ensures Below(s) ==> Below(t)
    ensures BaseBelow(s) ==> BaseBelow(t)
    decreases es
  {
    if es != [] {
      StepKeepsBelow(s, es[0]);
      RunKeepsBelow(Apply(s, es[0]), es[1..], t);
    }
  }

  /** Volume freshness: through any interleaving of creates and deletes with partial failures, crashes and
      restarts that read and write as much as they please, a create_snap about to be sent never names a
      volume in the pool, nor the base. */
  lemma VolumeFreshness(s: Sys, es: seq<Event>, t: Sys, call: Call)
    requires Below(s) && BaseBelow(s) && Runs(s, es, t) && call in t.ops && t.ops[call].at == Snap
    ensures t.ops[call].vol !in t.pool && t.ops[call].vol != t.base
  {
    RunKeepsBelow(s, es, t);
  }

  /** A pool as setup leaves it: base volume 0 or 1, and any session volumes below the counter. */
  lemma SetupIsBelow(s: Sys)
    requires s.mgr.None? && s.ops == map[] && s.base < 2
    requires forall v | v in s.pool && v != s.base :: v < NextOf(s.file)
    ensures Below(s) && BaseBelow(s)
  {
  }

  /** What the file holds after a start that reads these devices when its last write goes well. */
  ghost function Put(s: Sys, seen: set<Sid>): Option<int> {
    var next := Reconciled(NextOf(s.file), Seen(s.dev, seen).Values);
    if next == NextOf(s.file) then s.file else Some(next)
  }

  /** A counter file that fell behind: a start whose last write goes well puts it right exactly when each volume at
      or above the old counter has a volume as high on some device that is read. */
  lemma StartPutsRightExactly(s: Sys, seen: set<Sid>)
    requires s.mgr.None? && s.ops == map[] && seen <= s.dev.Keys
    ensures var e := Start(seen, Put(s, seen));
      && Enabled(s, e)
      && (Below(Apply(s, e)) <==>
           forall v | v in s.pool && v != s.base && v >= NextOf(s.file) ::
             exists u :: u in Seen(s.dev, seen).Values && u >= v)
  {
    var vols := Seen(s.dev, seen).Values;
    var e, next := Start(seen, Put(s, seen)), Reconciled(NextOf(s.file), vols);
    assert NextOf(e.left) == next;
    forall v | v in s.pool && v != s.base && v >= NextOf(s.file)
      ensures v < next <==> exists u :: u in vols && u >= v
    {
      if v < next {
        assert next - 1 in vols && next - 1 >= v;
      }
    }
    assert Below(Apply(s, e)) <==> forall v | v in s.pool && v != s.base :: v < next;
  }

  // ----- exactly when no volume is named twice -------------------------------------------------------

  ghost predicate NeverNames(s: Sys, v: int) {
    forall es, t, c | Runs(s, es, t) && c in t.ops && t.ops[c].at == Snap :: t.ops[c].vol != v
  }

  /** A counter at or below a volume walks up to it: creates that fail use up the numbers between. */
  lemma {:induction false} CounterReaches(s: Sys, call: Call, v: int) returns (es: seq<Event>, t: Sys)
    requires s.mgr.Some? && s.mgr.value.next <= v && call !in s.ops
    ensures Runs(s, es, t) && call in t.ops && t.ops[call] == Op(Snap, 0, v) && t.base == s.base && t.pool == s.pool
    decreases v - s.mgr.value.next
  {
    var e1 := Reserve(call, 0, true, true);
    var s1 := Apply(s, e1);
    if s.mgr.value.next == v {
      es, t := [e1], s1;
      assert Runs(s1, [], t);
    } else {
      var e2 := Step(call, false, false);
      var s2 := Apply(s1, e2);
      var rest;
      rest, t := CounterReaches(s2, call, v);
      es := [e1, e2] + rest;
      assert es[1..] == [e2] + rest && es[1..][1..] == rest;
      assert Runs(s1, es[1..], t);
    }
  }

  /** With the file at or below a volume, a start that reads no device leads to that volume. */
  lemma BlindStartReaches(s: Sys, v: int) returns (es: seq<Event>, t: Sys, call: Call)
    requires s.mgr.None? && s.ops == map[] && NextOf(s.file) <= v
    ensures Runs(s, es, t) && call in t.ops && t.ops[call] == Op(Snap, 0, v) && t.base == s.base && t.pool == s.pool
  {
    var e := Start({}, s.file);
    assert Seen(s.dev, {}) == map[];
    var s1 := Apply(s, e);
    call := 0;
    var rest;
    rest, t := CounterReaches(s1, call, v);
    es := [e] + rest;
    assert es[1..] == rest;
  }

  ghost predicate AlwaysFresh(s: Sys) {
    forall es, t, c | Runs(s, es, t) && c in t.ops && t.ops[c].at == Snap ::
      t.ops[c].vol !in t.pool && t.ops[c].vol != t.base
  }

  /** On a host with no manager up, no run whatever names a volume of its pool, or the base, in a create_snap
      if and only if the counter file is above all of them. */
  lemma FreshExactly(s: Sys)
    requires s.mgr.None? && s.ops == map[]
    ensures AlwaysFresh(s) <==> forall v | v in s.pool + {s.base} :: v < 2 || (s.file.Some? && v < s.file.value)
  {
    if s.base < NextOf(s.file) && forall v | v in s.pool :: v < NextOf(s.file) {
      forall es, t, c | Runs(s, es, t) && c in t.ops && t.ops[c].at == Snap
        ensures t.ops[c].vol !in t.pool && t.ops[c].vol != t.base
      {
        VolumeFreshness(s, es, t, c);
      }
    } else {
      var v := s.base;
      if s.base < NextOf(s.file) {
        v :| v in s.pool && v >= NextOf(s.file);
      }
      assert v in s.pool + {s.base};
      var es, t, c := BlindStartReaches(s, v);
    }
  }

  /** In a running manager no create_snap will ever name the base, across all runs, crashes and restarts,
      exactly when the base is below the counter and the file, and no such call is pending. */
  lemma BaseSafeExactly(s: Sys)
    requires s.mgr.Some?
    ensures BaseBelow(s) <==> NeverNames(s, s.base)
  {
    if BaseBelow(s) {
      forall es, t, c | Runs(s, es, t) && c in t.ops && t.ops[c].at == Snap ensures t.ops[c].vol != s.base {
        RunKeepsBelow(s, es, t);
        BaseStays(s, es, t);
      }
    } else if s.mgr.value.next <= s.base {
      var call := Unused(s.ops.Keys);
      var es, t := CounterReaches(s, call, s.base);
    } else if NextOf(s.file) <= s.base {
      var s1 := Apply(s, Crash);
      var es, t, c := BlindStartReaches(s1, s.base);
      assert ([Crash] + es)[1..] == es;
      assert Runs(s, [Crash] + es, t);
    } else {
      assert Runs(s, [], s);
    }
  }

  lemma {:induction false} BaseStays(s: Sys, es: seq<Event>, t: Sys)
    requires Runs(s, es, t)
    ensures t.base == s.base
    decreases es
  {
    if es != [] {
      BaseStays(Apply(s, es[0]), es[1..], t);
    }
  }

  // ----- bookkeeping --------------------------------------------------------------------------------

  /** Creates use new session IDs, and no two calls on one session overlap. */
  ghost predicate Orderly(s: Sys, e: Event) {
    && (e.Reserve? ==> e.sid !in s.born)
    && (e.Reserve? || e.Delete? ==> forall c | c in s.ops :: s.ops[c].sid != e.sid)
  }

  /** The call under way for session `sid`, if any. */
  function OpOf(s: Sys, sid: Sid): Option<Op> {
    if sid in s.busy && s.busy[sid] in s.ops then Some(s.ops[s.busy[sid]]) else None
  }

  /** Session `sid` is on volume `v`, by the map, by the device table or by its call under way. */
  predicate OnVolume(s: Sys, sid: Sid, v: int) {
    || (s.mgr.Some? && sid in s.mgr.value.sessions && s.mgr.value.sessions[sid] == v)
    || (sid in s.dev && s.dev[sid] == v)
    || (OpOf(s, sid).Some? && OpOf(s, sid).value.vol == v)
  }

  /** One session's books: its map entry shows in the device table until its own delete has got past
      the device, a create enters the map last, and a device belongs to a session, is about to be
      recorded, or is known to be lost. */
  predicate Booked(s: Sys, sid: Sid)
    requires s.mgr.Some?
  {
    var sessions, op := s.mgr.value.sessions, OpOf(s, sid);
    && (sid in sessions || sid in s.dev || sid in s.busy ==> sid in s.born)
    && (sid in s.busy ==> op.Some? && op.value.sid == sid)
    && (sid in sessions ==>
          || (sid in s.dev && s.dev[sid] == sessions[sid])
          || (op.Some? && op.value.at in {DeleteVol, Forget}))
    && (sid in s.dev ==> sid in sessions || sid in s.lost || (op.Some? && op.value.at == Record))
    && (op.Some? ==>
          if Creating(op.value) then
            && sid !in sessions
            && (op.value.at in {Snap, Size, Stale, Dev} ==> sid !in s.dev)
            && (sid in s.dev ==> s.dev[sid] == op.value.vol)
            && (op.value.at == Record ==> sid in s.dev)
          else
            && sid in sessions && sessions[sid] == op.value.vol
            && (op.value.at in {DeleteVol, Forget} && sid in s.dev ==> sid in s.lost))
  }

  ghost predicate Books(s: Sys) {
    && (s.mgr.Some? ==>
          && (forall sid :: Booked(s, sid))
          && (forall c | c in s.ops :: s.ops[c].sid in s.busy && s.busy[s.ops[c].sid] == c)
          && (forall sid, v | OnVolume(s, sid, v) :: v < s.mgr.value.next)
          && s.mgr.value.next <= NextOf(s.file) <= s.mgr.value.next + 1)
    && (forall sid, v | OnVolume(s, sid, v) :: v < NextOf(s.file))
    && (s.mgr.None? ==> s.ops == map[] && s.busy == map[] && s.dev.Keys <= s.born)
    && (forall a, b, v | OnVolume(s, a, v) && OnVolume(s, b, v) :: a == b)
  }

  /** `t` agrees with `s` on everything the books say about `sid`. */
  predicate SameAt(s: Sys, t: Sys, sid: Sid)
    requires s.mgr.Some? && t.mgr.Some?
  {
    && (sid in t.mgr.value.sessions <==> sid in s.mgr.value.sessions)
    && (sid in s.mgr.value.sessions ==> t.mgr.value.sessions[sid] == s.mgr.value.sessions[sid])
    && (sid in t.dev <==> sid in s.dev) && (sid in s.dev ==> t.dev[sid] == s.dev[sid])
    && (sid in t.busy <==> sid in s.busy) && OpOf(t, sid) == OpOf(s, sid)
    && (sid in s.lost ==> sid in t.lost) && (sid in s.born ==> sid in t.born)
  }

  /** A step that touches one session keeps the books if it keeps that session's, and uses no volume
      for it but its own or a new one. */
  lemma BooksFrame(s: Sys, t: Sys, sid: Sid)
    requires Books(s) && s.mgr.Some? && t.mgr.Some? && s.mgr.value.next <= t.mgr.value.next
    requires forall other | other != sid :: SameAt(s, t, other)
    requires Booked(t, sid)
    requires forall v | OnVolume(t, sid, v) :: OnVolume(s, sid, v) || (s.mgr.value.next <= v < t.mgr.value.next)
    requires t.mgr.value.next <= NextOf(t.file) <= t.mgr.value.next + 1
    requires forall c | c in t.ops :: t.ops[c].sid in t.busy && t.busy[t.ops[c].sid] == c
    ensures Books(t)
  {
    forall other | other != sid ensures Booked(t, other) {
      assert SameAt(s, t, other) && Booked(s, other);
    }
    forall other, v | OnVolume(t, other, v)
      ensures v < NextOf(t.file)
      ensures (OnVolume(s, other, v) && v < s.mgr.value.next)
              || (other == sid && s.mgr.value.next <= v < t.mgr.value.next)
    {
      if other != sid {
        assert SameAt(s, t, other) && OnVolume(s, other, v);
      } else {
        assert OnVolume(t, sid, v);
      }
    }
  }

  /** A step of a call touches the books of its own session only. */
  lemma OthersSame(s: Sys, call: Call, ok: bool, did: bool, other: Sid)
    requires Books(s) && Enabled(s, Step(call, ok, did)) && other != s.ops[call].sid
    ensures SameAt(s, ApplyOp(s, call, s.ops[call], ok, did), other)
  {
    assert Booked(s, other);
    match s.ops[call].at
    case Snap => case Size => case Stale => case Dev => case Record => case Undo =>
    case RemoveDev => case DeleteVol => case Forget =>
  }

  lemma OwnBooked(s: Sys, call: Call, ok: bool, did: bool)
    requires s.mgr.Some? && call in s.ops && s.ops[call].sid in s.busy && s.busy[s.ops[call].sid] == call
    requires Booked(s, s.ops[call].sid) && Enabled(s, Step(call, ok, did))
    ensures var op, t := s.ops[call], ApplyOp(s, call, s.ops[call], ok, did);
      && Booked(t, op.sid)
      && (forall v | OnVolume(t, op.sid, v) :: OnVolume(s, op.sid, v))
  {
    match s.ops[call].at
    case Snap => case Size => case Stale => case Dev => case Record => case Undo =>
    case RemoveDev => case DeleteVol => case Forget =>
  }

  lemma OpKeepsBooks(s: Sys, call: Call, ok: bool, did: bool)
    requires Books(s) && Enabled(s, Step(call, ok, did))
    ensures Books(ApplyOp(s, call, s.ops[call], ok, did))
  {
    var op, t := s.ops[call], ApplyOp(s, call, s.ops[call], ok, did);
    OwnBooked(s, call, ok, did);
    forall other | other != op.sid ensures SameAt(s, t, other) {
      OthersSame(s, call, ok, did, other);
    }
    CallersKept(s, call, ok, did);
    BooksFrame(s, t, op.sid);
  }

  lemma CallersKept(s: Sys, call: Call, ok: bool, did: bool)
    requires Books(s) && Enabled(s, Step(call, ok, did))
    ensures var t := ApplyOp(s, call, s.ops[call], ok, did);
      && t.mgr.Some? && t.mgr.value.next == s.mgr.value.next
      && forall c | c in t.ops :: t.ops[c].sid in t.busy && t.busy[t.ops[c].sid] == c
  {
    match s.ops[call].at
    case Snap => case Size => case Stale => case Dev => case Record => case Undo =>
    case RemoveDev => case DeleteVol => case Forget =>
  }

  lemma ReserveKeepsBooks(s: Sys, e: Event)
    requires Books(s) && Enabled(s, e) && Orderly(s, e) && e.Reserve?
    ensures Books(Apply(s, e))
  {
    var t := Apply(s, e);
    assert Booked(s, e.sid);
    forall other | other != e.sid ensures SameAt(s, t, other) {
      assert Booked(s, other);
    }
    BooksFrame(s, t, e.sid);
  }

  lemma DeleteKeepsBooks(s: Sys, e: Event)
    requires Books(s) && Enabled(s, e) && Orderly(s, e) && e.Delete?
    ensures Books(Apply(s, e))
  {
    var t := Apply(s, e);
    assert Booked(s, e.sid);
    forall other | other != e.sid ensures SameAt(s, t, other) {
      assert Booked(s, other);
    }
    BooksFrame(s, t, e.sid);
  }

  lemma StartKeepsBooks(s: Sys, e: Event)
    requires Books(s) && Enabled(s, e) && e.Start?
    ensures Books(Apply(s, e))
  {
    var t := Apply(s, e);
    forall v | v in Seen(s.dev, e.seen).Values ensures v < NextOf(s.file) {
      var sid :| sid in s.dev && s.dev[sid] == v;
      assert OnVolume(s, sid, v);
    }
    forall sid, v | OnVolume(t, sid, v) ensures OnVolume(s, sid, v) {}
  }

  lemma StepKeepsBooks(s: Sys, e: Event)
    requires Books(s) && Enabled(s, e) && Orderly(s, e)
    ensures Books(Apply(s, e))
  {
    match e
    case Start(_, _) => StartKeepsBooks(s, e);
    case Reserve(_, _, _, _) => ReserveKeepsBooks(s, e);
    case Step(call, ok, did) => OpKeepsBooks(s, call, ok, did);
    case Delete(_, _) => DeleteKeepsBooks(s, e);
    case Crash =>
      forall sid | sid in s.dev ensures sid in s.born { assert Booked(s, sid); }
      forall sid, v | OnVolume(Apply(s, e), sid, v) ensures OnVolume(s, sid, v) {}
  }

  ghost predicate OrderlyRun(s: Sys, es: seq<Event>, t: Sys)
    decreases es
  {
    if es == [] then t == s
    else Enabled(s, es[0]) && Orderly(s, es[0]) && OrderlyRun(Apply(s, es[0]), es[1..], t)
  }

  lemma {:induction false} RunKeepsBooks(s: Sys, es: seq<Event>, t: Sys)
    requires Books(s) && OrderlyRun(s, es, t)
    ensures Books(t)
    decreases es
  {
    if es != [] {
      StepKeepsBooks(s, es[0]);
      RunKeepsBooks(Apply(s, es[0]), es[1..], t);
    }
  }

  /** Snapshot bookkeeping: in every state of an orderly run with a manager up, no two sessions share a
      volume, every recorded volume is below the counter, and a session with no delete under way has
      exactly its recorded volume in the device table. */
  lemma SessionMapAgrees(s: Sys, es: seq<Event>, t: Sys, a: Sid)
    requires Books(s) && OrderlyRun(s, es, t) && t.mgr.Some? && a in t.mgr.value.sessions
    ensures var sessions := t.mgr.value.sessions;
      && sessions[a] < t.mgr.value.next
      && (forall b | b in sessions && b != a :: sessions[b] != sessions[a])
      && (a !in t.busy ==> a in t.dev && t.dev[a] == sessions[a])
  {
    RunKeepsBooks(s, es, t);
    assert Booked(t, a) && OnVolume(t, a, t.mgr.value.sessions[a]);
    forall b | b in t.mgr.value.sessions && b != a ensures t.mgr.value.sessions[b] != t.mgr.value.sessions[a] {
      assert OnVolume(t, b, t.mgr.value.sessions[b]);
    }
  }

  /** Rebuilding: with no call under way, a restart that reads every device rebuilds exactly the map it
      had if and only if no device lies outside that map, as none does unless one was lost. The counter starts
      at the file's value: where it was, or one further after a failed write that took effect. */
  lemma RestartRebuilds(s: Sys, es: seq<Event>, t: Sys)
    requires Books(s) && OrderlyRun(s, es, t) && t.mgr.Some? && t.ops == map[]
    ensures Seen(t.dev, t.dev.Keys) == t.mgr.value.sessions <==> t.dev.Keys <= t.mgr.value.sessions.Keys
    ensures t.lost == {} ==> Seen(t.dev, t.dev.Keys) == t.mgr.value.sessions
    ensures var next := Reconciled(NextOf(t.file), Seen(t.dev, t.dev.Keys).Values);
      next == NextOf(t.file) && t.mgr.value.next <= next <= t.mgr.value.next + 1
  {
    RunKeepsBooks(s, es, t);
    var sessions := t.mgr.value.sessions;
    forall sid ensures sid in sessions ==> sid in t.dev && t.dev[sid] == sessions[sid] {
      assert Booked(t, sid) && OpOf(t, sid) == None;
    }
    forall sid | sid in t.dev ensures sid in sessions || sid in t.lost {
      assert Booked(t, sid) && OpOf(t, sid) == None;
    }
    var seen := Seen(t.dev, t.dev.Keys);
    if t.dev.Keys <= sessions.Keys {
      assert seen == sessions;
    } else {
      var sid :| sid in t.dev && sid !in sessions;
      assert sid in seen;
    }
    forall v | v in Seen(t.dev, t.dev.Keys).Values ensures v < NextOf(t.file) {
      var sid :| sid in t.dev && t.dev[sid] == v;
      assert OnVolume(t, sid, v);
    }
  }

  /** A host on which no session has run yet starts with its books in order. */
  lemma SetupIsBooked(s: Sys)
    requires s.mgr.None? && s.ops == map[] && s.busy == map[] && s.dev == map[]
    ensures Books(s) && PoolBooked(s)
  {
  }

  // ----- calls from beginning to end -----------------------------------------------------------------

  lemma Last(s: Sys, e: Event, t: Sys)
    requires Enabled(s, e) && t == Apply(s, e)
    ensures Runs(s, [e], t)
  {
    assert Runs(t, [], t);
  }

  /** The system once a volume is reserved for the call. */
  function Reserved(s: Sys, call: Call, sid: Sid, at: Phase): Sys
    requires s.mgr.Some?
  {
    var v := s.mgr.value.next;
    s.(file := Some(v + 1), born := s.born + {sid}, mgr := Some(s.mgr.value.(next := v + 1)),
       ops := s.ops[call := Op(at, sid, v)], busy := s.busy[sid := call])
  }

  lemma {:induction false} RunsJoin(s: Sys, es: seq<Event>, m: Sys, fs: seq<Event>, t: Sys)
    requires Runs(s, es, m) && Runs(m, fs, t)
    ensures Runs(s, es + fs, t)
    decreases es
  {
    if es == [] {
      assert es + fs == fs;
    } else {
      RunsJoin(Apply(s, es[0]), es[1..], m, fs, t);
      assert es + fs == [es[0]] + (es[1..] + fs);
    }
  }

  /** The call once its create_snap went well. */
  function Snapped(s: Sys, call: Call, sid: Sid, at: Phase): Sys
    requires s.mgr.Some?
  {
    Reserved(s, call, sid, at).(pool := s.pool + {s.mgr.value.next})
  }

  lemma ReserveAndSnap(s: Sys, sid: Sid, call: Call) returns (es: seq<Event>)
    requires s.mgr.Some? && call !in s.ops
    ensures Runs(s, es, Snapped(s, call, sid, Size))
    ensures es == [Reserve(call, sid, true, true)] + [Step(call, true, true)]
  {
    var s1, s2 := Reserved(s, call, sid, Snap), Snapped(s, call, sid, Size);
    assert s.ops[call := Op(Snap, sid, s.mgr.value.next)][call := Op(Size, sid, s.mgr.value.next)] == s2.ops;
    Last(s1, Step(call, true, true), s2);
    es := [Reserve(call, sid, true, true)] + [Step(call, true, true)];
  }

  /** Without the device, if any, that had the session's name. */
  function Cleared(s: Sys, sid: Sid): Sys {
    s.(dev := s.dev - {sid})
  }

  lemma SizeAndStale(s: Sys, sid: Sid, call: Call) returns (es: seq<Event>)
    requires s.mgr.Some? && call !in s.ops
    ensures Runs(Snapped(s, call, sid, Size), es, Snapped(Cleared(s, sid), call, sid, Dev))
    ensures es == [Step(call, true, true)] + [Step(call, true, true)]
  {
    var go, v := Step(call, true, true), s.mgr.value.next;
    var s1, s2 := Snapped(s, call, sid, Size), Snapped(s, call, sid, Stale);
    var s3 := Snapped(Cleared(s, sid), call, sid, Dev);
    assert s1.ops[call := Op(Stale, sid, v)] == s2.ops && s2.ops[call := Op(Dev, sid, v)] == s3.ops;
    Last(s2, go, s3);
    es := [go] + [go];
  }

  /** A create whose commands all go well: the volume is in the pool, the device is on it, whatever had its name
      before, the session is recorded on it, and the counter and its file are one further. */
  lemma CreateSucceeds(s: Sys, sid: Sid, call: Call) returns (es: seq<Event>, t: Sys)
    requires s.mgr.Some? && call !in s.ops && sid !in s.busy
    ensures Runs(s, es, t)
    ensures var go := [Step(call, true, true)];
      es == [Reserve(call, sid, true, true)] + go + (go + go) + (go + go)
    ensures var v := s.mgr.value.next;
      t == s.(pool := s.pool + {v}, dev := s.dev[sid := v], file := Some(v + 1), born := s.born + {sid},
              mgr := Some(Manager(v + 1, s.mgr.value.sessions[sid := v])))
  {
    var es1 := ReserveAndSnap(s, sid, call);
    var es2 := SizeAndStale(s, sid, call);
    var es3, s2 := [], Cleared(s, sid);
    es3, t := DeviceAndRecord(s2, sid, call);
    assert s2.dev[sid := s.mgr.value.next] == s.dev[sid := s.mgr.value.next];
    RunsJoin(s, es1, Snapped(s, call, sid, Size), es2, Snapped(s2, call, sid, Dev));
    RunsJoin(s, es1 + es2, Snapped(s2, call, sid, Dev), es3, t);
    es := es1 + es2 + es3;
  }

  lemma DeviceAndRecord(s: Sys, sid: Sid, call: Call) returns (es: seq<Event>, t: Sys)
    requires s.mgr.Some? && call !in s.ops && sid !in s.dev && sid !in s.busy
    ensures Runs(Snapped(s, call, sid, Dev), es, t)
    ensures es == [Step(call, true, true)] + [Step(call, true, true)]
    ensures var v := s.mgr.value.next;
      t == s.(pool := s.pool + {v}, dev := s.dev[sid := v], file := Some(v + 1), born := s.born + {sid},
              mgr := Some(Manager(v + 1, s.mgr.value.sessions[sid := v])))
  {
    var go, v := Step(call, true, true), s.mgr.value.next;
    var s1, s2 := Snapped(s, call, sid, Dev), Snapped(s, call, sid, Record).(dev := s.dev[sid := v]);
    assert s1.ops[call := Op(Record, sid, v)] == s2.ops;
    assert s2.ops - {call} == s.ops && s2.busy - {sid} == s.busy;
    t := Apply(s2, go);
    Last(s2, go, t);
    es := [go] + [go];
  }

  /** A create whose size query or device creation fails takes its volume back: nothing is left but a used number, and
      a device that had the session's name is gone if it came to that. */
  lemma CreateIsUndone(s: Sys, sid: Sid, call: Call, atSize: bool) returns (es: seq<Event>, t: Sys)
    requires s.mgr.Some? && call !in s.ops && sid !in s.busy && s.mgr.value.next !in s.pool
    ensures Runs(s, es, t)
    ensures var go, no := [Step(call, true, true)], [Step(call, false, false)];
      es == [Reserve(call, sid, true, true)] + go + (if atSize then [] else go + go) + (no + go)
    ensures t == s.(file := Some(s.mgr.value.next + 1), born := s.born + {sid},
                    dev := if atSize then s.dev else s.dev - {sid},
                    hollow := if atSize && sid in s.dev then s.hollow + {sid} else s.hollow,
                    mgr := Some(s.mgr.value.(next := s.mgr.value.next + 1)))
  {
    var es1 := ReserveAndSnap(s, sid, call);
    var es3;
    if atSize {
      es3, t := FailAndUndo(s, sid, call, Size);
      RunsJoin(s, es1, Snapped(s, call, sid, Size), es3, t);
      es := es1 + es3;
      assert es1 + [] == es1;
    } else {
      var es2 := SizeAndStale(s, sid, call);
      var s2 := Cleared(s, sid);
      es3, t := FailAndUndo(s2, sid, call, Dev);
      RunsJoin(s, es1, Snapped(s, call, sid, Size), es2, Snapped(s2, call, sid, Dev));
      RunsJoin(s, es1 + es2, Snapped(s2, call, sid, Dev), es3, t);
      es := es1 + es2 + es3;
    }
  }

  lemma FailAndUndo(s: Sys, sid: Sid, call: Call, at: Phase) returns (es: seq<Event>, t: Sys)
    requires s.mgr.Some? && call !in s.ops && sid !in s.busy && s.mgr.value.next !in s.pool && (at == Size || at == Dev)
    ensures Runs(Snapped(s, call, sid, at), es, t)
    ensures es == [Step(call, false, false)] + [Step(call, true, true)]
    ensures t == s.(file := Some(s.mgr.value.next + 1), born := s.born + {sid},
                    hollow := if sid in s.dev then s.hollow + {sid} else s.hollow,
                    mgr := Some(s.mgr.value.(next := s.mgr.value.next + 1)))
  {
    var go, no, v := Step(call, true, true), Step(call, false, false), s.mgr.value.next;
    var s1, s2 := Snapped(s, call, sid, at), Snapped(s, call, sid, Undo);
    assert s1.ops[call := Op(Undo, sid, v)] == s2.ops;
    assert s2.ops - {call} == s.ops && s2.busy - {sid} == s.busy && s2.pool - {v} == s.pool;
    t := Apply(s2, go);
    Last(s2, go, t);
    es := [no] + [go];
  }

  /** A delete whose commands all go well: device, volume and entry are gone, and nothing else. */
  lemma DeleteSucceeds(s: Sys, sid: Sid, call: Call) returns (es: seq<Event>, t: Sys)
    requires s.mgr.Some? && call !in s.ops && sid in s.mgr.value.sessions && sid !in s.busy
    ensures Runs(s, es, t)
    ensures es ==
      [Delete(call, sid)] + ([Step(call, true, true)] + ([Step(call, true, true)] + [Step(call, true, true)]))
    ensures t == s.(pool := s.pool - {s.mgr.value.sessions[sid]}, dev := s.dev - {sid},
                    mgr := Some(s.mgr.value.(sessions := s.mgr.value.sessions - {sid})))
  {
    var go, v := Step(call, true, true), s.mgr.value.sessions[sid];
    var s0 := s.(busy := s.busy[sid := call]);
    var s1 := s0.(ops := s.ops[call := Op(RemoveDev, sid, v)]);
    var s2 := s0.(ops := s.ops[call := Op(DeleteVol, sid, v)], dev := s.dev - {sid});
    var s3 := s0.(ops := s.ops[call := Op(Forget, sid, v)], dev := s.dev - {sid}, pool := s.pool - {v});
    assert s1.ops[call := Op(DeleteVol, sid, v)] == s2.ops && s2.ops[call := Op(Forget, sid, v)] == s3.ops;
    assert s3.ops - {call} == s.ops && s0.busy - {sid} == s.busy;
    t := Apply(s3, go);
    Last(s3, go, t);
    es := [Delete(call, sid)] + ([go] + ([go] + [go]));
  }

  // ----- the pool ------------------------------------------------------------------------------------

  /** Volume v is known to be leaked or belongs to some session. */
  ghost predicate Accounted(s: Sys, v: int) {
    v in s.leaked || exists sid :: OnVolume(s, sid, v)
  }

  /** What a call relies on: past create_snap its volume is in the pool; a delete that got past its delete
      message has no volume there, unless it leaked. */
  predicate OpPooled(s: Sys, op: Op) {
    && (op.at in {Size, Stale, Dev, Record} ==> op.vol in s.pool)
    && (op.at == Forget && op.vol in s.pool ==> op.vol in s.leaked)
  }

  /** Every volume but the base is accounted for, and the volume of every device is in the pool unless it
      was deleted under the device. */
  ghost predicate PoolBooked(s: Sys) {
    && (s.mgr.Some? ==> forall v | v in s.pool && v != s.base :: Accounted(s, v))
    && (forall sid | sid in s.dev :: s.dev[sid] in s.pool || sid in s.hollow)
    && (forall c | c in s.ops :: OpPooled(s, s.ops[c]))
  }

  lemma SameOnVolume(s: Sys, t: Sys, sid: Sid, v: int)
    requires s.mgr.Some? && t.mgr.Some? && SameAt(s, t, sid)
    ensures OnVolume(s, sid, v) <==> OnVolume(t, sid, v)
  {
  }

  /** A step of a call accounts for its session's volumes: they are still its own, gone or leaked. */
  lemma OwnAccounted(s: Sys, call: Call, ok: bool, did: bool, v: int)
    requires s.mgr.Some? && call in s.ops && s.ops[call].sid in s.busy && s.busy[s.ops[call].sid] == call
    requires Booked(s, s.ops[call].sid) && OpPooled(s, s.ops[call]) && Enabled(s, Step(call, ok, did))
    requires s.ops[call].at == Snap && v == s.ops[call].vol ==> v !in s.pool
    ensures var op, t := s.ops[call], ApplyOp(s, call, s.ops[call], ok, did);
      v in t.pool && (OnVolume(s, op.sid, v) || v !in s.pool) ==> v in t.leaked || OnVolume(t, op.sid, v)
  {
    match s.ops[call].at
    case Snap => case Size => case Stale => case Dev => case Record => case Undo =>
    case RemoveDev => case DeleteVol => case Forget =>
  }

  lemma StepAccounts(s: Sys, call: Call, ok: bool, did: bool, v: int)
    requires Below(s) && Books(s) && PoolBooked(s) && Enabled(s, Step(call, ok, did))
    requires v in ApplyOp(s, call, s.ops[call], ok, did).pool && v != s.base
    ensures Accounted(ApplyOp(s, call, s.ops[call], ok, did), v)
  {
    var op, t := s.ops[call], ApplyOp(s, call, s.ops[call], ok, did);
    assert Booked(s, op.sid);
    OwnAccounted(s, call, ok, did, v);
    if v in s.pool && v !in s.leaked {
      var sid :| OnVolume(s, sid, v);
      if sid != op.sid {
        OthersSame(s, call, ok, did, sid);
        SameOnVolume(s, t, sid, v);
      }
    }
  }

  /** A deleted volume was no other session's. */
  lemma StepKeepsDevices(s: Sys, call: Call, ok: bool, did: bool, sid: Sid)
    requires Books(s) && PoolBooked(s) && Enabled(s, Step(call, ok, did))
    ensures var t := ApplyOp(s, call, s.ops[call], ok, did);
      sid in t.dev ==> t.dev[sid] in t.pool || sid in t.hollow
  {
    var op, t := s.ops[call], ApplyOp(s, call, s.ops[call], ok, did);
    assert Booked(s, op.sid) && OpPooled(s, op);
    assert OnVolume(s, op.sid, op.vol);
    if sid in s.dev && sid != op.sid {
      assert OnVolume(s, sid, s.dev[sid]);
    }
  }

  lemma StepKeepsCalls(s: Sys, call: Call, ok: bool, did: bool, c: Call)
    requires Books(s) && PoolBooked(s) && Enabled(s, Step(call, ok, did))
    ensures var t := ApplyOp(s, call, s.ops[call], ok, did);
      c in t.ops ==> OpPooled(t, t.ops[c])
  {
    var op, t := s.ops[call], ApplyOp(s, call, s.ops[call], ok, did);
    OpFrames(s, call, ok, did);
    assert OpPooled(s, op);
    assert OnVolume(s, op.sid, op.vol);
    if c in t.ops && c != call {
      assert OpPooled(s, s.ops[c]);
      assert OnVolume(s, s.ops[c].sid, s.ops[c].vol);
    }
  }

  lemma StartKeepsPool(s: Sys, e: Event)
    requires Books(s) && PoolBooked(s) && Enabled(s, e) && e.Start?
    ensures PoolBooked(Apply(s, e))
  {
    var t := Apply(s, e);
    forall v | v in t.pool && v != t.base ensures Accounted(t, v) {
      if v in Seen(s.dev, e.seen).Values {
        var sid :| sid in Seen(s.dev, e.seen) && Seen(s.dev, e.seen)[sid] == v;
        assert OnVolume(t, sid, v);
      }
    }
  }

  lemma BeginKeepsPool(s: Sys, e: Event)
    requires Books(s) && PoolBooked(s) && Enabled(s, e) && Orderly(s, e) && (e.Reserve? || e.Delete?)
    ensures PoolBooked(Apply(s, e))
  {
    var t := Apply(s, e);
    assert Booked(s, e.sid);
    forall v | v in t.pool && v != t.base ensures Accounted(t, v) {
      assert Accounted(s, v);
      if v !in s.leaked {
        var sid :| OnVolume(s, sid, v);
        assert Booked(s, sid);
        assert OnVolume(t, sid, v);
      }
    }
  }

  lemma StepKeepsPool(s: Sys, e: Event)
    requires Below(s) && Books(s) && PoolBooked(s) && Enabled(s, e) && Orderly(s, e)
    ensures PoolBooked(Apply(s, e))
  {
    match e
    case Start(_, _) => StartKeepsPool(s, e);
    case Reserve(_, _, _, _) => BeginKeepsPool(s, e);
    case Step(call, ok, did) =>
      var t := ApplyOp(s, call, s.ops[call], ok, did);
      OpFrames(s, call, ok, did);
      forall v | v in t.pool && v != t.base ensures Accounted(t, v) { StepAccounts(s, call, ok, did, v); }
      forall sid | sid in t.dev ensures t.dev[sid] in t.pool || sid in t.hollow {
        StepKeepsDevices(s, call, ok, did, sid);
      }
      forall c | c in t.ops ensures OpPooled(t, t.ops[c]) { StepKeepsCalls(s, call, ok, did, c); }
    case Delete(_, _) => BeginKeepsPool(s, e);
    case Crash =>
  }

  lemma {:induction false} RunKeepsPool(s: Sys, es: seq<Event>, t: Sys)
    requires Below(s) && Books(s) && PoolBooked(s) && OrderlyRun(s, es, t)
    ensures Below(t) && Books(t) && PoolBooked(t)
    decreases es
  {
    if es != [] {
      StepKeepsBelow(s, es[0]);
      StepKeepsBooks(s, es[0]);
      StepKeepsPool(s, es[0]);
      RunKeepsPool(Apply(s, es[0]), es[1..], t);
    }
  }

  /** Conservation: in every quiet state of an orderly run, each volume but the base is recorded for a
      session, on a lost device or leaked, and each recorded volume exists unless it was deleted under its
      device. So when no command failed half way, the pool holds the base and the recorded volumes and
      nothing else. */
  lemma PoolConservation(s: Sys, es: seq<Event>, t: Sys, v: int)
    requires Below(s) && Books(s) && PoolBooked(s) && OrderlyRun(s, es, t)
    requires t.mgr.Some? && t.ops == map[] && v != t.base
    ensures v in t.pool ==> v in t.leaked || v in t.mgr.value.sessions.Values || exists sid ::
        sid in t.lost && sid in t.dev && t.dev[sid] == v
    ensures v in t.mgr.value.sessions.Values ==>
        v in t.pool || exists sid :: sid in t.hollow && sid in t.dev && t.dev[sid] == v
    ensures t.leaked == {} && t.lost == {} && t.hollow == {} ==> (v in t.pool <==> v in t.mgr.value.sessions.Values)
  {
    RunKeepsPool(s, es, t);
    if v in t.pool && v !in t.leaked {
      assert Accounted(t, v);
      var sid :| OnVolume(t, sid, v);
      assert Booked(t, sid);
      if sid in t.mgr.value.sessions { assert t.mgr.value.sessions[sid] == v; }
    }
    if v in t.mgr.value.sessions.Values {
      var sid :| sid in t.mgr.value.sessions && t.mgr.value.sessions[sid] == v;
      assert Booked(t, sid);
    }
  }

  // ----- the manager's own code ----------------------------------------------------------------------

  /** What one line of the device listing yielded: a session device whose table could be read and
      parsed, or one that could not (it is skipped). */
  datatype Entry = Readable(sid: Sid, vol: int) | Unreadable(sid: Sid)

  function Rebuild(entries: seq<Entry>): map<Sid, int> {
    if entries == [] then map[]
    else
      var rest, last := Rebuild(entries[..|entries| - 1]), entries[|entries| - 1];
      if last.Readable? then rest[last.sid := last.vol] else rest
  }

  /** The n-th entry is the last readable one for the session. */
  predicate LastFor(entries: seq<Entry>, sid: Sid, n: nat) {
    && n < |entries| && entries[n].Readable? && entries[n].sid == sid
    && forall k | n < k < |entries| :: !(entries[k].Readable? && entries[k].sid == sid)
  }

  /** A session is rebuilt exactly when it has a readable entry, on the volume of the last one. */
  lemma {:induction false} RebuildExactly(entries: seq<Entry>, sid: Sid)
    ensures sid in Rebuild(entries) <==> exists n :: 0 <= n < |entries| && entries[n].Readable? && entries[n].sid == sid
    ensures forall n: nat | LastFor(entries, sid, n) ::
      sid in Rebuild(entries) && Rebuild(entries)[sid] == entries[n].vol
    decreases |entries|
  {
    if entries != [] {
      var m := |entries| - 1;
      RebuildExactly(entries[..m], sid);
      forall n: nat | LastFor(entries, sid, n) && n < m ensures LastFor(entries[..m], sid, n) {}
      if sid in Rebuild(entries[..m]) {
        var n :| 0 <= n < m && entries[..m][n].Readable? && entries[..m][n].sid == sid;
        assert entries[n].sid == sid;
      }
      if n :| 0 <= n < m && entries[n].Readable? && entries[n].sid == sid {
        assert entries[..m][n].sid == sid;
      }
    }
  }

  /** The listing shows each device of the table, readable exactly for those in `seen`. */
  ghost predicate Shows(entries: seq<Entry>, dev: map<Sid, int>, seen: set<Sid>) {
    && seen <= dev.Keys
    && (forall n | 0 <= n < |entries| :: entries[n].sid in dev)
    && (forall n | 0 <= n < |entries| && entries[n].Readable? ::
          entries[n].sid in seen && entries[n].vol == dev[entries[n].sid])
    && (forall sid | sid in seen :: exists n :: 0 <= n < |entries| && entries[n].Readable? && entries[n].sid == sid)
  }

  /** Without a listing nothing is seen. */
  ghost predicate ShownBy(listing: Option<seq<Entry>>, dev: map<Sid, int>, seen: set<Sid>) {
    if listing.Some? then Shows(listing.value, dev, seen) else seen == {}
  }

  lemma RebuildIsSeen(entries: seq<Entry>, dev: map<Sid, int>, seen: set<Sid>)
    requires Shows(entries, dev, seen)
    ensures Rebuild(entries) == Seen(dev, seen)
  {
    forall sid ensures sid in Rebuild(entries) <==> sid in seen {
      RebuildExactly(entries, sid);
    }
    forall sid | sid in seen ensures Rebuild(entries)[sid] == dev[sid] {
      RebuildExactly(entries, sid);
      var n := LastReadable(entries, sid);
    }
  }

  lemma {:induction false} LastReadable(entries: seq<Entry>, sid: Sid) returns (n: nat)
    requires exists k :: 0 <= k < |entries| && entries[k].Readable? && entries[k].sid == sid
    ensures LastFor(entries, sid, n)
    decreases |entries|
  {
    var m := |entries| - 1;
    if entries[m].Readable? && entries[m].sid == sid {
      n := m;
    } else {
      var k :| 0 <= k < |entries| && entries[k].Readable? && entries[k].sid == sid;
      assert entries[..m][k].sid == sid;
      n := LastReadable(entries[..m], sid);
    }
  }

  /** The manager that the code starts is the one the system starts with, for the devices it could read. */
  lemma StartIsTheEvent(s: Sys, seen: set<Sid>, listing: Option<seq<Entry>>, m: Manager, left: Option<int>)
    requires s.mgr.None? && ShownBy(listing, s.dev, seen)
    requires m.sessions == (if listing.Some? then Rebuild(listing.value) else map[])
    requires m.next == Reconciled(NextOf(s.file), m.sessions.Values) && MayLeave(s.file, m.sessions.Values, left)
    ensures Enabled(s, Start(seen, left)) && Apply(s, Start(seen, left)).mgr == Some(m)
    ensures Apply(s, Start(seen, left)).file == left
  {
    if listing.Some? {
      RebuildIsSeen(listing.value, s.dev, seen);
    } else {
      assert Seen(s.dev, seen) == map[];
    }
  }

  /** What the writes of the reconciliation loop may have left in the file: its old value, or one of the
      values the counter passed through whose write went well, and the last of them if that one did. */
  predicate WrittenBy(file: Option<int>, next0: int, vols: set<int>, canWrite: int -> bool, left: Option<int>,
      next: int) {
    && (left == file || (left.Some? && next0 < left.value <= next && left.value - 1 in vols && canWrite(left.value)))
    && (next != next0 && canWrite(next) ==> left == Some(next))
  }

  lemma WrittenOnce(file: Option<int>, next0: int, vols: set<int>, canWrite: int -> bool, left: Option<int>,
      next: int, v: int)
    requires WrittenBy(file, next0, vols, canWrite, left, next) && next0 <= next <= v && v in vols
    ensures WrittenBy(file, next0, vols, canWrite, if canWrite(v + 1) then Some(v + 1) else left, v + 1)
  {
  }

  class SnapshotManager {
    var baseVolumeID: int
    var nextVolumeID: int
    var sessions: map<Sid, int>
    var file: Option<int>

    constructor (file: Option<int>)
      ensures this.file == file && nextVolumeID == NextOf(file) && sessions == map[] && baseVolumeID == -1
    {
      this.file := file;
      nextVolumeID := if file.Some? && file.value >= 2 then file.value else 2;
      sessions, baseVolumeID := map[], -1;
    }

    /** newSnapshotManager: none without a pool device or a base; otherwise the manager the system starts
        with, its map rebuilt from the device listing and its counter reconciled. */
    static method Start(pool: bool, file: Option<int>, base: Option<int>, listing: Option<seq<Entry>>,
        canWrite: int -> bool)
      returns (m: SnapshotManager?)
      ensures m == null <==> !pool || base.None? || base.value < 0
      ensures m != null ==>
        && fresh(m) && m.baseVolumeID == base.value
        && m.sessions == (if listing.Some? then Rebuild(listing.value) else map[])
        && m.nextVolumeID == Reconciled(NextOf(file), m.sessions.Values)
        && m.nextVolumeID >= 2 && (file.Some? ==> m.nextVolumeID >= file.value)
        && MayLeave(file, m.sessions.Values, m.file)
      ensures m != null ==> forall s: Sys, seen: set<Sid> |
                              s.mgr.None? && s.file == file && ShownBy(listing, s.dev, seen) ::
        && Enabled(s, Event.Start(seen, m.file))
        && Apply(s, Event.Start(seen, m.file)).mgr == Some(Manager(m.nextVolumeID, m.sessions))
    {
      m := null;
      if !pool {
        return;
      }
      var sm := new SnapshotManager(file);
      var ok := sm.DiscoverState(base, listing, canWrite);
      if !ok || sm.baseVolumeID < 0 {
        return;
      }
      ReconciledIsUnique(NextOf(file), {}, NextOf(file));
      m := sm;
      forall s: Sys, seen: set<Sid> | s.mgr.None? && s.file == file && ShownBy(listing, s.dev, seen) {
        StartIsTheEvent(s, seen, listing, Manager(m.nextVolumeID, m.sessions), m.file);
      }
    }

    /** `base` is the volume read from the base device, None when that failed; `listing` is what the
        device listing showed, None when that failed. */
    method DiscoverState(base: Option<int>, listing: Option<seq<Entry>>, canWrite: int -> bool) returns (ok: bool)
      modifies this
      ensures ok == base.Some?
      ensures !ok ==> unchanged(this)
      ensures ok ==> baseVolumeID == base.value
      ensures ok && listing.None? ==>
          sessions == old(sessions) && nextVolumeID == old(nextVolumeID) && file == old(file)
      ensures ok && listing.Some? ==> sessions == old(sessions) + Rebuild(listing.value)
      ensures ok && listing.Some? ==> nextVolumeID == Reconciled(old(nextVolumeID), sessions.Values)
      ensures ok ==> WrittenBy(old(file), old(nextVolumeID), sessions.Values, canWrite, file, nextVolumeID)
    {
      if base.None? {
        return false;
      }
      ok := true;
      baseVolumeID := base.value;
      if listing.None? {
        return;
      }
      var entries := listing.value;
      var n := 0;
      while n < |entries|
        invariant 0 <= n <= |entries|
        invariant sessions == old(sessions) + Rebuild(entries[..n])
        invariant baseVolumeID == base.value && nextVolumeID == old(nextVolumeID) && file == old(file)
      {
        assert entries[..n + 1][..n] == entries[..n];
        if entries[n].Readable? {
          sessions := sessions[entries[n].sid := entries[n].vol];
        }
        n := n + 1;
      }
      assert entries[..n] == entries;
      Reconcile(canWrite);
    }

    /** The loop over the session map, in whatever order the map yields its entries: the counter does not
        depend on it. Each write has its own answer; a failed one leaves the file as it was. */
    method Reconcile(canWrite: int -> bool)
      modifies this`nextVolumeID, this`file
      ensures nextVolumeID == Reconciled(old(nextVolumeID), sessions.Values)
      ensures WrittenBy(old(file), old(nextVolumeID), sessions.Values, canWrite, file, nextVolumeID)
    {
      ghost var file0, next0, vols := file, nextVolumeID, sessions.Values;
      var todo := sessions.Keys;
      while todo != {}
        invariant todo <= sessions.Keys
        invariant nextVolumeID >= next0 && (nextVolumeID == next0 || nextVolumeID - 1 in vols)
        invariant forall sid | sid in sessions && sid !in todo :: sessions[sid] < nextVolumeID
        invariant WrittenBy(file0, next0, vols, canWrite, file, nextVolumeID)
        decreases |todo|
      {
        var sid :| sid in todo;
        var volID := sessions[sid];
        if volID >= nextVolumeID {
          WrittenOnce(file0, next0, vols, canWrite, file, nextVolumeID, volID);
          nextVolumeID := volID + 1;
          if canWrite(nextVolumeID) {
            file := Some(nextVolumeID);
          }
        }
        todo := todo - {sid};
      }
      ReconciledIsUnique(old(nextVolumeID), sessions.Values, nextVolumeID);
    }

    /** The locked block that opens CreateSnapshot: a failed write gives the number back. */
    method ReserveVolume(canWrite: bool) returns (volID: int, ok: bool)
      modifies this`nextVolumeID, this`file
      ensures ok == canWrite && volID == old(nextVolumeID)
      ensures nextVolumeID == old(nextVolumeID) + if ok then 1 else 0
      ensures file == if ok then Some(nextVolumeID) else old(file)
    {
      volID := nextVolumeID;
      nextVolumeID := nextVolumeID + 1;
      if !canWrite {
        nextVolumeID := nextVolumeID - 1;
        return volID, false;
      }
      file := Some(nextVolumeID);
      ok := true;
    }
  }

  lemma ReconciledIsUnique(next: int, vols: set<int>, n: int)
    requires n >= next && (forall v | v in vols :: v < n) && (n == next || n - 1 in vols)
    ensures n == Reconciled(next, vols)
  {
  }
}
