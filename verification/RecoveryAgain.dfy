/** A second recovery, after another restart: what it leaves as the first one left it. */
module RecoveryAgain {
  import opened Lifecycle
  import opened Recovery
  import opened RecoveryLaws

  // ----- any host, any answers -----------------------------------------------------------------------

  /** Another restart, with any host and any answers: a session comes out the same exactly when its row, if it
      still says Ready, is seen alive this time as it was the first. */
  lemma SessionRepeats(store: map<Id, Row>, h: Host, rows: seq<Row>, a: Answers, now: int, m: nat,
                       h2: Host, rows2: seq<Row>, a2: Answers, later: int, n: nat)
    requires Lists(rows, store) && m < |rows|
    requires var w := RecoverRows(Before(store, h), rows, a, now);
      Lists(rows2, w.store) && n < |rows2| && rows2[n].id == rows[m].id
    ensures var w, id := RecoverRows(Before(store, h), rows, a, now), rows[m].id;
      var w2 := RecoverRows(Before(w.store, h2), rows2, a2, later);
      && id in w.sessions && id in w2.sessions
      && (w2.sessions[id] == w.sessions[id] <==>
           (rows2[n].status == Ready ==> (Kept(h2, rows2, a2, n) <==> Kept(h, rows, a, m))))
  {
    RowAgrees(store, h, rows, a, now, m);
    RowAgrees(RecoverRows(Before(store, h), rows, a, now).store, h2, rows2, a2, later, n);
  }

  /** And its row stays the same exactly when it is settled, seen alive, or again cannot be written. */
  lemma RowRepeats(store: map<Id, Row>, h2: Host, rows2: seq<Row>, a2: Answers, later: int, n: nat)
    requires Lists(rows2, store) && n < |rows2|
    ensures var w2 := RecoverRows(Before(store, h2), rows2, a2, later);
      && rows2[n].id in w2.store
      && (w2.store[rows2[n].id] == store[rows2[n].id] <==> RowStays(h2, rows2, a2, n))
  {
    RowAgrees(store, h2, rows2, a2, later, n);
  }

  predicate RowStays(h: Host, rows: seq<Row>, a: Answers, n: nat)
    requires n < |rows|
  {
    Terminal(rows[n].status) || Kept(h, rows, a, n) || !a(n).saved
  }

  /** The store repeats exactly when every row does. */
  lemma StoreRepeats(store: map<Id, Row>, h2: Host, rows2: seq<Row>, a2: Answers, later: int)
    requires Lists(rows2, store)
    ensures RecoverRows(Before(store, h2), rows2, a2, later).store == store <==>
      forall n: nat | n < |rows2| :: RowStays(h2, rows2, a2, n)
  {
    var w2 := RecoverRows(Before(store, h2), rows2, a2, later);
    StoreKeys(store, h2, rows2, a2, later);
    forall n: nat | n < |rows2| ensures w2.store[rows2[n].id] == store[rows2[n].id] <==> RowStays(h2, rows2, a2, n) {
      RowRepeats(store, h2, rows2, a2, later, n);
    }
    if forall n: nat | n < |rows2| :: RowStays(h2, rows2, a2, n) {
      forall id | id in store ensures w2.store[id] == store[id] {
        var n: nat :| n < |rows2| && rows2[n].id == id;
        assert RowStays(h2, rows2, a2, n);
      }
      SameMap(w2.store, store);
    }
  }

  /** Each row of the store after the first recovery is what became of one before it. */
  lemma CameFrom(store: map<Id, Row>, h: Host, rows: seq<Row>, a: Answers, now: int, rows2: seq<Row>, n: nat)
      returns (m: nat)
    requires Lists(rows, store) && Lists(rows2, RecoverRows(Before(store, h), rows, a, now).store) && n < |rows2|
    ensures m < |rows| && rows[m].id == rows2[n].id
    ensures rows2[n] == RowAfter(rows[m], Kept(h, rows, a, m), a(m).saved, now)
  {
    StoreKeys(store, h, rows, a, now);
    assert rows2[n].id in Ids(rows);
    m :| m < |rows| && rows[m].id == rows2[n].id;
    RowAgrees(store, h, rows, a, now, m);
  }

  // ----- the host the first one left -----------------------------------------------------------------

  /** The n-th row of the second recovery, which was the m-th of the first and still says Ready, fares as before: a
      recovered one, when its lsof works and no in-flight row takes the slot in either recovery; one that was given
      up although it could not be rewritten, unless lsof failed then and works now on a slot that is still alive
      and not taken. */
  predicate FaresAlike(h: Host, rows: seq<Row>, a: Answers, mid: Host, rows2: seq<Row>, a2: Answers, m: nat, n: nat)
    requires m < |rows| && n < |rows2|
  {
    var k := rows[m].slot;
    if Kept(h, rows, a, m) then
      a2(n).looks && !Taken(h, rows, a, |rows|, k) && !Taken(mid, rows2, a2, n, k)
    else
      a2(n).looks && !a(m).looks && SeenAlive(mid, k, true) ==> Taken(mid, rows2, a2, n, k)
  }

  function Middle(h: Host, rows: seq<Row>, a: Answers, o: Luck, slots: seq<int>, live: set<int>): Host {
    Sweep(HostAfter(h, rows, a), live, o, slots)
  }

  /** What was read as dead by a working lsof stays dead. */
  lemma DeadStaysDead(h: Host, rows: seq<Row>, a: Answers, o: Luck, slots: seq<int>, live: set<int>, m: nat)
    requires m < |rows| && a(m).looks && !SeenAt(h, rows, a, m)
    ensures !SeenAlive(Middle(h, rows, a, o, slots, live), rows[m].slot, true)
  {
    var g, k := HostAfter(h, rows, a), rows[m].slot;
    assert rows[..|rows|] == rows;
    HostShrinks(h, rows, a, m, |rows|);
    SweepVms(g, live, o, slots);
    SweepSockets(g, live, o, slots);
  }

  lemma FaresAlikeExactly(h: Host, rows: seq<Row>, a: Answers, o: Luck, slots: seq<int>, rows2: seq<Row>, a2: Answers,
                          m: nat, n: nat, mid: Host)
    requires mid == Middle(h, rows, a, o, slots, KeptSlots(h, rows, a))
    requires m < |rows| && n < |rows2| && rows[m] == rows2[n] && rows[m].status == Ready
    ensures FaresAlike(h, rows, a, mid, rows2, a2, m, n) <==> (Kept(mid, rows2, a2, n) <==> Kept(h, rows, a, m))
  {
    KeptExactly(mid, rows2, a2, n);
    if Kept(h, rows, a, m) {
      RecoveredSurvive(h, rows, a, o, slots, m);
    } else if a(m).looks {
      DeadStaysDead(h, rows, a, o, slots, KeptSlots(h, rows, a), m);
    }
  }

  ghost predicate AllFareAlike(h: Host, rows: seq<Row>, a: Answers, mid: Host, rows2: seq<Row>, a2: Answers) {
    forall m: nat, n: nat | m < |rows| && n < |rows2| && rows2[n].id == rows[m].id && rows2[n].status == Ready ::
      FaresAlike(h, rows, a, mid, rows2, a2, m, n)
  }

  lemma OneRepeatsExactly(
      store: map<Id, Row>, h: Host, rows: seq<Row>, a: Answers, now: int, o: Luck, slots: seq<int>,
      rows2: seq<Row>, a2: Answers, later: int, mid: Host, m: nat, n: nat)
    requires Lists(rows, store) && Lists(rows2, RecoverRows(Before(store, h), rows, a, now).store)
    requires mid == Middle(h, rows, a, o, slots, KeptSlots(h, rows, a))
    requires m < |rows| && n < |rows2| && rows2[n].id == rows[m].id
    ensures var w, id := RecoverRows(Before(store, h), rows, a, now), rows[m].id;
      var w2 := RecoverRows(Before(w.store, mid), rows2, a2, later);
      && id in w.sessions && id in w2.sessions
      && (w2.sessions[id] == w.sessions[id] <==>
           (rows2[n].status == Ready ==> FaresAlike(h, rows, a, mid, rows2, a2, m, n)))
  {
    RowAgrees(store, h, rows, a, now, m);
    if rows2[n].status == Ready {
      FaresAlikeExactly(h, rows, a, o, slots, rows2, a2, m, n, mid);
    }
    SessionRepeats(store, h, rows, a, now, m, mid, rows2, a2, later, n);
  }

  /** Whatever sockets could not be removed, lsof calls failed, kills were withstood and writes were lost: a second
      recovery of the host the first one left changes no session exactly when every row that still says Ready fares
      as before. Then no used slot changes either, and the store only where a lost write is made up for. */
  lemma SecondRecoveryExactly(
      store: map<Id, Row>, h: Host, rows: seq<Row>, a: Answers, now: int, o: Luck, slots: seq<int>,
      rows2: seq<Row>, a2: Answers, later: int, w: World, w2: World, mid: Host)
    requires Lists(rows, store) && w == RecoverRows(Before(store, h), rows, a, now)
    requires mid == Sweep(w.host, w.live, o, slots)
    requires Lists(rows2, w.store) && w2 == RecoverRows(Before(w.store, mid), rows2, a2, later)
    ensures w2.sessions == w.sessions <==> AllFareAlike(h, rows, a, mid, rows2, a2)
    ensures w2.sessions == w.sessions ==> w2.used == w.used && w2.live == w.live
    ensures w2.store == w.store <==> forall n: nat | n < |rows2| :: RowStays(mid, rows2, a2, n)
  {
    UsedAreReady(store, h, rows, a, now);
    UsedAreReady(w.store, mid, rows2, a2, later);
    StoreRepeats(w.store, mid, rows2, a2, later);
    RowsRecover(store, h, rows, a, now);
    forall m: nat, n: nat | m < |rows| && n < |rows2| && rows2[n].id == rows[m].id
      ensures RepeatsIn(w, w2, rows[m].id, rows2[n].status == Ready ==> FaresAlike(h, rows, a, mid, rows2, a2, m, n))
    {
      OneRepeatsExactly(store, h, rows, a, now, o, slots, rows2, a2, later, mid, m, n);
    }
    RepeatedPositions(w, w2, h, rows, a, mid, rows2, a2);
  }

  predicate RepeatsIn(w: World, w2: World, id: Id, alike: bool) {
    id in w.sessions && id in w2.sessions && (w2.sessions[id] == w.sessions[id] <==> alike)
  }

  lemma RepeatedPositions(w: World, w2: World, h: Host, rows: seq<Row>, a: Answers, mid: Host,
                          rows2: seq<Row>, a2: Answers)
    requires w.sessions.Keys == w2.sessions.Keys == Ids(rows) == Ids(rows2)
    requires forall m: nat, n: nat | m < |rows| && n < |rows2| && rows2[n].id == rows[m].id ::
      RepeatsIn(w, w2, rows[m].id, rows2[n].status == Ready ==> FaresAlike(h, rows, a, mid, rows2, a2, m, n))
    ensures w2.sessions == w.sessions <==> AllFareAlike(h, rows, a, mid, rows2, a2)
  {
    if AllFareAlike(h, rows, a, mid, rows2, a2) {
      forall id | id in w.sessions ensures w2.sessions[id] == w.sessions[id] {
        var m: nat :| m < |rows| && rows[m].id == id;
        var n: nat :| n < |rows2| && rows2[n].id == id;
        assert RepeatsIn(w, w2, id, rows2[n].status == Ready ==> FaresAlike(h, rows, a, mid, rows2, a2, m, n));
      }
      SameMap(w2.sessions, w.sessions);
    } else {
      var m: nat, n: nat :| m < |rows| && n < |rows2| && rows2[n].id == rows[m].id && rows2[n].status == Ready
                            && !FaresAlike(h, rows, a, mid, rows2, a2, m, n);
      assert RepeatsIn(w, w2, rows[m].id, false);
    }
  }

  // ----- in terms of the answers alone ---------------------------------------------------------------

  /** lsof works again for every recovered row, and for no given-up one that it failed for the first time. */
  ghost predicate LooksAlike(h: Host, rows: seq<Row>, a: Answers, rows2: seq<Row>, a2: Answers) {
    forall m: nat, n: nat | m < |rows| && n < |rows2| && rows2[n].id == rows[m].id && rows2[n].status == Ready ::
      if Kept(h, rows, a, m) then a2(n).looks else a2(n).looks ==> a(m).looks
  }

  /** No in-flight row takes a recovered slot, in either recovery. */
  ghost predicate RecoveredUntaken(h: Host, rows: seq<Row>, a: Answers, rows2: seq<Row>, a2: Answers) {
    forall k | k in KeptSlots(h, rows, a) :: !Taken(h, rows, a, |rows|, k) && !Taken(h, rows2, a2, |rows2|, k)
  }

  /** Recovery settles: a second one that meets the same answers changes no session and no used slot. */
  lemma SecondRecoveryChangesNothing(
      store: map<Id, Row>, h: Host, rows: seq<Row>, a: Answers, now: int, o: Luck, slots: seq<int>,
      rows2: seq<Row>, a2: Answers, later: int, w: World, w2: World, mid: Host)
    requires Lists(rows, store) && w == RecoverRows(Before(store, h), rows, a, now)
    requires mid == Sweep(w.host, w.live, o, slots)
    requires Lists(rows2, w.store) && w2 == RecoverRows(Before(w.store, mid), rows2, a2, later)
    requires LooksAlike(h, rows, a, rows2, a2) && RecoveredUntaken(h, rows, a, rows2, a2)
    ensures w2.sessions == w.sessions && w2.used == w.used && w2.live == w.live
  {
    RowsRecover(store, h, rows, a, now);
    SecondRecoveryExactly(store, h, rows, a, now, o, slots, rows2, a2, later, w, w2, mid);
    forall m: nat, n: nat | m < |rows| && n < |rows2| && rows2[n].id == rows[m].id && rows2[n].status == Ready
      ensures FaresAlike(h, rows, a, mid, rows2, a2, m, n)
    {
      AnswersSuffice(h, rows, a, o, slots, rows2, a2, mid, m, n);
    }
  }

  lemma AnswersSuffice(h: Host, rows: seq<Row>, a: Answers, o: Luck, slots: seq<int>, rows2: seq<Row>, a2: Answers,
                       mid: Host, m: nat, n: nat)
    requires mid == Middle(h, rows, a, o, slots, KeptSlots(h, rows, a))
    requires m < |rows| && n < |rows2| && rows2[n].id == rows[m].id && rows2[n].status == Ready
    requires LooksAlike(h, rows, a, rows2, a2) && RecoveredUntaken(h, rows, a, rows2, a2)
    ensures FaresAlike(h, rows, a, mid, rows2, a2, m, n)
  {
    var k := rows[m].slot;
    if Kept(h, rows, a, m) {
      assert k in KeptSlots(h, rows, a);
      RecoveredSurvive(h, rows, a, o, slots, m);
      assert rows[..|rows|] == rows;
      UntakenStays(h, rows, a, |rows|, k);
      forall j: nat | j < n ensures !Taker(mid, rows2[j], a2(j), k) {
      }
    }
  }

  // ----- sockets -------------------------------------------------------------------------------------

  /** When the first recovery lost no write, the second stops no VM by its rows, and of the sockets it removes
      only those its sweep scans, with no recovered session on them, that the first could not remove or did not
      scan. */
  lemma SecondRecoverySockets(
      store: map<Id, Row>, h: Host, rows: seq<Row>, a: Answers, now: int, o: Luck, slots: seq<int>,
      rows2: seq<Row>, a2: Answers, o2: Luck, slots2: seq<int>, w: World, k: int)
    requires Lists(rows, store) && w == RecoverRows(Before(store, h), rows, a, now) && Lists(rows2, w.store)
    requires forall m: nat | m < |rows| && InFlight(rows[m].status) :: a(m).saved
    ensures var mid := Sweep(w.host, w.live, o, slots);
      var end := Sweep(HostAfter(mid, rows2, a2), w.used, o2, slots2);
      && HostAfter(mid, rows2, a2) == mid
      && (k in end.sockets <==> k in mid.sockets && (k in w.used || k !in slots2 || k in o2.stuck))
      && (k in mid.sockets && k !in w.used ==> k in o.stuck || k !in slots)
  {
    var mid := Sweep(w.host, w.live, o, slots);
    NothingInFlight(store, h, rows, a, now, rows2);
    NothingStopped(mid, rows2, a2);
    RowsRecover(store, h, rows, a, now);
    SweepSockets(w.host, w.live, o, slots);
    SweepSockets(mid, w.used, o2, slots2);
  }

  lemma NothingInFlight(store: map<Id, Row>, h: Host, rows: seq<Row>, a: Answers, now: int, rows2: seq<Row>)
    requires Lists(rows, store) && Lists(rows2, RecoverRows(Before(store, h), rows, a, now).store)
    requires forall m: nat | m < |rows| && InFlight(rows[m].status) :: a(m).saved
    ensures forall n: nat | n < |rows2| :: !InFlight(rows2[n].status)
  {
    forall n: nat | n < |rows2| ensures !InFlight(rows2[n].status) {
      var m := CameFrom(store, h, rows, a, now, rows2, n);
    }
  }

  lemma {:induction false} NothingStopped(h: Host, rows: seq<Row>, a: Answers)
    requires forall n: nat | n < |rows| :: !InFlight(rows[n].status)
    ensures HostAfter(h, rows, a) == h
    decreases rows
  {
    if rows != [] {
      NothingStopped(h, rows[..|rows| - 1], a);
    }
  }
}
