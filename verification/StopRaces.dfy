/** When an outside Stop is safe: exactly when it may be accepted without a second release of the slot, or
    two sessions on one slot, following from it. */
module StopRaces {
  import opened Sets
  import opened Lifecycle
  import opened Slots
  import opened SessionProtocol

  // ----- runs without an accepted Stop --------------------------------------------------

  ghost predicate QuietRun(s: Sys, es: seq<Event>, t: Sys)
    decreases es
  {
    if es == [] then t == s
    else Enabled(s, es[0]) && !es[0].StopAccept? && QuietRun(Apply(s, es[0]), es[1..], t)
  }

  lemma {:induction false} QuietIsDisciplined(s: Sys, es: seq<Event>, t: Sys)
    requires QuietRun(s, es, t)
    ensures Runs(s, es, t) && DisciplinedRun(s, es, t)
    decreases es
  {
    if es != [] {
      QuietIsDisciplined(Apply(s, es[0]), es[1..], t);
    }
  }

  lemma {:induction false} QuietJoin(s: Sys, es: seq<Event>, m: Sys, fs: seq<Event>, t: Sys)
    requires QuietRun(s, es, m) && QuietRun(m, fs, t)
    ensures QuietRun(s, es + fs, t)
    decreases es
  {
    if es == [] {
      assert es + fs == fs;
    } else {
      var all := es + fs;
      assert all[0] == es[0] && all[1..] == es[1..] + fs;
      QuietJoin(Apply(s, es[0]), es[1..], m, fs, t);
    }
  }

  // ----- no second release -----------------------------------------------------------------

  /** `p` reaches a slot release when run in state Stopping. */
  predicate WillRelease(p: Prog) {
    match p
    case ReleaseSlot(_) => true
    case StopVM(next) => WillRelease(next)
    case DeleteSnapshot(next) => WillRelease(next)
    case Move(to, _, err) => !Allowed(Stopping, to) && WillRelease(err)
    case RunClaude(_, _, success) => WillRelease(success)
    case _ => false
  }

  /** The event that advances one of the two goroutines of session `id`. */
  function Advance(id: Id, boot: bool): Event {
    if boot then BootStep(id, Succeeds) else CleanStep(id)
  }

  function Thread(x: Sess, boot: bool): Prog {
    if boot then x.boot else x.stopper
  }

  /** Runs one goroutine of a stopping session up to its release of the slot. */
  lemma {:induction false} DriveToRelease(s: Sys, id: Id, boot: bool) returns (es: seq<Event>, t: Sys)
    requires id in s.sess && s.sess[id].res.st == Stopping && WillRelease(Thread(s.sess[id], boot))
    ensures QuietRun(s, es, t) && id in t.sess
    ensures t == s.(used := s.used - {s.sess[id].slot}, sess := s.sess[id := t.sess[id]])
    ensures t.sess[id].slot == s.sess[id].slot && t.sess[id].res.st == Stopping
    ensures t.sess[id].res.frees == s.sess[id].res.frees + 1 && t.sess[id].res.allocs == s.sess[id].res.allocs
    ensures Thread(t.sess[id], !boot) == Thread(s.sess[id], !boot)
    decreases Thread(s.sess[id], boot)
  {
    var e := Advance(id, boot);
    t := Apply(s, e);
    var rest := [];
    if Thread(s.sess[id], boot).ReleaseSlot? {
      assert QuietRun(t, [], t);
    } else {
      rest, t := DriveToRelease(t, id, boot);
    }
    es := [e] + rest;
    assert es[1..] == rest;
  }

  lemma CleanupReleases()
    ensures WillRelease(CLEANUP) && WillRelease(TEARDOWN)
  {
    assert WillRelease(DeleteSnapshot(ReleaseSlot(Forget(Ret))));
    assert WillRelease(CLEANUP.next);
  }

  lemma UnsafeReadyReleases(x: Sess)
    requires Good(x) && x.res.st == Ready && !StopSafe(x)
    ensures x.res.frees == 1 || (x.res.frees == 0 && WillRelease(x.boot))
  {
    assert Guard(x.boot, x.res);
    CleanupReleases();
    assert WillRelease(SUCCESS_TAIL) && WillRelease(LIMIT_TAIL);
  }

  lemma UnsafeStopFreesTwice(s: Sys, id: Id) returns (es: seq<Event>, t: Sys)
    requires Enabled(s, StopAccept(id)) && Good(s.sess[id]) && !StopSafe(s.sess[id])
    ensures QuietRun(Apply(s, StopAccept(id)), es, t) && id in t.sess && t.sess[id].res.frees == 2
  {
    var s0 := Apply(s, StopAccept(id));
    CleanupReleases();
    UnsafeReadyReleases(s.sess[id]);
    es, t := DriveToRelease(s0, id, false);
    if s.sess[id].res.frees == 0 {
      var fs, u := DriveToRelease(t, id, true);
      QuietJoin(s0, es, t, fs, u);
      es, t := es + fs, u;
    }
  }

  lemma {:induction false} GoodOnceStopping(s: Sys, id: Id, es: seq<Event>, t: Sys)
    requires Runs(s, es, t) && id in s.sess && Good(s.sess[id]) && s.sess[id].res.st in {Stopping, Stopped}
    requires s.sess[id].boot in {Ret, ERROR_TAIL}
    ensures id in t.sess && Good(t.sess[id])
    decreases es
  {
    if es != [] {
      var s1 := Apply(s, es[0]);
      var x := s.sess[id];
      GoodOnceStopping(s1, id, es[1..], t);
    }
  }

  ghost predicate NeverFreesTwice(s: Sys, id: Id) {
    forall es, t | Runs(s, es, t) :: id in t.sess && t.sess[id].res.frees <= 1
  }

  /** An accepted Stop never leads to a second release of the slot, in any continuation, exactly when
      it finds the session with boot over and the slot still held. */
  lemma StopSafeExactly(s: Sys, id: Id)
    requires Inv(s) && Enabled(s, StopAccept(id))
    ensures StopSafe(s.sess[id]) <==> NeverFreesTwice(Apply(s, StopAccept(id)), id)
  {
    var s0 := Apply(s, StopAccept(id));
    if StopSafe(s.sess[id]) {
      StepKeepsInv(s, StopAccept(id));
      forall es, t | Runs(s0, es, t) ensures id in t.sess && t.sess[id].res.frees <= 1 {
        GoodOnceStopping(s0, id, es, t);
      }
    } else {
      var es, t := UnsafeStopFreesTwice(s, id);
      QuietIsDisciplined(s0, es, t);
    }
  }

  // ----- no two sessions on one slot -----------------------------------------------------------

  function FirstFree(s: Sys): int {
    var slot := Alloc(s.used, s.maxSlots);
    if slot.Some? then slot.value else 0
  }

  /** Below the limit a free slot can always be had. */
  lemma SomeSlot(s: Sys, k: int)
    requires WithinLimit(s) && k !in s.used && InRange(s.maxSlots, k)
    ensures Alloc(s.used, s.maxSlots).Some? && Alloc(s.used, s.maxSlots).value <= k
  {
    if s.maxSlots > 0 {
      RoomBelow(s.used, s.maxSlots, k);
    }
  }

  /** Creating sessions takes the free slots one by one, so any one of them comes to be owned. */
  lemma {:induction false} FillSlot(s: Sys, k: int) returns (es: seq<Event>, t: Sys, id: Id)
    requires WithinLimit(s) && k !in s.used && InRange(s.maxSlots, k)
    ensures QuietRun(s, es, t) && WithinLimit(t) && t.maxSlots == s.maxSlots
    ensures id !in s.sess && id in t.sess && t.sess[id] == Sess(k, NEW_SESSION, Boot(true, false), Ret)
    ensures forall x | x in s.sess :: x in t.sess && t.sess[x] == s.sess[x]
    decreases k - FirstFree(s)
  {
    SomeSlot(s, k);
    var free := Alloc(s.used, s.maxSlots).value;
    id := Unused(s.sess.Keys);
    var e := Create(id, true, false);
    t := Apply(s, e);
    var rest := [];
    if free == k {
      assert QuietRun(t, [], t);
    } else {
      SomeSlot(t, k);
      rest, t, id := FillSlot(t, k);
    }
    es := [e] + rest;
    assert es[1..] == rest;
  }

  /** The first of the two releases, unless it has been before the Stop. */
  lemma FirstRelease(s: Sys, id: Id) returns (es: seq<Event>, t: Sys)
    requires Inv(s) && WithinLimit(s) && Enabled(s, StopAccept(id)) && !StopSafe(s.sess[id])
    ensures QuietRun(Apply(s, StopAccept(id)), es, t) && WithinLimit(t) && id in t.sess
    ensures t.sess[id].slot == s.sess[id].slot && t.sess[id].res.st == Stopping && t.sess[id].stopper == CLEANUP
    ensures t.sess[id].slot in t.used ==> t.sess[id].slot in OwnedSlots(t.sess)
    ensures !Owns(t.sess[id])
  {
    var s0 := Apply(s, StopAccept(id));
    UnsafeReadyReleases(s.sess[id]);
    es, t := [], s0;
    if s.sess[id].res.frees == 0 {
      es, t := DriveToRelease(s0, id, true);
    } else if s.sess[id].slot in s.used {
      OtherOwner(s, id);
    }
  }

  lemma OtherOwner(s: Sys, id: Id)
    requires Inv(s) && Enabled(s, StopAccept(id)) && !Owns(s.sess[id]) && s.sess[id].slot in s.used
    ensures s.sess[id].slot in OwnedSlots(Apply(s, StopAccept(id)).sess)
  {
    var b :| b in s.sess && Owns(s.sess[b]) && s.sess[b].slot == s.sess[id].slot;
    assert Apply(s, StopAccept(id)).sess[b] == s.sess[b];
  }

  /** After an unsafe Stop two sessions come to own the same slot, with nothing but creations and the steps
      of the interrupted session's own goroutines. */
  lemma UnsafeStopSharesSlot(s: Sys, id: Id) returns (es: seq<Event>, t: Sys, b: Id, c: Id)
    requires Inv(s) && WithinLimit(s) && Enabled(s, StopAccept(id)) && !StopSafe(s.sess[id])
    ensures QuietRun(Apply(s, StopAccept(id)), es, t)
    ensures b != c && b in t.sess && c in t.sess && Owns(t.sess[b]) && Owns(t.sess[c])
    ensures t.sess[b].slot == t.sess[c].slot
  {
    var es1, s1 := FirstRelease(s, id);
    var fs;
    fs, t, b, c := SecondRelease(s1, id);
    QuietJoin(Apply(s, StopAccept(id)), es1, s1, fs, t);
    es := es1 + fs;
  }

  /** The second takes the slot from whoever owns it by then. */
  lemma SecondRelease(s: Sys, id: Id) returns (es: seq<Event>, t: Sys, b: Id, c: Id)
    requires WithinLimit(s) && id in s.sess && s.sess[id].res.st == Stopping && s.sess[id].stopper == CLEANUP
    requires s.sess[id].slot in s.used ==> s.sess[id].slot in OwnedSlots(s.sess)
    requires !Owns(s.sess[id])
    ensures QuietRun(s, es, t)
    ensures b != c && b in t.sess && c in t.sess && Owns(t.sess[b]) && Owns(t.sess[c])
    ensures t.sess[b].slot == t.sess[c].slot
  {
    var k := s.sess[id].slot;
    CleanupReleases();
    var es1, s1, owner := OwnSlot(s, k);
    assert owner != id;
    var es2, s2 := DriveToRelease(s1, id, false);
    QuietJoin(s, es1, s1, es2, s2);
    var es3, s3, next := FillSlot(s2, k);
    QuietJoin(s, es1 + es2, s2, es3, s3);
    es, t, b, c := es1 + es2 + es3, s3, owner, next;
  }

  /** A slot that is owned, or free, is owned by some session at once, or soon. */
  lemma OwnSlot(s: Sys, k: int) returns (es: seq<Event>, t: Sys, b: Id)
    requires WithinLimit(s) && InRange(s.maxSlots, k) && (k in s.used ==> k in OwnedSlots(s.sess))
    ensures QuietRun(s, es, t) && WithinLimit(t) && t.maxSlots == s.maxSlots
    ensures b in t.sess && Owns(t.sess[b]) && t.sess[b].slot == k
    ensures forall x | x in s.sess :: x in t.sess && t.sess[x] == s.sess[x]
  {
    if k in s.used {
      b :| b in s.sess && Owns(s.sess[b]) && s.sess[b].slot == k;
      es, t := [], s;
    } else {
      es, t, b := FillSlot(s, k);
    }
  }

  ghost predicate NeverShares(s: Sys) {
    forall es, t | DisciplinedRun(s, es, t) :: OwnersDistinct(t)
  }

  /** An accepted Stop is never followed by two sessions on one slot, in any continuation whose own Stops
      are safe, exactly when it finds the session with boot over and the slot still held. */
  lemma NoSharingExactly(s: Sys, id: Id)
    requires Inv(s) && WithinLimit(s) && Enabled(s, StopAccept(id))
    ensures StopSafe(s.sess[id]) <==> NeverShares(Apply(s, StopAccept(id)))
  {
    var s0 := Apply(s, StopAccept(id));
    if StopSafe(s.sess[id]) {
      StepKeepsInv(s, StopAccept(id));
      forall es, t | DisciplinedRun(s0, es, t) ensures OwnersDistinct(t) {
        RunKeepsInv(s0, es, t);
      }
    } else {
      var es, t, b, c := UnsafeStopSharesSlot(s, id);
      QuietIsDisciplined(s0, es, t);
      assert !OwnersDistinct(t);
    }
  }
}
