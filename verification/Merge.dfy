/** Merging the implement branches into the base branch of a git remote (internal/gitutil/merge.go).

    The remote is a map from branch names to commits. Other people may push to it between any two git
    commands, as long as they only create branches or fast-forward them. Every git command may fail, and
    one that writes may take effect although it reports a failure. */
module Merge {
  import opened Options

  // ----- commits and branches ------------------------------------------------------------------------

  /** A commit stands for its whole history, as git's hashes do. */
  datatype Commit = Commit(id: nat, parents: seq<Commit>)

  type Refs = map<string, Commit>

  predicate Reaches(c: Commit, d: Commit)
    decreases c
  {
    c == d || exists i | 0 <= i < |c.parents| :: Reaches(c.parents[i], d)
  }

  lemma {:induction false} ReachesTrans(a: Commit, b: Commit, c: Commit)
    requires Reaches(a, b) && Reaches(b, c)
    ensures Reaches(a, c)
    decreases a
  {
    if a != b {
      var i :| 0 <= i < |a.parents| && Reaches(a.parents[i], b);
      ReachesTrans(a.parents[i], b, c);
    }
  }

  /** Some branch reaches the commit: git will not collect it. */
  ghost predicate Kept(refs: Refs, c: Commit) {
    exists b | b in refs :: Reaches(refs[b], c)
  }

  ghost predicate NothingLost(before: Refs, after: Refs) {
    forall c :: Kept(before, c) ==> Kept(after, c)
  }

  /** It is enough that the old tips are kept. */
  lemma NothingLostByTips(before: Refs, after: Refs)
    requires forall b | b in before :: Kept(after, before[b])
    ensures NothingLost(before, after)
  {
    forall c | Kept(before, c) ensures Kept(after, c) {
      var b :| b in before && Reaches(before[b], c);
      var x :| x in after && Reaches(after[x], before[b]);
      ReachesTrans(after[x], before[b], c);
    }
  }

  /** Every old branch is still there, where it was or further on. */
  predicate Grew(before: Refs, after: Refs) {
    forall b | b in before :: b in after && Reaches(after[b], before[b])
  }

  lemma GrewTrans(a: Refs, b: Refs, c: Refs)
    requires Grew(a, b) && Grew(b, c)
    ensures Grew(a, c)
  {
    forall x | x in a ensures x in c && Reaches(c[x], a[x]) {
      ReachesTrans(c[x], b[x], a[x]);
    }
  }

  // ----- the world around the call -------------------------------------------------------------------

  /** Someone else's push. */
  datatype Move = Move(branch: string, tip: Commit)

  /** What the k-th command meets: whether it goes well, whether it takes effect although it fails, what
      others pushed just before it, and the ID git gives to a commit it makes. */
  datatype Env = Env(ok: nat -> bool, effect: nat -> bool, moves: nat -> seq<Move>, id: nat -> nat,
      cancelAt: Option<nat>) {
    predicate Cancelled(k: nat) { cancelAt.Some? && cancelAt.value <= k }

    predicate Goes(k: nat) { !Cancelled(k) && ok(k) }

    /** Takes effect, whatever it reports. */
    predicate Writes(k: nat) { !Cancelled(k) && (ok(k) || effect(k)) }
  }

  /** Nothing goes wrong, nothing conflicts and nobody else pushes. */
  ghost predicate Calm(env: Env) {
    forall k: nat :: CalmAt(env, k)
  }

  predicate CalmAt(env: Env, k: nat) {
    env.Goes(k) && env.moves(k) == []
  }

  /** Nothing has gone wrong yet when command n is due. */
  predicate CalmUntil(env: Env, n: nat) {
    forall k: nat | k < n :: CalmAt(env, k)
  }

  /** The call's own commands all go well, whatever the others push. */
  ghost predicate AllGo(env: Env) {
    forall k: nat :: env.Goes(k)
  }

  /** The commit may be one that the call made. */
  ghost predicate Made(env: Env, c: Commit) {
    |c.parents| == 2 && exists k: nat :: c.id == env.id(k)
  }

  /** The head has only commits that the remote has, and merge commits that the call made. */
  ghost predicate From(head: Commit, refs: Refs, env: Env) {
    forall c :: Reaches(head, c) ==> Kept(refs, c) || Made(env, c)
  }

  /** A push by someone else goes through when it is a new branch or a fast-forward. */
  function Advance(refs: Refs, m: Move): Refs {
    if m.branch !in refs || Reaches(m.tip, refs[m.branch]) then refs[m.branch := m.tip] else refs
  }

  function AdvanceAll(refs: Refs, ms: seq<Move>): Refs
    decreases |ms|
  {
    if ms == [] then refs else AdvanceAll(Advance(refs, ms[0]), ms[1..])
  }

  lemma {:induction false} AdvanceAllGrows(refs: Refs, ms: seq<Move>)
    ensures Grew(refs, AdvanceAll(refs, ms))
    decreases |ms|
  {
    if ms != [] {
      var mid := Advance(refs, ms[0]);
      assert Grew(refs, mid);
      AdvanceAllGrows(mid, ms[1..]);
      GrewTrans(refs, mid, AdvanceAll(mid, ms[1..]));
    }
  }

  /** The remote when only the others wrote before commands k0, ..., k1 - 1. */
  function OthersOnly(refs: Refs, env: Env, k0: nat, k1: nat): Refs
    requires k0 <= k1
    decreases k1
  {
    if k0 == k1 then refs else AdvanceAll(OthersOnly(refs, env, k0, k1 - 1), env.moves(k1 - 1))
  }

  lemma {:induction false} OthersOnlyJoin(refs: Refs, env: Env, a: nat, b: nat, c: nat)
    requires a <= b <= c
    ensures OthersOnly(OthersOnly(refs, env, a, b), env, b, c) == OthersOnly(refs, env, a, c)
    decreases c
  {
    if b < c {
      OthersOnlyJoin(refs, env, a, b, c - 1);
    }
  }

  lemma {:induction false} OthersOnlyGrows(refs: Refs, env: Env, a: nat, b: nat)
    requires a <= b
    ensures Grew(refs, OthersOnly(refs, env, a, b))
    ensures Calm(env) || CalmUntil(env, b) ==> OthersOnly(refs, env, a, b) == refs
    decreases b
  {
    if a < b {
      OthersOnlyGrows(refs, env, a, b - 1);
      assert Calm(env) || CalmUntil(env, b) ==> CalmAt(env, b - 1);
      var mid := OthersOnly(refs, env, a, b - 1);
      AdvanceAllGrows(mid, env.moves(b - 1));
      GrewTrans(refs, mid, OthersOnly(refs, env, a, b));
    }
  }

  lemma OthersOnlyTwo(refs: Refs, env: Env, k: nat)
    ensures OthersOnly(refs, env, k, k + 1) == AdvanceAll(refs, env.moves(k))
    ensures OthersOnly(refs, env, k, k + 2) == AdvanceAll(AdvanceAll(refs, env.moves(k)), env.moves(k + 1))
  {
    assert OthersOnly(refs, env, k, k + 2) == AdvanceAll(OthersOnly(refs, env, k, k + 1), env.moves(k + 1));
  }

  // ----- splitting the branches ----------------------------------------------------------------------

  /** The branches whose verdict is `want`, in order. */
  function Pick(branches: seq<string>, verdicts: seq<bool>, want: bool): seq<string>
    requires |verdicts| <= |branches|
    decreases |verdicts|
  {
    if verdicts == [] then [] else
    var n := |verdicts| - 1;
    Pick(branches, verdicts[..n], want) + if verdicts[n] == want then [branches[n]] else []
  }

  lemma PickOneMore(branches: seq<string>, verdicts: seq<bool>, v: bool)
    requires |verdicts| < |branches|
    ensures var b := branches[|verdicts|];
      && Pick(branches, verdicts + [v], v) == Pick(branches, verdicts, v) + [b]
      && Pick(branches, verdicts + [v], !v) == Pick(branches, verdicts, !v)
  {
    assert (verdicts + [v])[..|verdicts|] == verdicts;
  }

  /** Nothing of the tried prefix is dropped and nothing is in both lists. */
  lemma {:induction false} PickConserves(branches: seq<string>, verdicts: seq<bool>)
    requires |verdicts| <= |branches|
    ensures multiset(Pick(branches, verdicts, true)) + multiset(Pick(branches, verdicts, false)) ==
        multiset(branches[..|verdicts|])
    decreases |verdicts|
  {
    if verdicts != [] {
      var n := |verdicts| - 1;
      PickConserves(branches, verdicts[..n]);
      assert branches[..n + 1] == branches[..n] + [branches[n]];
    }
  }

  /** Everything listed was picked exactly when nothing was turned down and nothing was left untried. */
  lemma {:induction false} AllPicked(branches: seq<string>, verdicts: seq<bool>)
    requires |verdicts| <= |branches|
    ensures |Pick(branches, verdicts, true)| + |Pick(branches, verdicts, false)| == |verdicts|
    ensures Pick(branches, verdicts, true) == branches <==>
        Pick(branches, verdicts, false) == [] && |verdicts| == |branches|
    decreases |verdicts|
  {
    PickLength(branches, verdicts);
    if Pick(branches, verdicts, false) == [] {
      PickNone(branches, verdicts);
      assert branches[..|branches|] == branches;
    }
  }

  lemma {:induction false} PickLength(branches: seq<string>, verdicts: seq<bool>)
    requires |verdicts| <= |branches|
    ensures |Pick(branches, verdicts, true)| + |Pick(branches, verdicts, false)| == |verdicts|
    decreases |verdicts|
  {
    if verdicts != [] {
      PickLength(branches, verdicts[..|verdicts| - 1]);
    }
  }

  lemma {:induction false} PickNone(branches: seq<string>, verdicts: seq<bool>)
    requires |verdicts| <= |branches| && Pick(branches, verdicts, false) == []
    ensures Pick(branches, verdicts, true) == branches[..|verdicts|]
    decreases |verdicts|
  {
    if verdicts != [] {
      var n := |verdicts| - 1;
      PickNone(branches, verdicts[..n]);
      assert branches[..n + 1] == branches[..n] + [branches[n]];
    }
  }

  // ----- the call ------------------------------------------------------------------------------------

  /** The merge commit `git merge --no-ff` makes; none is made when the tip is merged already. */
  function MergeCommit(head: Commit, tip: Commit, id: nat): (c: Commit)
    ensures Reaches(c, head) && Reaches(c, tip)
    ensures c == head <==> Reaches(head, tip)
    ensures c != head ==> c.id == id && |c.parents| == 2 && c.parents[0] == head && c.parents[1] == tip
  {
    if Reaches(head, tip) then head else
    var c := Commit(id, [head, tip]);
    assert Reaches(c.parents[0], head) && Reaches(c.parents[1], tip);
    c
  }

  /** Whether the merge loop will accept the branch on a calm day: a branch of the remote other than the
      base, which git refuses to fetch into while it is checked out. */
  predicate Mergeable(refs: Refs, base: string, b: string) {
    b in refs && b != base
  }

  lemma KeptGrows(before: Refs, after: Refs, c: Commit)
    requires Grew(before, after) && Kept(before, c)
    ensures Kept(after, c)
  {
    var b :| b in before && Reaches(before[b], c);
    ReachesTrans(after[b], before[b], c);
    assert b in after;
  }

  lemma FromGrows(head: Commit, before: Refs, after: Refs, env: Env)
    requires Grew(before, after) && From(head, before, env)
    ensures From(head, after, env)
  {
    forall c | Reaches(head, c) && !Made(env, c) ensures Kept(after, c) {
      KeptGrows(before, after, c);
    }
  }

  /** A branch of the remote has only what the remote has. */
  lemma FromBranch(refs: Refs, b: string, head: Commit, env: Env)
    requires b in refs && Reaches(refs[b], head)
    ensures From(head, refs, env)
  {
    forall c | Reaches(head, c) ensures Kept(refs, c) {
      ReachesTrans(refs[b], head, c);
    }
  }

  lemma FromMerge(head: Commit, tip: Commit, refs: Refs, env: Env, k: nat)
    requires From(head, refs, env) && From(tip, refs, env)
    ensures From(MergeCommit(head, tip, env.id(k)), refs, env)
  {
    var merge := MergeCommit(head, tip, env.id(k));
    forall c | Reaches(merge, c) ensures Kept(refs, c) || Made(env, c) {
      if merge != head && c != merge {
        var i :| 0 <= i < 2 && Reaches(merge.parents[i], c);
      }
    }
  }

  predicate RightVerdicts(refs: Refs, base: string, branches: seq<string>, verdicts: seq<bool>) {
    && |verdicts| <= |branches|
    && (forall i | 0 <= i < |verdicts| :: verdicts[i] <==> Mergeable(refs, base, branches[i]))
  }

  function Without(refs: Refs, b: string): Refs {
    map x | x in refs && x != b :: refs[x]
  }

  /** The remote after the deletions that begin with command k, each preceded by what others push. */
  function Deleted(refs: Refs, env: Env, bs: seq<string>, k: nat): Refs
    decreases |bs|
  {
    if bs == [] then refs else
    var r := AdvanceAll(refs, env.moves(k));
    Deleted(if env.Writes(k) then Without(r, bs[0]) else r, env, bs[1..], k + 1)
  }

  /** The server takes the push at command k. */
  predicate Accepts(refs: Refs, env: Env, base: string, head: Commit, k: nat) {
    var r := AdvanceAll(refs, env.moves(k));
    base in r && Reaches(head, r[base])
  }

  /** The remote after the push at command k and what follows it. */
  function Published(refs: Refs, env: Env, base: string, head: Commit, merged: seq<string>, k: nat): Refs {
    var r := AdvanceAll(refs, env.moves(k));
    if !Accepts(refs, env, base, head, k) || !env.Writes(k) then r
    else if env.Goes(k) then Deleted(r[base := head], env, merged, k + 1)
    else r[base := head]
  }

  /** When all of the call's commands go well, each turn takes one command, or two when it merges, and every branch
      that was on the remote from the start is merged. */
  predicate Straight(before: Refs, base: string, branches: seq<string>, verdicts: seq<bool>, merged: seq<string>,
                     k0: nat, k: nat) {
    && |verdicts| <= |branches| && k == k0 + |verdicts| + |merged|
    && (forall i | 0 <= i < |verdicts| && Mergeable(before, base, branches[i]) :: verdicts[i])
  }

  lemma CalmGoes(env: Env)
    requires Calm(env)
    ensures AllGo(env) && SilentFrom(env, 0)
  {
    forall k: nat ensures env.Goes(k) && env.moves(k) == [] {
      assert CalmAt(env, k);
    }
  }

  /** Each list is in the order of the branches: before a branch come those with its verdict before it. */
  lemma {:induction false} PickAt(branches: seq<string>, verdicts: seq<bool>, i: nat)
    requires i < |verdicts| <= |branches|
    ensures var picked, before := Pick(branches, verdicts, verdicts[i]), Pick(branches, verdicts[..i], verdicts[i]);
      |before| < |picked| && picked[|before|] == branches[i]
    decreases |verdicts|
  {
    var n := |verdicts| - 1;
    if i < n {
      PickAt(branches, verdicts[..n], i);
      assert verdicts[..n][..i] == verdicts[..i];
    }
  }

  lemma VerdictsAreRight(before: Refs, now: Refs, base: string, head: Commit, branches: seq<string>,
                         verdicts: seq<bool>)
    requires |verdicts| <= |branches| && HasMerged(before, now, base, head, Pick(branches, verdicts, true))
    requires now == before
    requires forall i | 0 <= i < |verdicts| && Mergeable(before, base, branches[i]) :: verdicts[i]
    ensures RightVerdicts(before, base, branches, verdicts)
  {
    forall i: nat | i < |verdicts| && verdicts[i] ensures Mergeable(before, base, branches[i]) {
      PickAt(branches, verdicts, i);
    }
  }

  /** The merged branches are branches of the remote other than the base, and the head has all of them. */
  predicate HasMerged(before: Refs, now: Refs, base: string, head: Commit, merged: seq<string>) {
    && (forall b | b in merged :: b != base && b in now)
    && (forall b | b in merged && b in before :: Reaches(head, before[b]))
  }

  lemma TurnKeepsMerged(before: Refs, was: Refs, now: Refs, base: string, head0: Commit, headWas: Commit, head: Commit,
      merged: seq<string>, b: string, done: bool)
    requires Grew(before, was) && Grew(was, now) && HasMerged(before, was, base, headWas, merged)
    requires Reaches(head, headWas) && Reaches(headWas, head0)
    requires done ==> Mergeable(now, base, b) && (b in was ==> Reaches(head, was[b]))
    ensures Grew(before, now) && HasMerged(before, now, base, head, if done then merged + [b] else merged)
    ensures Reaches(head, head0)
  {
    ReachesTrans(head, headWas, head0);
    GrewTrans(before, was, now);
    forall x | x in merged && x in before ensures Reaches(head, before[x]) {
      ReachesTrans(head, headWas, before[x]);
    }
    if done && b in before {
      ReachesTrans(head, was[b], before[b]);
    }
  }

  /** What the call leaves when `mid` was on the remote as the push was due: nothing of its own without a merge, and
      otherwise what the push and the deletions make of it, with a head that is from the remote. */
  ghost predicate Finish(mid: Refs, after: Refs, env: Env, base: string, head: Commit, merged: seq<string>, k: nat,
                         err: bool) {
    if merged == [] then after == mid && !err else
      && From(head, mid, env) && after == Published(mid, env, base, head, merged, k)
      && (err <==> !(env.Goes(k) && Accepts(mid, env, base, head, k)))
  }

  /** Pushed first and deleted only then, or not deleted at all: either way nothing is lost. */
  lemma Conclude(before: Refs, mid: Refs, after: Refs, base: string, head: Commit, merged: seq<string>, err: bool)
    requires Grew(before, mid) && HasMerged(before, mid, base, head, merged)
    requires err || merged == [] ==> Grew(mid, after)
    requires !err && merged != [] ==> base in after && Reaches(after[base], head)
    requires forall b | b in mid && b !in merged :: b in after && Reaches(after[b], mid[b])
    ensures NothingLost(before, after)
    ensures forall b | b in before && b !in merged :: b in after && Reaches(after[b], before[b])
    ensures !err && merged != [] ==> forall b | b in merged && b in before :: Reaches(after[base], before[b])
  {
    forall b | b in before ensures Kept(after, before[b])
      ensures b !in merged ==> b in after && Reaches(after[b], before[b])
      ensures b in merged && !err ==> Reaches(after[base], before[b])
    {
      if b in merged && !err {
        ReachesTrans(after[base], head, before[b]);
      } else {
        ReachesTrans(after[b], mid[b], before[b]);
      }
    }
    NothingLostByTips(before, after);
  }

  lemma NothingLostByGrowth(before: Refs, mid: Refs, after: Refs)
    requires Grew(before, mid) && (mid == after || NothingLost(mid, after))
    ensures NothingLost(before, after)
  {
    forall b | b in before ensures Kept(mid, before[b]) {
      assert Reaches(mid[b], before[b]);
    }
    NothingLostByTips(before, mid);
  }

  /** What holds of the remote as it was cloned holds of it as it was before the call. */
  lemma CarryBack(before: Refs, ready: Refs, after: Refs, base: string, merged: seq<string>, err: bool)
    requires Grew(before, ready) && NothingLost(ready, after)
    requires forall b | b in ready && b !in merged :: b in after && Reaches(after[b], ready[b])
    requires !err && merged != [] ==>
      base in after && forall b | b in merged && b in ready :: Reaches(after[base], ready[b])
    ensures NothingLost(before, after)
    ensures forall b | b in before && b !in merged :: b in after && Reaches(after[b], before[b])
    ensures !err && merged != [] ==> forall b | b in merged && b in before :: Reaches(after[base], before[b])
  {
    NothingLostByGrowth(before, ready, after);
    forall b | b in before && (b !in merged || !err)
      ensures b !in merged ==> Reaches(after[b], before[b])
      ensures b in merged ==> Reaches(after[base], before[b])
    {
      ReachesTrans(after[if b in merged then base else b], ready[b], before[b]);
    }
  }

  /** Every branch but the base was tried and exactly those of the remote were merged and deleted. */
  predicate WholeJob(before: Refs, after: Refs, base: string, branches: seq<string>, merged: seq<string>,
      verdicts: seq<bool>) {
    && |verdicts| == |branches|
    && RightVerdicts(before, base, branches, verdicts)
    && after.Keys == before.Keys - set b | b in merged
  }

  /** Nobody pushes from command k on. */
  ghost predicate SilentFrom(env: Env, k: nat) {
    forall j: nat | k <= j :: env.moves(j) == []
  }

  lemma {:induction false} DeletedExactly(refs: Refs, env: Env, bs: seq<string>, k: nat)
    requires AllGo(env) && SilentFrom(env, k)
    ensures Deleted(refs, env, bs, k) == map b | b in refs && b !in bs :: refs[b]
    decreases |bs|
  {
    if bs != [] {
      assert env.Goes(k) && env.moves(k) == [];
      DeletedExactly(Without(refs, bs[0]), env, bs[1..], k + 1);
      assert bs == [bs[0]] + bs[1..];
    }
  }

  /** Deletions leave every other branch where it was or further on. */
  lemma {:induction false} DeletedKeeps(refs: Refs, env: Env, bs: seq<string>, k: nat, b: string)
    requires b in refs && b !in bs
    ensures var r := Deleted(refs, env, bs, k); b in r && Reaches(r[b], refs[b])
    decreases |bs|
  {
    if bs != [] {
      var r := AdvanceAll(refs, env.moves(k));
      AdvanceAllGrows(refs, env.moves(k));
      var m := if env.Writes(k) then Without(r, bs[0]) else r;
      DeletedKeeps(m, env, bs[1..], k + 1, b);
      ReachesTrans(Deleted(refs, env, bs, k)[b], r[b], refs[b]);
    }
  }

  // ----- the turns of the merge loop -----------------------------------------------------------------

  /** One turn: the command it begins with, whether the branch was fetched, whether it was merged, and the head of
      the clone after it. */
  datatype Turn = Turn(at: nat, fetched: bool, merged: bool, head: Commit) {
    /** The command after it: there was a fetch, then a merge, then an abort of a merge that failed. */
    function Next(): nat { at + if !fetched then 1 else if merged then 2 else 3 }
  }

  function Verdicts(turns: seq<Turn>): (vs: seq<bool>)
    ensures |vs| == |turns|
  {
    seq(|turns|, i requires 0 <= i < |turns| => turns[i].merged)
  }

  /** Turn j met a conflict, and no abort of it or of a later turn before turn i went through. */
  predicate LeftBy(env: Env, turns: seq<Turn>, j: nat, i: nat)
    requires j < i <= |turns|
  {
    && turns[j].fetched && !turns[j].merged && !env.Writes(turns[j].at + 1)
    && forall l | j <= l < i && turns[l].fetched :: !env.Writes(turns[l].at + 2)
  }

  /** Turn i finds the clone in the middle of somebody's merge. */
  predicate Unaborted(env: Env, turns: seq<Turn>, i: nat)
    requires i <= |turns|
  {
    exists j: nat | j < i :: LeftBy(env, turns, j, i)
  }

  function BeginOf(turns: seq<Turn>, i: nat, k0: nat): nat
    requires i <= |turns|
  {
    if i == 0 then k0 else turns[i - 1].Next()
  }

  function HeadAt(turns: seq<Turn>, i: nat, head0: Commit): Commit
    requires i <= |turns|
  {
    if i == 0 then head0 else turns[i - 1].head
  }

  /** What turn i does, when the others alone wrote to the remote `refs` from command `from` on: the branch is fetched
      exactly when the fetch goes well and finds it there, and it is not the base; it is merged exactly when, besides,
      the merge goes well and no earlier conflict was left unaborted. */
  predicate TurnIs(refs: Refs, from: nat, env: Env, base: string, b: string, turns: seq<Turn>, i: nat, k0: nat,
                   head0: Commit)
    requires i < |turns|
  {
    var t := turns[i];
    && t.at == BeginOf(turns, i, k0) && from <= t.at && !env.Cancelled(t.at)
    && TurnFrom(OthersOnly(refs, env, from, t.at + 1), env, base, b, t, Unaborted(env, turns, i),
                HeadAt(turns, i, head0))
  }

  /** The clone is there and the base is checked out. */
  predicate IsSetUp(refs: Refs, env: Env, base: string) {
    (forall k: nat | k < 5 :: env.Goes(k)) && base in OthersOnly(refs, env, 0, 2)
  }

  lemma CalmIsSetUp(refs: Refs, env: Env, base: string)
    requires (Calm(env) || CalmUntil(env, 5)) && base in refs
    ensures IsSetUp(refs, env, base) && OthersOnly(refs, env, 0, 2) == refs
  {
    forall k: nat | k < 5 ensures env.Goes(k) {
      assert CalmAt(env, k);
    }
    assert Calm(env) || CalmUntil(env, 2);
    OthersOnlyGrows(refs, env, 0, 2);
  }

  /** The loop, from command k0 on with head0: one turn a branch until they are done, or the call is cancelled. */
  predicate TurnsAre(refs: Refs, from: nat, env: Env, base: string, branches: seq<string>, turns: seq<Turn>, k0: nat,
                     head0: Commit) {
    && |turns| <= |branches|
    && forall i | 0 <= i < |turns| :: TurnIs(refs, from, env, base, branches[i], turns, i, k0, head0)
  }

  /** A turn, from the remote as the fetch finds it, when the clone is stuck in a merge or not. */
  predicate TurnFrom(r: Refs, env: Env, base: string, b: string, t: Turn, stuck: bool, was: Commit) {
    && (t.fetched <==> env.Goes(t.at) && b in r && b != base)
    && (t.merged <==> t.fetched && env.Goes(t.at + 1) && !stuck)
    && t.head == if t.fetched && env.Writes(t.at + 1) && !stuck then MergeCommit(was, r[b], env.id(t.at + 1)) else was
  }

  /** The turns of the whole call, once it is set up: they begin with command 5 on the base as it was cloned, and they
      end when the branches are done or the call is cancelled. */
  predicate Run(refs: Refs, env: Env, base: string, branches: seq<string>, turns: seq<Turn>, k: nat, head: Commit)
    requires IsSetUp(refs, env, base)
  {
    var start := OthersOnly(refs, env, 0, 2)[base];
    && TurnsAre(refs, 0, env, base, branches, turns, 5, start)
    && k == BeginOf(turns, |turns|, 5) && head == HeadAt(turns, |turns|, start)
    && (|turns| == |branches| || env.Cancelled(k))
  }

  lemma SameLeftBy(env: Env, turns: seq<Turn>, t: Turn, j: nat, i: nat)
    requires j < i <= |turns|
    ensures LeftBy(env, turns + [t], j, i) == LeftBy(env, turns, j, i)
  {
    var us := turns + [t];
    assert us[j] == turns[j];
    forall l | j <= l < i ensures us[l] == turns[l] {
    }
  }

  lemma SameUnaborted(env: Env, turns: seq<Turn>, t: Turn, i: nat)
    requires i <= |turns|
    ensures Unaborted(env, turns + [t], i) == Unaborted(env, turns, i)
  {
    forall j: nat | j < i ensures LeftBy(env, turns + [t], j, i) == LeftBy(env, turns, j, i) {
      SameLeftBy(env, turns, t, j, i);
    }
  }

  /** A turn that merges nothing takes over a conflict left behind, unless its abort goes through. */
  lemma UnabortedStep(env: Env, turns: seq<Turn>, t: Turn)
    requires t.merged ==> t.fetched && !Unaborted(env, turns, |turns|)
    ensures Unaborted(env, turns + [t], |turns| + 1) <==>
      if !t.fetched || t.merged then Unaborted(env, turns, |turns|)
      else (Unaborted(env, turns, |turns|) || !env.Writes(t.at + 1)) && !env.Writes(t.at + 2)
  {
    var n, us := |turns|, turns + [t];
    assert us[n] == t;
    forall j: nat | j < n
      ensures LeftBy(env, us, j, n + 1) <==> LeftBy(env, turns, j, n) && (t.fetched ==> !env.Writes(t.at + 2))
    {
      SameLeftBy(env, turns, t, j, n);
    }
    assert LeftBy(env, us, n, n + 1) <==>
      t.fetched && !t.merged && !env.Writes(t.at + 1) && !env.Writes(t.at + 2);
    if Unaborted(env, us, n + 1) {
      var j: nat :| j < n + 1 && LeftBy(env, us, j, n + 1);
      assert j < n ==> LeftBy(env, turns, j, n);
    }
    if Unaborted(env, turns, n) && (t.fetched ==> !env.Writes(t.at + 2)) {
      var j: nat :| j < n && LeftBy(env, turns, j, n);
      assert LeftBy(env, us, j, n + 1);
    }
  }

  /** One more turn. */
  lemma TurnsGrow(refs: Refs, from: nat, env: Env, base: string, branches: seq<string>, turns: seq<Turn>, k0: nat,
                  head0: Commit, t: Turn)
    requires TurnsAre(refs, from, env, base, branches, turns, k0, head0) && |turns| < |branches|
    requires TurnIs(refs, from, env, base, branches[|turns|], turns + [t], |turns|, k0, head0)
    ensures TurnsAre(refs, from, env, base, branches, turns + [t], k0, head0)
    ensures Verdicts(turns + [t]) == Verdicts(turns) + [t.merged]
  {
    var us := turns + [t];
    forall i | 0 <= i < |us| ensures TurnIs(refs, from, env, base, branches[i], us, i, k0, head0) {
      if i < |turns| {
        assert us[i] == turns[i] && (i > 0 ==> us[i - 1] == turns[i - 1]);
        SameUnaborted(env, turns, t, i);
        assert TurnIs(refs, from, env, base, branches[i], turns, i, k0, head0);
      }
    }
  }

  lemma TurnIsNext(refs: Refs, k0: nat, env: Env, base: string, b: string, turns: seq<Turn>, head0: Commit, t: Turn)
    requires k0 <= t.at == BeginOf(turns, |turns|, k0) && !env.Cancelled(t.at)
    requires TurnFrom(OthersOnly(refs, env, k0, t.at + 1), env, base, b, t, Unaborted(env, turns, |turns|),
                      HeadAt(turns, |turns|, head0))
    ensures TurnIs(refs, k0, env, base, b, turns + [t], |turns|, k0, head0)
  {
    var us := turns + [t];
    assert us[|turns|] == t && (|turns| > 0 ==> us[|turns| - 1] == turns[|turns| - 1]);
    SameUnaborted(env, turns, t, |turns|);
  }

  /** The loop goes on by one turn. */
  lemma NextTurn(refs: Refs, k0: nat, env: Env, base: string, branches: seq<string>, turns: seq<Turn>, head0: Commit,
                 was: Refs, t: Turn)
    requires TurnsAre(refs, k0, env, base, branches, turns, k0, head0) && |turns| < |branches|
    requires k0 <= t.at == BeginOf(turns, |turns|, k0) && !env.Cancelled(t.at) && was == OthersOnly(refs, env, k0, t.at)
    requires TurnFrom(OthersOnly(was, env, t.at, t.at + 1), env, base, branches[|turns|], t,
                      Unaborted(env, turns, |turns|), HeadAt(turns, |turns|, head0))
    ensures TurnsAre(refs, k0, env, base, branches, turns + [t], k0, head0)
    ensures Pick(branches, Verdicts(turns + [t]), t.merged) ==
      Pick(branches, Verdicts(turns), t.merged) + [branches[|turns|]]
    ensures Pick(branches, Verdicts(turns + [t]), !t.merged) == Pick(branches, Verdicts(turns), !t.merged)
    ensures Unaborted(env, turns + [t], |turns| + 1) <==>
      if !t.fetched || t.merged then Unaborted(env, turns, |turns|)
      else (Unaborted(env, turns, |turns|) || !env.Writes(t.at + 1)) && !env.Writes(t.at + 2)
  {
    OthersOnlyJoin(refs, env, k0, t.at, t.at + 1);
    TurnIsNext(refs, k0, env, base, branches[|turns|], turns, head0, t);
    TurnsGrow(refs, k0, env, base, branches, turns, k0, head0, t);
    PickOneMore(branches, Verdicts(turns), t.merged);
    UnabortedStep(env, turns, t);
  }

  /** Between two turns. */
  ghost predicate InLoop(before: Refs, now: Refs, env: Env, base: string, branches: seq<string>, turns: seq<Turn>,
                         k0: nat, head0: Commit, head: Commit, stuck: bool, k: nat, merged: seq<string>,
                         failed: seq<string>) {
    && TurnsAre(before, k0, env, base, branches, turns, k0, head0)
    && k0 <= k == BeginOf(turns, |turns|, k0) && head == HeadAt(turns, |turns|, head0)
    && now == OthersOnly(before, env, k0, k) && Grew(before, now)
    && (stuck <==> Unaborted(env, turns, |turns|))
    && merged == Pick(branches, Verdicts(turns), true) && failed == Pick(branches, Verdicts(turns), false)
    && Reaches(head, head0) && From(head, now, env) && HasMerged(before, now, base, head, merged)
  }

  lemma TurnStaysInLoop(before: Refs, was: Refs, now: Refs, env: Env, base: string, branches: seq<string>,
                        turns: seq<Turn>, k0: nat, head0: Commit, head: Commit, stuck: bool, merged: seq<string>,
                        failed: seq<string>, t: Turn)
    requires |turns| < |branches| && !env.Cancelled(t.at)
    requires InLoop(before, was, env, base, branches, turns, k0, head0, head, stuck, t.at, merged, failed)
    requires TurnFrom(OthersOnly(was, env, t.at, t.at + 1), env, base, branches[|turns|], t, stuck, head)
    requires now == OthersOnly(was, env, t.at, t.Next()) && Grew(was, now)
    requires Reaches(t.head, head) && From(t.head, now, env)
    requires var b := branches[|turns|];
      t.merged ==> Mergeable(now, base, b) && (b in was ==> Reaches(t.head, was[b]))
    ensures var b := branches[|turns|];
      InLoop(before, now, env, base, branches, turns + [t], k0, head0, t.head,
             if !t.fetched || t.merged then stuck else (stuck || !env.Writes(t.at + 1)) && !env.Writes(t.at + 2),
             t.Next(), if t.merged then merged + [b] else merged, if t.merged then failed else failed + [b])
  {
    OthersOnlyJoin(before, env, k0, t.at, t.Next());
    TurnKeepsMerged(before, was, now, base, head0, head, t.head, merged, branches[|turns|], t.merged);
    NextTurn(before, k0, env, base, branches, turns, head0, was, t);
  }

  /** The turns as seen from an earlier command. */
  lemma TurnsFromBefore(refs: Refs, env: Env, base: string, branches: seq<string>, turns: seq<Turn>, k0: nat,
                        head0: Commit)
    requires TurnsAre(OthersOnly(refs, env, 0, k0), k0, env, base, branches, turns, k0, head0)
    ensures TurnsAre(refs, 0, env, base, branches, turns, k0, head0)
  {
    forall i | 0 <= i < |turns| ensures TurnIs(refs, 0, env, base, branches[i], turns, i, k0, head0) {
      assert TurnIs(OthersOnly(refs, env, 0, k0), k0, env, base, branches[i], turns, i, k0, head0);
      OthersOnlyJoin(refs, env, 0, k0, turns[i].at + 1);
    }
  }

  /** When every abort goes through, a branch that is there and whose own fetch and merge go well is merged, however
      the other branches fare. */
  lemma AbortedConflictsCostNothing(refs: Refs, from: nat, env: Env, base: string, branches: seq<string>,
                                    turns: seq<Turn>, k0: nat, head0: Commit, i: nat)
    requires TurnsAre(refs, from, env, base, branches, turns, k0, head0) && i < |turns|
    requires forall j | 0 <= j < i && turns[j].fetched && !turns[j].merged :: env.Writes(turns[j].at + 2)
    ensures from <= turns[i].at
    ensures turns[i].merged <==>
      && env.Goes(turns[i].at) && env.Goes(turns[i].at + 1) && branches[i] != base
      && branches[i] in OthersOnly(refs, env, from, turns[i].at + 1)
  {
    assert TurnIs(refs, from, env, base, branches[i], turns, i, k0, head0);
  }

  /** When the call's commands all go well, every branch that was on the remote from the start is merged. */
  lemma AllGoTurn(refs: Refs, from: nat, env: Env, base: string, branches: seq<string>, turns: seq<Turn>, k0: nat,
                  head0: Commit, i: nat)
    requires AllGo(env) && TurnsAre(refs, from, env, base, branches, turns, k0, head0) && i < |turns|
    ensures turns[i].merged == turns[i].fetched && (Mergeable(refs, base, branches[i]) ==> turns[i].merged)
    ensures turns[i].at == BeginOf(turns, i, k0)
  {
    assert TurnIs(refs, from, env, base, branches[i], turns, i, k0, head0);
    OthersOnlyGrows(refs, env, from, turns[i].at + 1);
    assert env.Goes(turns[i].at) && env.Goes(turns[i].at + 1);
    forall j: nat | j < i ensures !LeftBy(env, turns, j, i) {
      assert env.Goes(turns[j].at + 1);
    }
  }

  /** When the call's commands all go well, each turn takes one command, or two when it merges. */
  lemma {:induction false} AllGoTurns(refs: Refs, from: nat, env: Env, base: string, branches: seq<string>,
                                      turns: seq<Turn>, k0: nat, head0: Commit, n: nat)
    requires AllGo(env) && TurnsAre(refs, from, env, base, branches, turns, k0, head0) && n <= |turns|
    ensures BeginOf(turns, n, k0) == k0 + n + |Pick(branches, Verdicts(turns)[..n], true)|
  {
    if n > 0 {
      var i, vs := n - 1, Verdicts(turns);
      AllGoTurns(refs, from, env, base, branches, turns, k0, head0, i);
      AllGoTurn(refs, from, env, base, branches, turns, k0, head0, i);
      assert vs[..n] == vs[..i] + [turns[i].merged];
      PickOneMore(branches, vs[..i], turns[i].merged);
    }
  }

  lemma AllGoIsStraight(refs: Refs, env: Env, base: string, branches: seq<string>, turns: seq<Turn>, k: nat,
                        head: Commit)
    requires AllGo(env) && base in refs
    requires IsSetUp(refs, env, base) ==> Run(refs, env, base, branches, turns, k, head)
    ensures |turns| == |branches|
    ensures Straight(refs, base, branches, Verdicts(turns), Pick(branches, Verdicts(turns), true), 5, k)
  {
    OthersOnlyGrows(refs, env, 0, 2);
    assert IsSetUp(refs, env, base);
    var start := OthersOnly(refs, env, 0, 2)[base];
    AllGoTurns(refs, 0, env, base, branches, turns, 5, start, |turns|);
    forall i: nat | i < |turns| && Mergeable(refs, base, branches[i]) ensures turns[i].merged {
      AllGoTurn(refs, 0, env, base, branches, turns, 5, start, i);
    }
    assert Verdicts(turns)[..|turns|] == Verdicts(turns);
    assert env.Goes(k);
  }

  lemma CancelledRun(refs: Refs, env: Env, base: string, branches: seq<string>, turns: seq<Turn>, k: nat, head: Commit)
    requires CalmUntil(env, 5) && env.Cancelled(5) && base in refs
    requires IsSetUp(refs, env, base) ==> Run(refs, env, base, branches, turns, k, head)
    ensures IsSetUp(refs, env, base) && turns == [] && k == 5 && OthersOnly(refs, env, 0, 5) == refs
  {
    CalmIsSetUp(refs, env, base);
    OthersOnlyGrows(refs, env, 0, 5);
    FirstBegins(refs, 0, env, base, branches, turns, 5, OthersOnly(refs, env, 0, 2)[base]);
  }

  lemma FirstBegins(refs: Refs, from: nat, env: Env, base: string, branches: seq<string>, turns: seq<Turn>, k0: nat,
                    head0: Commit)
    requires TurnsAre(refs, from, env, base, branches, turns, k0, head0)
    ensures turns != [] ==> !env.Cancelled(k0)
  {
    if turns != [] {
      assert TurnIs(refs, from, env, base, branches[0], turns, 0, k0, head0);
    }
  }

  lemma CalmTurns(refs: Refs, now: Refs, env: Env, base: string, branches: seq<string>, turns: seq<Turn>, k0: nat,
                  head0: Commit, k: nat)
    requires Calm(env) && TurnsAre(refs, k0, env, base, branches, turns, k0, head0)
    requires HasMerged(refs, now, base, HeadAt(turns, |turns|, head0), Pick(branches, Verdicts(turns), true))
    requires now == refs && (|turns| == |branches| || env.Cancelled(k))
    ensures |turns| == |branches| && RightVerdicts(refs, base, branches, Verdicts(turns))
  {
    CalmGoes(env);
    assert env.Goes(k);
    forall i: nat | i < |turns| && Mergeable(refs, base, branches[i]) ensures turns[i].merged {
      AllGoTurn(refs, k0, env, base, branches, turns, k0, head0, i);
    }
    VerdictsAreRight(refs, now, base, HeadAt(turns, |turns|, head0), branches, Verdicts(turns));
  }

  // ----- the deletions, branch by branch -------------------------------------------------------------

  predicate SameAt(x: Refs, y: Refs, b: string) {
    (b in x <==> b in y) && (b in x ==> x[b] == y[b])
  }

  lemma {:induction false} AdvanceSameAt(x: Refs, y: Refs, ms: seq<Move>, b: string)
    requires SameAt(x, y, b)
    ensures SameAt(AdvanceAll(x, ms), AdvanceAll(y, ms), b)
    decreases |ms|
  {
    if ms != [] {
      AdvanceSameAt(Advance(x, ms[0]), Advance(y, ms[0]), ms[1..], b);
    }
  }

  /** The deletions are nothing to the other branches: each is where the others' pushes have brought it. */
  lemma {:induction false} DeletedElsewhere(x: Refs, y: Refs, env: Env, bs: seq<string>, k0: nat, k: nat, b: string)
    requires k0 <= k && b !in bs && SameAt(x, OthersOnly(y, env, k0, k), b)
    ensures SameAt(Deleted(x, env, bs, k), OthersOnly(y, env, k0, k + |bs|), b)
    decreases |bs|
  {
    if bs != [] {
      AdvanceSameAt(x, OthersOnly(y, env, k0, k), env.moves(k), b);
      var r := AdvanceAll(x, env.moves(k));
      DeletedElsewhere(if env.Writes(k) then Without(r, bs[0]) else r, y, env, bs[1..], k0, k + 1, b);
    }
  }

  /** A listed branch is gone from its own deletion on, if that takes effect, until somebody pushes it anew. */
  lemma {:induction false} DeletedHere(x: Refs, y: Refs, env: Env, bs: seq<string>, k0: nat, k: nat, i: nat)
    requires k0 <= k && i < |bs| && bs[i] !in bs[..i] && bs[i] !in bs[i + 1..]
    requires SameAt(x, OthersOnly(y, env, k0, k), bs[i])
    ensures var r := OthersOnly(y, env, k0, k + i + 1);
      SameAt(Deleted(x, env, bs, k),
             OthersOnly(if env.Writes(k + i) then Without(r, bs[i]) else r, env, k + i + 1, k + |bs|), bs[i])
    decreases |bs|
  {
    var b, r := bs[i], AdvanceAll(x, env.moves(k));
    var next := if env.Writes(k) then Without(r, bs[0]) else r;
    AdvanceSameAt(x, OthersOnly(y, env, k0, k), env.moves(k), b);
    if i == 0 {
      var q := OthersOnly(y, env, k0, k + 1);
      var m := if env.Writes(k) then Without(q, b) else q;
      DeletedElsewhere(next, m, env, bs[1..], k + 1, k + 1, b);
    } else {
      assert bs[1..][i - 1] == b && bs[1..][..i - 1] == bs[1..i] && bs[1..][i..] == bs[i + 1..];
      assert bs[0] == bs[..i][0];
      DeletedHere(next, y, env, bs[1..], k0, k + 1, i - 1);
    }
  }

  class Remote {
    var refs: Refs

    constructor (refs: Refs)
      ensures this.refs == refs
    {
      this.refs := refs;
    }

    /** The others' pushes before command k. */
    method Others(env: Env, k: nat)
      modifies this
      ensures refs == AdvanceAll(old(refs), env.moves(k))
      ensures Grew(old(refs), refs)
      ensures Calm(env) || CalmAt(env, k) ==> refs == old(refs)
    {
      assert Calm(env) ==> CalmAt(env, k);
      var i := 0;
      var ms := env.moves(k);
      while i < |ms|
        invariant 0 <= i <= |ms|
        invariant AdvanceAll(refs, ms[i..]) == AdvanceAll(old(refs), ms)
      {
        refs := Advance(refs, ms[i]);
        i := i + 1;
      }
      AdvanceAllGrows(old(refs), ms);
    }

    /** The working directory, the clone, the two settings and the checkout: commands 0 to 4. The head is the base as
        it was cloned. */
    method Prepare(env: Env, base: string) returns (head: Commit, ok: bool, k: nat)
      modifies this
      ensures k <= 5 && refs == OthersOnly(old(refs), env, 0, k)
      ensures ok <==> IsSetUp(old(refs), env, base)
      ensures ok ==> k == 5 && head == OthersOnly(old(refs), env, 0, 2)[base]
      ensures !ok ==> k > 0 && (forall j: nat | j < k - 1 :: env.Goes(j)) && (env.Goes(k - 1) ==> k == 5)
      ensures ok ==> base in refs && Reaches(refs[base], head) && (base in old(refs) ==> Reaches(head, old(refs)[base]))
    {
      head, ok, k := Commit(0, []), true, 0;
      var cloned: Refs := map[];
      while k < 5 && ok
        invariant k <= 5 && refs == OthersOnly(old(refs), env, 0, k)
        invariant k >= 2 && ok ==> cloned == OthersOnly(old(refs), env, 0, 2) && Grew(cloned, refs)
        invariant k == 5 && ok ==> base in cloned && head == cloned[base]
        invariant ok ==> forall j: nat | j < k :: env.Goes(j)
        invariant !ok ==> k > 0 && (forall j: nat | j < k - 1 :: env.Goes(j))
        invariant !ok ==> !env.Goes(k - 1) || (k == 5 && base !in OthersOnly(old(refs), env, 0, 2))
      {
        ghost var was := refs;
        Others(env, k);
        if k >= 2 { GrewTrans(cloned, was, refs); }
        if !env.Goes(k) {
          ok := false;
        } else if k == 1 {
          cloned := refs;
        } else if k == 4 {
          if base in cloned { head := cloned[base]; } else { ok := false; }
        }
        k := k + 1;
      }
      OthersOnlyGrows(old(refs), env, 0, 2);
    }

    /** The merge loop. */
    method MergeAll(env: Env, base: string, head0: Commit, branches: seq<string>, k0: nat)
      returns (head: Commit, merged: seq<string>, failed: seq<string>, k: nat, ghost turns: seq<Turn>)
      requires base in refs && Reaches(refs[base], head0)
      modifies this
      ensures k0 <= k && refs == OthersOnly(old(refs), env, k0, k)
      ensures TurnsAre(old(refs), k0, env, base, branches, turns, k0, head0)
      ensures k == BeginOf(turns, |turns|, k0) && head == HeadAt(turns, |turns|, head0)
      ensures |turns| == |branches| || env.Cancelled(k)
      ensures merged == Pick(branches, Verdicts(turns), true) && failed == Pick(branches, Verdicts(turns), false)
      ensures Reaches(head, head0) && From(head, refs, env) && HasMerged(old(refs), refs, base, head, merged)
    {
      head, merged, failed, k, turns := head0, [], [], k0, [];
      FromBranch(refs, base, head0, env);
      var stuck := false;
      var i := 0;
      while i < |branches| && !env.Cancelled(k)
        invariant 0 <= i == |turns| <= |branches|
        invariant InLoop(old(refs), refs, env, base, branches, turns, k0, head0, head, stuck, k, merged, failed)
        decreases |branches| - i
      {
        ghost var was, headWas, stuckWas, mergedWas, failedWas := refs, head, stuck, merged, failed;
        var done: bool;
        ghost var t: Turn;
        head, stuck, done, k, t := MergeOne(env, base, head, branches[i], stuck, k);
        if done { merged := merged + [branches[i]]; } else { failed := failed + [branches[i]]; }
        TurnStaysInLoop(old(refs), was, refs, env, base, branches, turns, k0, head0, headWas, stuckWas, mergedWas,
                        failedWas, t);
        turns := turns + [t];
        i := i + 1;
      }
    }

    /** One turn of the loop: fetch the branch and merge it, or abort the merge. */
    method MergeOne(env: Env, base: string, head0: Commit, b: string, stuck0: bool, k0: nat)
      returns (head: Commit, stuck: bool, done: bool, k: nat, ghost t: Turn)
      modifies this
      ensures k0 < k && refs == OthersOnly(old(refs), env, k0, k)
      ensures t.at == k0 && t.merged == done && t.head == head && k == t.Next()
      ensures TurnFrom(OthersOnly(old(refs), env, k0, k0 + 1), env, base, b, t, stuck0, head0)
      ensures stuck == if !t.fetched || done then stuck0 else (stuck0 || !env.Writes(k0 + 1)) && !env.Writes(k0 + 2)
      ensures Grew(old(refs), refs) && Reaches(head, head0)
      ensures done ==> Mergeable(refs, base, b) && (b in old(refs) ==> Reaches(head, old(refs)[b]))
      ensures From(head0, old(refs), env) ==> From(head, refs, env)
    {
      head, stuck, done, k, t := head0, stuck0, false, k0 + 1, Turn(k0, false, false, head0);
      Others(env, k0);
      ghost var r1 := refs;
      assert r1 == OthersOnly(old(refs), env, k0, k0 + 1);
      if From(head0, old(refs), env) { FromGrows(head0, old(refs), r1, env); }
      if !env.Goes(k0) || !Mergeable(refs, base, b) {
        return;
      }
      var tip := refs[b];
      FromBranch(refs, b, tip, env);
      head, stuck, done, k := MergeTip(env, head0, tip, stuck0, k0 + 1);
      t := Turn(k0, true, done, head);
      OthersOnlyJoin(old(refs), env, k0, k0 + 1, k);
      GrewTrans(old(refs), r1, refs);
      if done && b in old(refs) { ReachesTrans(head, tip, old(refs)[b]); }
    }

    /** The merge of a fetched tip. A conflict that could not be aborted leaves the clone stuck, and it
        refuses to merge until an abort goes through. */
    method MergeTip(env: Env, head0: Commit, tip: Commit, stuck0: bool, k0: nat)
      returns (head: Commit, stuck: bool, done: bool, k: nat)
      modifies this
      ensures k == k0 + (if done then 1 else 2) && refs == OthersOnly(old(refs), env, k0, k) && Grew(old(refs), refs)
      ensures done <==> env.Goes(k0) && !stuck0
      ensures head == if env.Writes(k0) && !stuck0 then MergeCommit(head0, tip, env.id(k0)) else head0
      ensures stuck == if done then stuck0 else (stuck0 || !env.Writes(k0)) && !env.Writes(k0 + 1)
      ensures From(head0, old(refs), env) && From(tip, old(refs), env) ==> From(head, refs, env)
    {
      head, stuck, done, k := head0, stuck0, false, k0 + 1;
      Others(env, k0);
      if !stuck && env.Writes(k0) {
        head := MergeCommit(head0, tip, env.id(k0));
        if From(head0, old(refs), env) && From(tip, old(refs), env) { FromMerge(head0, tip, old(refs), env, k0); }
      }
      done := !stuck && env.Goes(k0);
      if !done {
        Others(env, k0 + 1);
        k := k0 + 2;
        stuck := (stuck || !env.Writes(k0)) && !env.Writes(k0 + 1);
      }
      OthersOnlyTwo(old(refs), env, k0);
      OthersOnlyGrows(old(refs), env, k0, k);
      if From(head, old(refs), env) { FromGrows(head, old(refs), refs, env); }
    }

    /** Pushes the base branch; the server takes a fast-forward only. */
    method Push(env: Env, base: string, head: Commit, k: nat) returns (ok: bool)
      requires base in refs
      modifies this
      ensures var r := AdvanceAll(old(refs), env.moves(k));
        if base in r && Reaches(head, r[base]) && env.Writes(k)
        then refs == r[base := head] else refs == r && !ok
      ensures ok <==> env.Goes(k) && Accepts(old(refs), env, base, head, k)
      ensures ok ==> refs[base] == head
      ensures Grew(old(refs), refs)
      ensures Calm(env) ==> (ok <==> Reaches(head, old(refs)[base]))
    {
      assert Calm(env) ==> CalmAt(env, k);
      Others(env, k);
      ghost var r := refs;
      var ff := Reaches(head, refs[base]);
      if ff && env.Writes(k) {
        refs := refs[base := head];
        GrewTrans(old(refs), r, refs);
      }
      ok := ff && env.Goes(k);
    }

    /** Deletes the merged branches from the remote, as far as that goes. */
    method DeleteMerged(env: Env, base: string, merged: seq<string>, k: nat)
      requires base in refs && base !in merged
      modifies this
      ensures refs == Deleted(old(refs), env, merged, k)
      ensures base in refs && Reaches(refs[base], old(refs)[base])
      ensures forall b | b in old(refs) && b !in merged :: b in refs && Reaches(refs[b], old(refs)[b])
      ensures Calm(env) ==> refs == map b | b in old(refs) && b !in merged :: old(refs)[b]
    {
      var i := 0;
      assert merged[0..] == merged;
      while i < |merged|
        invariant 0 <= i <= |merged|
        invariant Deleted(refs, env, merged[i..], k + i) == Deleted(old(refs), env, merged, k)
      {
        Others(env, k + i);
        if env.Writes(k + i) {
          refs := Without(refs, merged[i]);
        }
        assert merged[i..][1..] == merged[i + 1..] && merged[i..][0] == merged[i];
        i := i + 1;
      }
      forall b | b in old(refs) && b !in merged ensures b in refs && Reaches(refs[b], old(refs)[b]) {
        DeletedKeeps(old(refs), env, merged, k, b);
      }
      if Calm(env) {
        CalmGoes(env);
        DeletedExactly(old(refs), env, merged, k);
      }
    }

    /** Pushes the base and then deletes the merged branches; without the push nothing is deleted. */
    method Publish(env: Env, base: string, head: Commit, merged: seq<string>, k: nat) returns (err: bool)
      requires base in refs && base !in merged
      modifies this
      ensures refs == Published(old(refs), env, base, head, merged, k)
      ensures err <==> !(env.Goes(k) && Accepts(old(refs), env, base, head, k))
      ensures err ==> Grew(old(refs), refs)
      ensures !err ==> base in refs && Reaches(refs[base], head)
      ensures base in refs && forall b | b in old(refs) && b !in merged :: b in refs && Reaches(refs[b], old(refs)[b])
      ensures env.Cancelled(k) ==> err && refs == AdvanceAll(old(refs), env.moves(k))
      ensures Calm(env) && Reaches(head, old(refs)[base]) ==> !err && refs.Keys == old(refs).Keys - set b | b in merged
    {
      var pushed := Push(env, base, head, k);
      err := !pushed;
      if pushed {
        ghost var mid := refs;
        DeleteMerged(env, base, merged, k + 1);
        forall b | b in old(refs) && b !in merged ensures Reaches(refs[b], old(refs)[b]) {
          ReachesTrans(refs[b], mid[b], old(refs)[b]);
        }
        assert Calm(env) ==> CalmAt(env, k);
      }
    }

    /** The call once the clone is there: the loop, then the push and the deletions. */
    method Integrate(env: Env, base: string, head0: Commit, branches: seq<string>, k0: nat)
      returns (merged: seq<string>, failed: seq<string>, err: bool, ghost turns: seq<Turn>, ghost k: nat,
               ghost head: Commit)
      requires base in refs && Reaches(refs[base], head0)
      modifies this
      ensures NothingLost(old(refs), refs) && k0 <= k && base !in merged
      ensures TurnsAre(old(refs), k0, env, base, branches, turns, k0, head0)
      ensures k == BeginOf(turns, |turns|, k0) && head == HeadAt(turns, |turns|, head0)
      ensures merged == Pick(branches, Verdicts(turns), true) && failed == Pick(branches, Verdicts(turns), false)
      ensures |turns| == |branches| || env.Cancelled(k)
      ensures merged == [] ==> !err && refs == OthersOnly(old(refs), env, k0, k)
      ensures merged != [] && env.Cancelled(k) ==> err && refs == OthersOnly(old(refs), env, k0, k + 1)
      ensures Reaches(head, head0)
      ensures Finish(OthersOnly(old(refs), env, k0, k), refs, env, base, head, merged, k, err)
      ensures forall b | b in old(refs) && b !in merged :: b in refs && Reaches(refs[b], old(refs)[b])
      ensures !err && merged != [] ==>
          base in refs && forall b | b in merged && b in old(refs) :: Reaches(refs[base], old(refs)[b])
      ensures Calm(env) && Reaches(head0, old(refs)[base]) ==>
          !err && WholeJob(old(refs), refs, base, branches, merged, Verdicts(turns))
    {
      var merge, n;
      merge, merged, failed, n, turns := MergeAll(env, base, head0, branches, k0);
      head := merge;
      err, k := false, n;
      OthersOnlyGrows(old(refs), env, k0, n);
      ghost var mid := refs;
      if |merged| > 0 {
        if Reaches(head0, old(refs)[base]) { ReachesTrans(merge, head0, old(refs)[base]); }
        err := Publish(env, base, merge, merged, n);
        assert OthersOnly(old(refs), env, k0, n + 1) == AdvanceAll(mid, env.moves(n));
      }
      Conclude(old(refs), mid, refs, base, head, merged, err);
      if Calm(env) { CalmTurns(old(refs), mid, env, base, branches, turns, k0, head0, n); }
    }

    /** The call for some branches: the clone, the loop, the push and the deletions. */
    method CloneAndMerge(env: Env, base: string, branches: seq<string>)
      returns (merged: seq<string>, failed: seq<string>, err: bool, ghost turns: seq<Turn>, ghost k: nat,
               ghost head: Commit)
      modifies this
      ensures NothingLost(old(refs), refs) && base !in merged
      ensures |turns| <= |branches| && merged == Pick(branches, Verdicts(turns), true)
      ensures failed == Pick(branches, Verdicts(turns), false)
      ensures IsSetUp(old(refs), env, base) ==> Run(old(refs), env, base, branches, turns, k, head)
      ensures IsSetUp(old(refs), env, base) ==>
        Finish(OthersOnly(old(refs), env, 0, k), refs, env, base, head, merged, k, err)
      ensures !IsSetUp(old(refs), env, base) ==> err && turns == []
      ensures merged == [] ==> refs == OthersOnly(old(refs), env, 0, k)
      ensures merged != [] && env.Cancelled(k) ==> err && refs == OthersOnly(old(refs), env, 0, k + 1)
      ensures merged != [] && base in old(refs) ==> Reaches(head, old(refs)[base])
      ensures forall b | b in old(refs) && b !in merged :: b in refs && Reaches(refs[b], old(refs)[b])
      ensures !err && merged != [] ==>
          base in refs && forall b | b in merged && b in old(refs) :: Reaches(refs[base], old(refs)[b])
      ensures Calm(env) && base in old(refs) ==>
          !err && WholeJob(old(refs), refs, base, branches, merged, Verdicts(turns))
    {
      merged, failed, err, turns, k, head := [], [], true, [], 0, Commit(0, []);
      if Calm(env) && base in refs { CalmIsSetUp(refs, env, base); }
      var start, ok, n := Prepare(env, base);
      ghost var ready := refs;
      OthersOnlyGrows(old(refs), env, 0, n);
      k := n;
      if !ok {
        NothingLostByGrowth(old(refs), refs, refs);
        return;
      }
      merged, failed, err, turns, k, head := Integrate(env, base, start, branches, n);
      TurnsFromBefore(old(refs), env, base, branches, turns, n, start);
      if merged != [] && base in old(refs) { ReachesTrans(head, start, old(refs)[base]); }
      OthersOnlyJoin(old(refs), env, 0, n, k);
      OthersOnlyJoin(old(refs), env, 0, n, k + 1);
      CarryBack(old(refs), ready, refs, base, merged, err);
    }

    /** Whatever fails, is cancelled or is pushed by others in between, no commit that some branch of the
        remote reached before the call is out of reach after it. */
    method MergeImplementBranches(env: Env, base: string, branches: seq<string>)
      returns (merged: seq<string>, failed: seq<string>, err: bool, ghost turns: seq<Turn>, ghost k: nat,
               ghost head: Commit)
      modifies this
      ensures NothingLost(old(refs), refs) && base !in merged
      // the two lists split a prefix of the branches, in order, by what each one's turn came to; all of it unless the
      // set-up failed or the call was cancelled
      ensures |turns| <= |branches| && merged == Pick(branches, Verdicts(turns), true)
      ensures failed == Pick(branches, Verdicts(turns), false)
      ensures branches != [] && IsSetUp(old(refs), env, base) ==> Run(old(refs), env, base, branches, turns, k, head)
      ensures branches != [] && !IsSetUp(old(refs), env, base) ==> err && turns == []
      ensures branches == [] ==> !err && refs == old(refs)
      // without a merge, or with a cancellation before the push, the call itself wrote nothing
      ensures merged == [] ==> refs == OthersOnly(old(refs), env, 0, k)
      ensures merged != [] && env.Cancelled(k) ==> err && refs == OthersOnly(old(refs), env, 0, k + 1)
      // and in any case this is what is on the remote afterwards, the push being command k
      ensures branches != [] && IsSetUp(old(refs), env, base) ==>
        Finish(OthersOnly(old(refs), env, 0, k), refs, env, base, head, merged, k, err)
      ensures merged != [] && base in old(refs) ==> Reaches(head, old(refs)[base])
      // only merged branches are ever deleted
      ensures forall b | b in old(refs) && b !in merged :: b in refs && Reaches(refs[b], old(refs)[b])
      // when a call that merged something reports no error, the base has everything it merged
      ensures !err && merged != [] ==>
          base in refs && forall b | b in merged && b in old(refs) :: Reaches(refs[base], old(refs)[b])
      // an error-free call merged everything exactly when it turned nothing down and did merge something; a
      // cancellation before the first merge is no error and leaves both lists empty
      ensures !err && branches != [] ==> (merged == branches <==> failed == [] && merged != [])
      ensures CalmUntil(env, 5) && env.Cancelled(5) && base in old(refs) ==>
        !err && merged == [] && failed == [] && refs == old(refs)
      // when the call's own commands all go well, every branch that was on the remote from the start is merged
      ensures AllGo(env) && base in old(refs) && branches != [] ==>
        |turns| == |branches| && Straight(old(refs), base, branches, Verdicts(turns), merged, 5, k)
      // and when nothing goes wrong it does the whole job
      ensures Calm(env) && base in old(refs) && branches != [] ==>
          !err && WholeJob(old(refs), refs, base, branches, merged, Verdicts(turns))
    {
      merged, failed, err, turns, k, head := [], [], false, [], 0, Commit(0, []);
      if |branches| == 0 {
        NothingLostByGrowth(old(refs), refs, refs);
        return;
      }
      merged, failed, err, turns, k, head := CloneAndMerge(env, base, branches);
      AllPicked(branches, Verdicts(turns));
      if AllGo(env) && base in old(refs) { AllGoIsStraight(old(refs), env, base, branches, turns, k, head); }
      if CalmUntil(env, 5) && env.Cancelled(5) && base in old(refs) {
        CancelledRun(old(refs), env, base, branches, turns, k, head);
      }
    }
  }

  // ----- what is not promised ------------------------------------------------------------------------

  /** A call that reports no error although a listed branch was not merged: the branch is not on the remote. */
  method MissingBranchIsNoError(main: Commit) returns (merged: seq<string>, failed: seq<string>, err: bool)
    ensures !err && merged == [] && failed == ["work"]
  {
    var remote := new Remote(map["main" := main]);
    var env := Env(k => true, k => false, k => [], k => k, None);
    ghost var turns, k, head;
    merged, failed, err, turns, k, head := remote.MergeImplementBranches(env, "main", ["work"]);
    assert Verdicts(turns) == [false];
  }

  /** Two branches, of which the first conflicts. Its merge is aborted, and the second is merged, pushed and deleted. */
  method ConflictCostsItself(main: Commit, x: Commit, y: Commit) returns (remote: Remote, merged: seq<string>,
      failed: seq<string>, err: bool)
    ensures !err && merged == ["y"] && failed == ["x"]
    ensures remote.refs.Keys == {"main", "x"} && Reaches(remote.refs["main"], y)
  {
    remote := new Remote(map["main" := main, "x" := x, "y" := y]);
    ghost var refs, branches := remote.refs, ["x", "y"];
    var env := Env(k => k != 6, k => false, k => [], k => k, None);
    ghost var turns, k, head;
    merged, failed, err, turns, k, head := remote.MergeImplementBranches(env, "main", ["x", "y"]);
    ConflictResult(refs, env, turns, k, head, err, remote.refs);
  }

  lemma ConflictResult(refs: Refs, env: Env, turns: seq<Turn>, k: nat, head: Commit, err: bool, after: Refs)
    requires refs.Keys == {"main", "x", "y"}
    requires forall k: nat :: env.moves(k) == [] && (env.Goes(k) <==> k != 6) && !env.Cancelled(k)
    requires !env.Writes(6)
    requires IsSetUp(refs, env, "main") ==>
      && Run(refs, env, "main", ["x", "y"], turns, k, head)
      && Finish(OthersOnly(refs, env, 0, k), after, env, "main", head, Pick(["x", "y"], Verdicts(turns), true), k, err)
    ensures !err && Pick(["x", "y"], Verdicts(turns), true) == ["y"]
    ensures Pick(["x", "y"], Verdicts(turns), false) == ["x"]
    ensures after.Keys == {"main", "x"} && Reaches(after["main"], refs["y"])
  {
    ConflictTurns(refs, env, turns, k, head);
    OthersSilent(refs, env, 10);
    var pushed := refs["main" := head];
    assert Deleted(Without(pushed, "y"), env, ["y"][1..], 12) == Without(pushed, "y");
    assert env.Goes(10) && env.Goes(11) && Accepts(refs, env, "main", head, 10);
  }

  /** A call that is cancelled before its first merge: no error, and nothing in either list. */
  method CancelledIsNoError(main: Commit, work: Commit) returns (merged: seq<string>, failed: seq<string>, err: bool)
    ensures !err && merged == [] && failed == []
  {
    var remote := new Remote(map["main" := main, "work" := work]);
    var env := Env(k => true, k => false, k => [], k => k, Some(5));
    ghost var turns, k, head;
    merged, failed, err, turns, k, head := remote.MergeImplementBranches(env, "main", ["work"]);
  }

  /** A deletion is harmless exactly when another branch reaches the deleted tip. */
  lemma DeleteKeepsExactly(refs: Refs, b: string)
    requires b in refs
    ensures NothingLost(refs, Without(refs, b)) <==> Kept(Without(refs, b), refs[b])
  {
    var after := Without(refs, b);
    if NothingLost(refs, after) {
      assert Reaches(refs[b], refs[b]);
      assert Kept(refs, refs[b]);
    }
    if Kept(after, refs[b]) {
      forall x | x in refs ensures Kept(after, refs[x]) {
        assert x != b ==> x in after && Reaches(after[x], refs[x]);
      }
      NothingLostByTips(refs, after);
    }
  }

  /** Which commits are kept when the call's commands go well and nobody pushes after the base was pushed: those of
      the head and those of the branches that were not merged. A commit that came late, after its branch was
      fetched, is of neither, unless it is on another branch, too. */
  lemma SurvivorsExactly(mid: Refs, env: Env, base: string, head: Commit, merged: seq<string>, k: nat, c: Commit)
    requires AllGo(env) && SilentFrom(env, k + 1) && Accepts(mid, env, base, head, k) && base !in merged
    ensures var r := AdvanceAll(mid, env.moves(k));
      Kept(Published(mid, env, base, head, merged, k), c) <==>
        Reaches(head, c) || exists b :: b in r && b != base && b !in merged && Reaches(r[b], c)
  {
    var r := AdvanceAll(mid, env.moves(k));
    assert env.Goes(k);
    DeletedExactly(r[base := head], env, merged, k + 1);
    var after := Published(mid, env, base, head, merged, k);
    assert after == map b | b in r[base := head] && b !in merged :: r[base := head][b];
    if Reaches(head, c) { assert after[base] == head; }
    if b :| b in r && b != base && b !in merged && Reaches(r[b], c) { assert after[b] == r[b]; }
  }

  const MAIN: Commit := Commit(0, [])
  const WORK: Commit := Commit(1, [MAIN])
  const LATE: Commit := Commit(2, [WORK])

  /** A call in which everything goes well: what someone pushes to the branch between its fetch and its deletion is
      out of reach afterwards. The promise is about the commits that were there before the call. */
  method LatePushIsLost() returns (remote: Remote, merged: seq<string>, failed: seq<string>, err: bool)
    ensures !err && merged == ["work"] && failed == []
    ensures Kept(Advance(map["main" := MAIN, "work" := WORK], Move("work", LATE)), LATE) && !Kept(remote.refs, LATE)
  {
    remote := new Remote(map["main" := MAIN, "work" := WORK]);
    ghost var refs := remote.refs;
    var env := Env(k => true, k => false, k => if k == 7 then [Move("work", LATE)] else [], k => k, None);
    assert AllGo(env);
    ghost var turns, k, head;
    merged, failed, err, turns, k, head := remote.MergeImplementBranches(env, "main", ["work"]);
    assert Mergeable(refs, "main", "work") && Verdicts(turns) == [true];
    assert merged == ["work"] && k == 7;
    LateIsLost(refs, env, head, remote.refs, err);
  }

  lemma FirstConflicts(refs: Refs, env: Env, branches: seq<string>, turns: seq<Turn>, start: Commit)
    requires |turns| == 2 && TurnsAre(refs, 0, env, "main", branches, turns, 5, start) && branches[0] == "x"
    requires env.Goes(5) && !env.Goes(6) && "x" in OthersOnly(refs, env, 0, 6)
    ensures turns[0].fetched && !turns[0].merged && turns[0].at == 5 && turns[1].at == 8
  {
    assert TurnIs(refs, 0, env, "main", branches[0], turns, 0, 5, start);
    assert TurnIs(refs, 0, env, "main", branches[1], turns, 1, 5, start);
  }

  lemma ConflictTurns(refs: Refs, env: Env, turns: seq<Turn>, k: nat, head: Commit)
    requires refs.Keys == {"main", "x", "y"}
    requires forall k: nat :: env.moves(k) == [] && (env.Goes(k) <==> k != 6) && !env.Cancelled(k)
    requires !env.Writes(6)
    requires IsSetUp(refs, env, "main") ==> Run(refs, env, "main", ["x", "y"], turns, k, head)
    ensures IsSetUp(refs, env, "main") && Verdicts(turns) == [false, true] && k == 10
    ensures Pick(["x", "y"], Verdicts(turns), true) == ["y"] && Pick(["x", "y"], Verdicts(turns), false) == ["x"]
    ensures Reaches(head, refs["main"]) && Reaches(head, refs["y"])
  {
    var branches, start := ["x", "y"], refs["main"];
    OthersSilent(refs, env, 2);
    OthersSilent(refs, env, 6);
    OthersSilent(refs, env, 9);
    assert IsSetUp(refs, env, "main") && !env.Cancelled(k);
    FirstConflicts(refs, env, branches, turns, start);
    SecondMerges(refs, env, branches, turns, start);
    assert Verdicts(turns) == [false, true];
    PicksSecond(branches, Verdicts(turns));
  }

  lemma PicksSecond(branches: seq<string>, vs: seq<bool>)
    requires |branches| == 2 && vs == [false, true]
    ensures Pick(branches, vs, true) == [branches[1]] && Pick(branches, vs, false) == [branches[0]]
  {
    var none: seq<bool> := [];
    PickOneMore(branches, none, false);
    PickOneMore(branches, none + [false], true);
    assert vs == none + [false] + [true];
  }

  lemma SecondMerges(refs: Refs, env: Env, branches: seq<string>, turns: seq<Turn>, start: Commit)
    requires |turns| == 2 && TurnsAre(refs, 0, env, "main", branches, turns, 5, start) && branches[1] == "y"
    requires turns[0].at == 5 && turns[1].at == 8 && env.Writes(7) && !env.Writes(6)
    requires env.Goes(8) && env.Goes(9) && "y" in refs && OthersOnly(refs, env, 0, 9) == refs
    ensures turns[1].merged && turns[1].Next() == 10
    ensures Reaches(turns[1].head, refs["y"]) && Reaches(turns[1].head, start)
  {
    AbortedConflictsCostNothing(refs, 0, env, "main", branches, turns, 5, start, 1);
    assert TurnIs(refs, 0, env, "main", branches[1], turns, 1, 5, start);
    assert TurnIs(refs, 0, env, "main", branches[0], turns, 0, 5, start);
  }

  lemma {:induction false} OthersSilent(refs: Refs, env: Env, n: nat)
    requires forall j: nat | j < n :: env.moves(j) == []
    ensures OthersOnly(refs, env, 0, n) == refs
    decreases n
  {
    if n > 0 {
      OthersSilent(refs, env, n - 1);
    }
  }

  lemma LateIsLost(refs: Refs, env: Env, head: Commit, after: Refs, err: bool)
    requires refs == map["main" := MAIN, "work" := WORK] && AllGo(env)
    requires forall k: nat :: env.moves(k) == if k == 7 then [Move("work", LATE)] else []
    requires Finish(OthersOnly(refs, env, 0, 7), after, env, "main", head, ["work"], 7, err) && Reaches(head, MAIN)
    ensures !err && Kept(Advance(refs, Move("work", LATE)), LATE) && !Kept(after, LATE)
  {
    OthersSilent(refs, env, 7);
    assert LATE.parents[0] == WORK && Reaches(LATE, WORK);
    var late := Advance(refs, Move("work", LATE));
    assert late == refs["work" := LATE];
    assert late["work"] == LATE && Reaches(LATE, LATE);
    assert AdvanceAll(refs, env.moves(7)) == late by {
      assert env.moves(7) == [Move("work", LATE)] && env.moves(7)[1..] == [];
    }
    assert env.Goes(7) && Accepts(refs, env, "main", head, 7);
    assert !Reaches(MAIN, LATE) && !Reaches(WORK, LATE);
    assert !Kept(refs, LATE) && !Made(env, LATE);
    SurvivorsExactly(refs, env, "main", head, ["work"], 7, LATE);
  }
}
