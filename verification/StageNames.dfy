/** Stage IDs and branch names (internal/workflow/engine.go): which stage of a workflow a string names. */
module StageNames {

  /** The stages a workflow can have: `Implement(i)` works on task i, `Verify(i)` checks it. */
  datatype StageId = Research | Plan | Implement(i: nat) | Verify(i: nat) | Merge

  const DIGITS := ['0', '1', '2', '3', '4', '5', '6', '7', '8', '9']

  /** Decimal printing, without leading zeros. */
  function Dec(n: nat): (s: string)
    ensures s != [] && forall k | 0 <= k < |s| :: s[k] in DIGITS
    ensures n > 0 ==> s[0] != '0'
    ensures n < 10 ==> |s| == 1
  {
    if n < 10 then [DIGITS[n]] else Dec(n / 10) + [DIGITS[n % 10]]
  }

  /** The number a string of digits stands for. */
  function Value(s: string): int
    requires forall k | 0 <= k < |s| :: s[k] in DIGITS
  {
    if s == [] then 0 else 10 * Value(s[..|s| - 1]) + (s[|s| - 1] as int - '0' as int)
  }

  lemma {:induction false} DecValue(n: nat)
    ensures Value(Dec(n)) == n
  {
    var s := Dec(n);
    if n >= 10 {
      DecValue(n / 10);
      assert s[..|s| - 1] == Dec(n / 10);
    } else {
      assert s[..0] == [];
    }
  }

  lemma DecInjective(a: nat, b: nat)
    requires Dec(a) == Dec(b)
    ensures a == b
  {
    DecValue(a);
    DecValue(b);
  }

  /** The ID string of a stage of workflow `wf`. */
  function Render(wf: string, s: StageId): string {
    match s
    case Research => wf + "-research"
    case Plan => wf + "-plan"
    case Implement(i) => wf + ("-implement-" + Dec(i))
    case Verify(i) => wf + (("-implement-" + Dec(i)) + "-verify")
    case Merge => wf + "-merge"
  }

  lemma SamePrefix(p: string, a: string, b: string)
    requires p + a == p + b
    ensures a == b
  {
    assert a == (p + a)[|p|..] && b == (p + b)[|p|..];
  }

  lemma SameSuffix(a: string, b: string, t: string)
    requires a + t == b + t
    ensures a == b
  {
    assert |a| == |b|;
    assert a == (a + t)[..|a|] && b == (b + t)[..|b|];
  }

  /** What Render adds to the workflow ID. */
  function Tail(s: StageId): string {
    Render("", s)
  }

  lemma RenderTail(wf: string, s: StageId)
    ensures Render(wf, s) == wf + Tail(s)
  {
    match s
    case Research => EmptyPrefix("-research");
    case Plan => EmptyPrefix("-plan");
    case Implement(i) => EmptyPrefix("-implement-" + Dec(i));
    case Verify(i) => EmptyPrefix(("-implement-" + Dec(i)) + "-verify");
    case Merge => EmptyPrefix("-merge");
  }

  lemma EmptyPrefix(t: string)
    ensures "" + t == t
  {
  }

  lemma TailShape(s: StageId)
    ensures |Tail(s)| >= 5
    ensures s.Research? ==> Tail(s)[1] == 'r'
    ensures s.Plan? ==> Tail(s)[1] == 'p'
    ensures s.Merge? ==> Tail(s)[1] == 'm'
    ensures s.Implement? ==>
        Tail(s)[1] == 'i' && Tail(s)[|Tail(s)| - 1] in DIGITS && Tail(s) == "-implement-" + Dec(s.i)
    ensures s.Verify? ==>
        Tail(s)[1] == 'i' && Tail(s)[|Tail(s)| - 1] == 'y' && Tail(s) == "-implement-" + Dec(s.i) + "-verify"
  {
    if s.Implement? || s.Verify? {
      var d := Dec(s.i);
      var t := "-implement-" + d;
      assert "" + t == t && "" + (t + "-verify") == t + "-verify";
      assert t[|t| - 1] == d[|d| - 1];
    } else {
      assert "" + "-research" == "-research" && "" + "-plan" == "-plan" && "" + "-merge" == "-merge";
    }
  }

  /** Stage identity: within a workflow, different stages have different ID strings. */
  lemma RenderInjective(wf: string, a: StageId, b: StageId)
    requires Render(wf, a) == Render(wf, b)
    ensures a == b
  {
    RenderTail(wf, a);
    RenderTail(wf, b);
    SamePrefix(wf, Tail(a), Tail(b));
    TailShape(a);
    TailShape(b);
    if a.Implement? && b.Implement? {
      SamePrefix("-implement-", Dec(a.i), Dec(b.i));
      DecInjective(a.i, b.i);
    } else if a.Verify? && b.Verify? {
      SameSuffix("-implement-" + Dec(a.i), "-implement-" + Dec(b.i), "-verify");
      SamePrefix("-implement-", Dec(a.i), Dec(b.i));
      DecInjective(a.i, b.i);
    }
  }

  function Short(wf: string): string {
    if |wf| > 8 then wf[..8] else wf
  }

  function ImplementBranchName(wf: string, task: nat): string {
    "implement/" + (Short(wf) + ("-" + Dec(task)))
  }

  /** Within a workflow, different tasks have different branch names. */
  lemma TasksHaveOwnBranches(wf: string, i: nat, j: nat)
    requires ImplementBranchName(wf, i) == ImplementBranchName(wf, j)
    ensures i == j
  {
    SamePrefix("implement/", Short(wf) + ("-" + Dec(i)), Short(wf) + ("-" + Dec(j)));
    SamePrefix(Short(wf), "-" + Dec(i), "-" + Dec(j));
    SamePrefix("-", Dec(i), Dec(j));
    DecInjective(i, j);
  }

  /** Branch names of workflows with IDs of eight characters or more coincide exactly for the same task
      number and the same first eight characters. */
  lemma BranchNamesExactly(wf1: string, i: nat, wf2: string, j: nat)
    requires |wf1| >= 8 && |wf2| >= 8
    ensures ImplementBranchName(wf1, i) == ImplementBranchName(wf2, j) <==> wf1[..8] == wf2[..8] && i == j
  {
    assert wf1[..8] == Short(wf1) && wf2[..8] == Short(wf2);
    if ImplementBranchName(wf1, i) == ImplementBranchName(wf2, j) {
      var a, b := Short(wf1) + ("-" + Dec(i)), Short(wf2) + ("-" + Dec(j));
      SamePrefix("implement/", a, b);
      assert a[..8] == Short(wf1) && b[..8] == Short(wf2);
      TasksHaveOwnBranches(wf1, i, j);
    }
  }
}
