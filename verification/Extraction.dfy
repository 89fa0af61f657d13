/** Pulling JSON out of agent output and checking it (internal/workflow/validator.go). The three
    decoders of encoding/json are parameters. */
module Extraction {
  import opened Options

  /** A match of a regular expression: the text from `start` up to but not including `end`. */
  datatype Loc = Loc(start: nat, end: nat)

  datatype Task = Task(id: string, description: string)
  datatype TerminalBlock = TerminalBlock(committed: bool, commitSHA: string, buildOK: bool)
  datatype Verdict = Verdict(pass: bool, issues: seq<string>)

  datatype Json = Json(tasks: string -> Option<seq<Task>>, terminal: string -> Option<TerminalBlock>,
      verdict: string -> Option<Verdict>)

  // ----- the array pattern: from a bracket to a closing bracket, anything between -----------------

  predicate ArrayMatch(s: string, l: Loc) {
    l.start + 2 <= l.end <= |s| && s[l.start] == '[' && s[l.end - 1] == ']'
  }

  /** The match the engine reports: the leftmost, and of those the longest. */
  ghost predicate IsArrayMatch(s: string, r: Option<Loc>) {
    match r
    case None => forall l :: !ArrayMatch(s, l)
    case Some(m) => ArrayMatch(s, m) && forall l | ArrayMatch(s, l) ::
      m.start < l.start || (m.start == l.start && l.end <= m.end)
  }

  /** The first place of `c` at or after `k`, or the length. */
  function IndexFrom(s: string, c: char, k: nat): (i: nat)
    requires k <= |s|
    ensures k <= i <= |s| && (i < |s| ==> s[i] == c) && forall j | k <= j < i :: s[j] != c
    decreases |s| - k
  {
    if k == |s| || s[k] == c then k else IndexFrom(s, c, k + 1)
  }

  /** Just past the last place of `c` before `k`, or zero. */
  function LastBefore(s: string, c: char, k: nat): (e: nat)
    requires k <= |s|
    ensures e <= k && (e > 0 ==> s[e - 1] == c) && forall j | e <= j < k :: s[j] != c
  {
    if k == 0 || s[k - 1] == c then k else LastBefore(s, c, k - 1)
  }

  /** First opening bracket to last closing bracket. */
  function FindArray(s: string): (r: Option<Loc>)
    ensures IsArrayMatch(s, r)
  {
    var i, e := IndexFrom(s, '[', 0), LastBefore(s, ']', |s|);
    if i + 2 <= e then Some(Loc(i, e)) else None
  }

  /** Prose around an array is ignored exactly when it has no opening bracket before the array and no
      closing bracket after it. */
  lemma WrappedArray(pre: string, arr: string, post: string)
    requires ArrayMatch(arr, Loc(0, |arr|))
    ensures FindArray(pre + arr + post) == Some(Loc(|pre|, |pre| + |arr|)) <==> '[' !in pre && ']' !in post
  {
    var s := pre + arr + post;
    var m := Loc(|pre|, |pre| + |arr|);
    assert s[|pre|] == '[' && s[|pre| + |arr| - 1] == ']';
    assert ArrayMatch(s, m);
    if '[' in pre {
      var i :| 0 <= i < |pre| && pre[i] == '[';
      assert ArrayMatch(s, Loc(i, m.end));
    }
    if ']' in post {
      var i :| 0 <= i < |post| && post[i] == ']';
      assert s[m.end + i] == ']';
      assert ArrayMatch(s, Loc(m.start, m.end + i + 1));
    }
    if '[' !in pre && ']' !in post {
      forall i | 0 <= i < |pre| ensures s[i] != '[' { assert s[i] == pre[i]; }
      forall i | m.end <= i < |s| ensures s[i] != ']' { assert s[i] == post[i - m.end]; }
    }
  }

  // ----- the block pattern: a brace pair with no brace inside that holds a keyword -----------------

  predicate HasAt(s: string, key: string, k: nat) {
    k + |key| <= |s| && s[k..k + |key|] == key
  }

  predicate Contains(s: string, key: string) {
    exists k | 0 <= k <= |s| :: HasAt(s, key, k)
  }

  /** Being a substring. */
  lemma ContainsExactly(s: string, key: string)
    ensures Contains(s, key) <==> exists pre, post :: s == pre + key + post
  {
    if k :| 0 <= k <= |s| && HasAt(s, key, k) {
      assert s == s[..k] + key + s[k + |key|..];
    }
    if pre, post :| s == pre + key + post {
      assert HasAt(s, key, |pre|);
    }
  }

  predicate NoBrace(s: string, from: nat, to: nat)
    requires from <= to <= |s|
  {
    forall k | from <= k < to :: s[k] != '{' && s[k] != '}'
  }

  predicate BlockMatch(s: string, key: string, l: Loc) {
    && l.start + 2 <= l.end <= |s| && s[l.start] == '{' && s[l.end - 1] == '}'
    && NoBrace(s, l.start + 1, l.end - 1)
    && Contains(s[l.start + 1..l.end - 1], key)
  }

  /** The leftmost match; from one opening brace there is at most one. */
  ghost predicate IsBlockMatch(s: string, key: string, r: Option<Loc>) {
    match r
    case None => forall l :: !BlockMatch(s, key, l)
    case Some(m) => BlockMatch(s, key, m) && forall l | BlockMatch(s, key, l) :: m == l || m.start < l.start
  }

  /** One pass over the text from `k` on; `open` is the last opening brace with no brace after it. */
  function Scan(s: string, key: string, k: nat, open: Option<nat>): (r: Option<Loc>)
    requires k <= |s|
    requires open.Some? ==> open.value < k && s[open.value] == '{' && NoBrace(s, open.value + 1, k)
    ensures r.Some? ==> BlockMatch(s, key, r.value) && r.value.end > k
    ensures forall l | BlockMatch(s, key, l) && l.end > k && (l.start >= k || open == Some(l.start))
              :: r.Some? && (r.value == l || r.value.start < l.start)
    decreases |s| - k
  {
    if k == |s| then None
    else if s[k] == '{' then Scan(s, key, k + 1, Some(k))
    else if s[k] == '}' then
      if open.Some? && Contains(s[open.value + 1..k], key) then Some(Loc(open.value, k + 1))
      else Scan(s, key, k + 1, None)
    else Scan(s, key, k + 1, open)
  }

  function FindBlock(s: string, key: string): (r: Option<Loc>)
    ensures IsBlockMatch(s, key, r)
  {
    Scan(s, key, 0, None)
  }

  lemma SliceOfSlice(s: string, from: nat, to: nat, a: nat, b: nat)
    requires from <= to <= |s| && a <= b <= to - from
    ensures s[from..to][a..b] == s[from + a..from + b]
  {
    forall k | 0 <= k < b - a ensures s[from..to][a..b][k] == s[from + a..from + b][k] {}
  }

  /** A match is a match wherever the text is cut around it. */
  lemma BlockMatchShift(s: string, key: string, from: nat, to: nat, l: Loc)
    requires from <= to <= |s|
    ensures BlockMatch(s[from..to], key, l) <==>
              l.end <= to - from && BlockMatch(s, key, Loc(from + l.start, from + l.end))
  {
    var t := s[from..to];
    if l.start + 2 <= l.end <= |t| {
      SliceOfSlice(s, from, to, l.start + 1, l.end - 1);
      assert NoBrace(t, l.start + 1, l.end - 1) <==> NoBrace(s, from + l.start + 1, from + l.end - 1) by {
        forall k | l.start + 1 <= k < l.end - 1 ensures t[k] == s[from + k] {}
        forall k | from + l.start + 1 <= k < from + l.end - 1 ensures s[k] == t[k - from] {}
      }
    }
  }

  /** Prose around a block is ignored exactly when no earlier group in it matches; what follows the
      block never matters. */
  lemma WrappedBlock(pre: string, block: string, post: string, key: string)
    requires BlockMatch(block, key, Loc(0, |block|))
    ensures FindBlock(pre + block + post, key) == Some(Loc(|pre|, |pre| + |block|)) <==> FindBlock(pre, key) == None
  {
    var s := pre + block + post;
    assert s[|pre|..|pre| + |block|] == block && s[0..|pre|] == pre;
    MatchAt(s, key, |pre|, |pre| + |block|, FindBlock(s, key), FindBlock(pre, key));
  }

  /** A match of the whole stretch from p to e is the match reported exactly when nothing before p matches. */
  lemma MatchAt(s: string, key: string, p: nat, e: nat, r: Option<Loc>, q: Option<Loc>)
    requires p <= e <= |s| && BlockMatch(s[p..e], key, Loc(0, e - p))
    requires IsBlockMatch(s, key, r) && IsBlockMatch(s[0..p], key, q)
    ensures r == Some(Loc(p, e)) <==> q == None
  {
    BlockMatchShift(s, key, p, e, Loc(0, e - p));
    if q.Some? {
      BlockMatchShift(s, key, 0, p, q.value);
    } else if r.value.start < p {
      BlockMatchShift(s, key, 0, p, r.value);
    }
  }

  // ----- trimming ------------------------------------------------------------------------------------

  /** The white space strings.TrimSpace removes. */
  predicate IsSpace(c: char) {
    var n := c as int;
    || 9 <= n <= 13 || n == 32 || n == 0x85 || n == 0xA0 || n == 0x1680 || 0x2000 <= n <= 0x200a
    || n == 0x2028 || n == 0x2029 || n == 0x202f || n == 0x205f || n == 0x3000
  }

  function SpaceEnd(s: string, k: nat): (a: nat)
    requires k <= |s|
    ensures k <= a <= |s| && (a < |s| ==> !IsSpace(s[a])) && forall j | k <= j < a :: IsSpace(s[j])
    decreases |s| - k
  {
    if k < |s| && IsSpace(s[k]) then SpaceEnd(s, k + 1) else k
  }

  function SpaceStart(s: string, from: nat, k: nat): (b: nat)
    requires from <= k <= |s|
    ensures from <= b <= k && (b > from ==> !IsSpace(s[b - 1])) && forall j | b <= j < k :: IsSpace(s[j])
  {
    if k > from && IsSpace(s[k - 1]) then SpaceStart(s, from, k - 1) else k
  }

  function TrimSpace(s: string): string {
    var a := SpaceEnd(s, 0);
    s[a..SpaceStart(s, a, |s|)]
  }

  /** Only white space is cut off, and none is left at either end. */
  predicate IsTrimmed(s: string, a: nat, b: nat) {
    && a <= b <= |s| && (forall i | 0 <= i < a :: IsSpace(s[i])) && (forall i | b <= i < |s| :: IsSpace(s[i]))
    && (a < b ==> !IsSpace(s[a]) && !IsSpace(s[b - 1]))
  }

  lemma TrimExactly(s: string)
    ensures exists a: nat, b: nat :: IsTrimmed(s, a, b) && TrimSpace(s) == s[a..b]
  {
    var a := SpaceEnd(s, 0);
    assert IsTrimmed(s, a, SpaceStart(s, a, |s|));
  }

  /** The keys the two patterns look for, with their quotes. */
  const PASS := "\"pass\""
  const COMMITTED := "\"committed\""

  function FirstBlock(s: string, key: string): string {
    var t := TrimSpace(s);
    match FindBlock(t, key)
    case None => t
    case Some(l) => t[l.start..l.end]
  }

  function ExtractVerifyBlock(s: string): string {
    FirstBlock(s, PASS)
  }

  /** Trimming first makes no difference to the block that is found. */
  lemma FirstBlockIgnoresTrim(s: string, key: string)
    ensures FirstBlock(s, key) == match FindBlock(s, key) case None => TrimSpace(s) case Some(l) => s[l.start..l.end]
  {
    var a := SpaceEnd(s, 0);
    var b := SpaceStart(s, a, |s|);
    CutKeepsText(s, key, a, b, FindBlock(s, key), FindBlock(s[a..b], key));
  }

  lemma CutKeepsText(s: string, key: string, a: nat, b: nat, r: Option<Loc>, q: Option<Loc>)
    requires a <= b <= |s| && (forall k | 0 <= k < a :: IsSpace(s[k])) && forall k | b <= k < |s| :: IsSpace(s[k])
    requires IsBlockMatch(s, key, r) && IsBlockMatch(s[a..b], key, q)
    ensures r.None? <==> q.None?
    ensures r.Some? ==> s[a..b][q.value.start..q.value.end] == s[r.value.start..r.value.end]
  {
    CutKeepsBlock(s, key, a, b, r, q);
    if r.Some? {
      SliceOfSlice(s, a, b, q.value.start, q.value.end);
    }
  }

  lemma ExtractIgnoresTrim(s: string)
    ensures ExtractVerifyBlock(s) ==
              match FindBlock(s, PASS) case None => TrimSpace(s) case Some(l) => s[l.start..l.end]
  {
    FirstBlockIgnoresTrim(s, PASS);
  }

  /** White space cut off at both ends was in no match. */
  lemma CutKeepsMatch(s: string, key: string, a: nat, b: nat, l: Loc)
    requires a <= b <= |s| && (forall k | 0 <= k < a :: IsSpace(s[k])) && forall k | b <= k < |s| :: IsSpace(s[k])
    requires BlockMatch(s, key, l)
    ensures a <= l.start && l.end <= b && BlockMatch(s[a..b], key, Loc(l.start - a, l.end - a))
  {
    assert !IsSpace('{') && !IsSpace('}');
    assert s[l.start] == '{' && s[l.end - 1] == '}';
    BlockMatchShift(s, key, a, b, Loc(l.start - a, l.end - a));
  }

  /** Cutting white space off both ends shifts the match and nothing else. */
  lemma CutKeepsBlock(s: string, key: string, a: nat, b: nat, r: Option<Loc>, q: Option<Loc>)
    requires a <= b <= |s| && (forall k | 0 <= k < a :: IsSpace(s[k])) && forall k | b <= k < |s| :: IsSpace(s[k])
    requires IsBlockMatch(s, key, r) && IsBlockMatch(s[a..b], key, q)
    ensures match r
            case None => q == None
            case Some(l) => a <= l.start && l.end <= b && q == Some(Loc(l.start - a, l.end - a))
  {
    if q.Some? {
      BlockMatchShift(s, key, a, b, q.value);
    }
    if r.Some? {
      CutKeepsMatch(s, key, a, b, r.value);
    }
  }

  // ----- the validators ------------------------------------------------------------------------------

  datatype PlanResult =
    | Tasks(tasks: seq<Task>)
    | NoArray
    | BadJson
    | NoTasks
    | MissingID(index: nat)
    | MissingDescription(index: nat)

  predicate WellFormed(t: Task) {
    t.id != "" && t.description != ""
  }

  /** ValidatePlanOutput: accepted are exactly the non-empty lists of tasks with an ID and a
      description; otherwise the first fault is reported. */
  method ValidatePlanOutput(j: Json, output: string) returns (r: PlanResult)
    ensures r == PlanVerdict(j, output)
  {
    var loc := FindArray(output);
    if loc == None {
      return NoArray;
    }
    var parsed := j.tasks(output[loc.value.start..loc.value.end]);
    if parsed == None {
      return BadJson;
    }
    var tasks := parsed.value;
    if |tasks| == 0 {
      return NoTasks;
    }
    var i := 0;
    while i < |tasks|
      invariant 0 <= i <= |tasks|
      invariant FirstFault(tasks, 0) == FirstFault(tasks, i)
    {
      if tasks[i].id == "" {
        return MissingID(i);
      }
      if tasks[i].description == "" {
        return MissingDescription(i);
      }
      i := i + 1;
    }
    r := Tasks(tasks);
  }

  function FirstFault(tasks: seq<Task>, i: nat): (r: PlanResult)
    requires i <= |tasks|
    ensures r.Tasks? <==> forall k | i <= k < |tasks| :: WellFormed(tasks[k])
    ensures r.MissingID? ==> i <= r.index < |tasks| && tasks[r.index].id == ""
    ensures r.MissingDescription? ==>
        i <= r.index < |tasks| && tasks[r.index].id != "" && tasks[r.index].description == ""
    ensures r.MissingID? || r.MissingDescription? ==> forall k | i <= k < r.index :: WellFormed(tasks[k])
    ensures r.Tasks? || r.MissingID? || r.MissingDescription?
    ensures r.Tasks? ==> r.tasks == tasks
    decreases |tasks| - i
  {
    if i == |tasks| then Tasks(tasks)
    else if tasks[i].id == "" then MissingID(i)
    else if tasks[i].description == "" then MissingDescription(i)
    else FirstFault(tasks, i + 1)
  }

  function JudgePlan(j: Json, raw: string): (r: PlanResult)
    ensures r != NoArray
    ensures r.Tasks? ==> r.tasks != [] && forall k | 0 <= k < |r.tasks| :: WellFormed(r.tasks[k])
  {
    match j.tasks(raw)
    case None => BadJson
    case Some(tasks) => if tasks == [] then NoTasks else FirstFault(tasks, 0)
  }

  function PlanVerdict(j: Json, output: string): (r: PlanResult)
    ensures r.Tasks? ==> r.tasks != [] && forall k | 0 <= k < |r.tasks| :: WellFormed(r.tasks[k])
  {
    match FindArray(output)
    case None => NoArray
    case Some(l) => JudgePlan(j, output[l.start..l.end])
  }

  datatype Issue = NoTerminalBlock | NotCommitted | NoCommitSHA | BuildFailed

  function ValidateImplementOutput(j: Json, output: string): (r: (bool, seq<Issue>))
    ensures r.0 <==> r.1 == []
  {
    match FindBlock(output, COMMITTED)
    case None => (false, [NoTerminalBlock])
    case Some(l) =>
      match j.terminal(output[l.start..l.end])
      case None => (false, [NoTerminalBlock])
      case Some(block) =>
        var issues :=
          (if !block.committed then [NotCommitted] else []) + (if block.commitSHA == "" then [NoCommitSHA] else [])
                      + (if !block.buildOK then [BuildFailed] else []);
        (issues == [], issues)
  }

  predicate ImplementOk(j: Json, output: string) {
    ValidateImplementOutput(j, output).0
  }

  predicate VerifyPasses(j: Json, output: string) {
    var v := j.verdict(ExtractVerifyBlock(output));
    v.Some? && v.value.pass
  }

  /** The first match in the output. */
  ghost predicate FirstMatch(s: string, key: string, l: Loc) {
    BlockMatch(s, key, l) && forall m | BlockMatch(s, key, m) :: m == l || l.start < m.start
  }

  /** Output is accepted exactly when its first terminal block decodes to a commit with a hash and a
      good build; empty output never is. */
  lemma ImplementOkExactly(j: Json, output: string)
    ensures ImplementOk(j, output) <==>
      exists l, b :: FirstMatch(output, "\"committed\"", l) && j.terminal(output[l.start..l.end]) == Some(b)
        && b.committed && b.commitSHA != "" && b.buildOK
    ensures !ImplementOk(j, "")
  {
    var r := FindBlock(output, COMMITTED);
    if r.Some? && j.terminal(output[r.value.start..r.value.end]).Some? {
      var b := j.terminal(output[r.value.start..r.value.end]).value;
      assert ImplementOk(j, output) <==> b.committed && b.commitSHA != "" && b.buildOK;
      assert FirstMatch(output, COMMITTED, r.value) && j.terminal(output[r.value.start..r.value.end]) == Some(b);
    }
  }

  /** The faults named are the faults there are. */
  lemma IssuesExactly(j: Json, output: string, l: Loc, b: TerminalBlock)
    requires FirstMatch(output, "\"committed\"", l) && j.terminal(output[l.start..l.end]) == Some(b)
    ensures var issues := ValidateImplementOutput(j, output).1;
      && (NotCommitted in issues <==> !b.committed) && (NoCommitSHA in issues <==> b.commitSHA == "")
      && (BuildFailed in issues <==> !b.buildOK) && NoTerminalBlock !in issues
  {
    assert FindBlock(output, COMMITTED) == Some(l);
  }

  /** A verification passes exactly when the first block that mentions the verdict, or the trimmed text when there
      is none, decodes to a verdict that says pass. */
  lemma VerifyPassesExactly(j: Json, output: string)
    ensures VerifyPasses(j, output) <==>
      (exists l, v :: FirstMatch(output, "\"pass\"", l) && j.verdict(output[l.start..l.end]) == Some(v) && v.pass)
      || ((forall l :: !BlockMatch(output, "\"pass\"", l))
          && exists v :: j.verdict(TrimSpace(output)) == Some(v) && v.pass)
  {
    ExtractIgnoresTrim(output);
    var r := FindBlock(output, PASS);
    if r.Some? {
      assert FirstMatch(output, "\"pass\"", r.value);
    }
  }

  /** The verdict on a plan, case by case: what was found, */
  lemma PlanVerdictExactly(j: Json, output: string)
    ensures PlanVerdict(j, output) == NoArray <==> forall l :: !ArrayMatch(output, l)
    ensures forall l | IsArrayMatch(output, Some(l)) :: PlanVerdict(j, output) == JudgePlan(j, output[l.start..l.end])
  {
    var found := FindArray(output);
    forall l | IsArrayMatch(output, Some(l)) ensures found == Some(l) {
    }
    if found.Some? {
      assert ArrayMatch(output, found.value);
    }
  }

  /** and what it decodes to: exactly the non-empty lists of tasks with an ID and a description are accepted, and of
      the others the first fault is named. */
  lemma JudgeExactly(j: Json, raw: string, tasks: seq<Task>)
    ensures JudgePlan(j, raw) == BadJson <==> j.tasks(raw) == None
    ensures JudgePlan(j, raw) == Tasks(tasks) <==>
      j.tasks(raw) == Some(tasks) && tasks != [] && NamedUpTo(tasks, |tasks|)
    ensures j.tasks(raw) == Some(tasks) ==> FirstFaultNamed(JudgePlan(j, raw), tasks)
  {
  }

  /** The fault that is named is the first there is. */
  predicate FirstFaultNamed(r: PlanResult, tasks: seq<Task>) {
    match r
    case Tasks(_) => true
    case NoTasks => tasks == []
    case MissingID(i) => i < |tasks| && tasks[i].id == "" && NamedUpTo(tasks, i)
    case MissingDescription(i) => i < |tasks| && tasks[i].id != "" && tasks[i].description == "" && NamedUpTo(tasks, i)
    case _ => false
  }

  predicate NamedUpTo(tasks: seq<Task>, i: nat)
    requires i <= |tasks|
  {
    forall k | 0 <= k < i :: tasks[k].id != "" && tasks[k].description != ""
  }

  /** The text found in wrapped output is the text found without the wrapping. */
  lemma SameText(pre: string, core: string, post: string)
    ensures (pre + core + post)[|pre|..|pre| + |core|] == core && core[0..|core|] == core && [] + core + [] == core
  {
  }

  /** Prose around the agent's JSON does not change the verdict on a plan, */
  lemma WrappingKeepsPlan(j: Json, pre: string, core: string, post: string)
    requires ArrayMatch(core, Loc(0, |core|)) && '[' !in pre && ']' !in post
    ensures PlanVerdict(j, pre + core + post) == PlanVerdict(j, core)
  {
    SameText(pre, core, post);
    assert PlanVerdict(j, pre + core + post) == JudgePlan(j, core);
    assert PlanVerdict(j, core) == JudgePlan(j, core);
  }

  lemma WrappedBlockText(pre: string, core: string, post: string, key: string)
    requires BlockMatch(core, key, Loc(0, |core|)) && FindBlock(pre, key) == None
    ensures FindBlock(pre + core + post, key) == Some(Loc(|pre|, |pre| + |core|))
    ensures FindBlock(core, key) == Some(Loc(0, |core|))
  {
    SameText(pre, core, post);
    WrappedBlock(pre, core, post, key);
    WrappedBlock([], core, [], key);
  }

  /** nor on an implement stage, */
  lemma WrappingKeepsImplement(j: Json, pre: string, core: string, post: string)
    requires BlockMatch(core, COMMITTED, Loc(0, |core|)) && FindBlock(pre, COMMITTED) == None
    ensures ValidateImplementOutput(j, pre + core + post) == ValidateImplementOutput(j, core)
  {
    SameText(pre, core, post);
    WrappedBlockText(pre, core, post, COMMITTED);
  }

  /** nor on a verification. */
  lemma WrappingKeepsVerify(j: Json, pre: string, core: string, post: string)
    requires BlockMatch(core, PASS, Loc(0, |core|)) && FindBlock(pre, PASS) == None
    ensures VerifyPasses(j, pre + core + post) == VerifyPasses(j, core)
  {
    SameText(pre, core, post);
    WrappedBlockText(pre, core, post, PASS);
    ExtractIgnoresTrim(pre + core + post);
    ExtractIgnoresTrim(core);
  }
}
