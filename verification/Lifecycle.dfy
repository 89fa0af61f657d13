/** The session lifecycle state machine (internal/session/statemachine.go). */
module Lifecycle {

  datatype State =
    | Provisioning | Booting | WaitingSSH | Configuring
    | Ready | Stopping | Stopped | Failed

  /** The transition table; Stopped and Failed are terminal. */
  function ValidTransitions(from: State): seq<State> {
    match from
    case Provisioning => [Booting, Failed]
    case Booting => [WaitingSSH, Failed]
    case WaitingSSH => [Configuring, Failed]
    case Configuring => [Ready, Failed]
    case Ready => [Stopping]
    case Stopping => [Stopped]
    case Stopped => []
    case Failed => []
  }

  predicate Allowed(from: State, to: State) {
    to in ValidTransitions(from)
  }

  /** One call of a transition hook. */
  datatype HookCall = HookCall(hook: nat, from: State, to: State)

  class StateMachine {
    var current: State
    var hooks: seq<nat>
    var fired: seq<HookCall>

    constructor (initial: State)
      ensures current == initial && hooks == [] && fired == []
    {
      current, hooks, fired := initial, [], [];
    }

    method OnTransition(hook: nat)
      modifies this`hooks
      ensures hooks == old(hooks) + [hook]
    {
      hooks := hooks + [hook];
    }

    /** Moves to `to` exactly when the table has the pair; a refused request changes nothing. */
    method Transition(to: State) returns (ok: bool)
      modifies this`current, this`fired
      ensures ok <==> Allowed(old(current), to)
      ensures current == if ok then to else old(current)
      ensures |fired| == |old(fired)| + (if ok then |hooks| else 0) && fired[..|old(fired)|] == old(fired)
      ensures ok ==> forall i | 0 <= i < |hooks| :: fired[|old(fired)| + i] == HookCall(hooks[i], old(current), to)
    {
      var from := current;
      var allowed := ValidTransitions(from);
      ok := false;
      var i := 0;
      while i < |allowed|
        invariant 0 <= i <= |allowed|
        invariant ok <==> to in allowed[..i]
      {
        if allowed[i] == to {
          ok := true;
          assert to in allowed[..i + 1];
          break;
        }
        i := i + 1;
      }
      if !ok {
        assert allowed[..i] == allowed;
        return;
      }
      current := to;
      i := 0;
      while i < |hooks|
        invariant 0 <= i <= |hooks| && current == to
        invariant |fired| == |old(fired)| + i && fired[..|old(fired)|] == old(fired)
        invariant forall k | 0 <= k < i :: fired[|old(fired)| + k] == HookCall(hooks[k], from, to)
      {
        fired := fired + [HookCall(hooks[i], from, to)];
        i := i + 1;
      }
    }
  }

  // ----- traces ---------------------------------------------------------------

  /** The states entered when `requests` are made one after another from state `s`. */
  function Accepted(s: State, requests: seq<State>): seq<State>
    decreases requests
  {
    if requests == [] then []
    else if Allowed(s, requests[0]) then [requests[0]] + Accepted(requests[0], requests[1..])
    else Accepted(s, requests[1..])
  }

  /** The full life of a session, in order. */
  const CHAIN := [Provisioning, Booting, WaitingSSH, Configuring, Ready, Stopping, Stopped]

  /** Where a state stands in the chain; Failed has no place in it. */
  function Rank(s: State): (r: nat)
    requires s != Failed
    ensures r < |CHAIN| && CHAIN[r] == s
  {
    match s
    case Provisioning => 0 case Booting => 1 case WaitingSSH => 2 case Configuring => 3
    case Ready => 4 case Stopping => 5 case Stopped => 6
  }

  /** The first `n` states of `t` follow place `r` of the chain one by one. */
  ghost predicate OnChain(r: nat, t: seq<State>, n: int)
    requires n <= |t| && r + n < |CHAIN|
  {
    forall i | 0 <= i < n :: t[i] == CHAIN[r + 1 + i]
  }

  /** A lawful continuation from `s`: a stretch of the chain, which before Ready may break off into Failed. */
  ghost predicate LawfulFrom(s: State, t: seq<State>) {
    if s == Failed then t == []
    else
      var r := Rank(s);
      || (|t| <= 6 - r && OnChain(r, t, |t|))
      || (0 < |t| <= 4 - r && OnChain(r, t, |t| - 1) && t[|t| - 1] == Failed)
  }

  lemma {:induction false} AcceptedIsLawful(s: State, requests: seq<State>)
    ensures LawfulFrom(s, Accepted(s, requests))
    decreases requests
  {
    if requests == [] {
    } else if Allowed(s, requests[0]) {
      var to := requests[0];
      AcceptedIsLawful(to, requests[1..]);
      LawfulStep(s, to, Accepted(to, requests[1..]));
    } else {
      AcceptedIsLawful(s, requests[1..]);
    }
  }

  lemma LawfulStep(s: State, to: State, t: seq<State>)
    requires Allowed(s, to) && LawfulFrom(to, t)
    ensures LawfulFrom(s, [to] + t)
  {
    var r, u := Rank(s), [to] + t;
    if to != Failed {
      assert Rank(to) == r + 1;
      forall i | 1 <= i < |u| ensures u[i] == t[i - 1] {}
      if |t| <= 5 - r && OnChain(r + 1, t, |t|) {
        assert OnChain(r, u, |u|);
      } else {
        assert OnChain(r, u, |u| - 1);
      }
    }
  }

  lemma {:induction false} LawfulIsAccepted(s: State, t: seq<State>)
    requires LawfulFrom(s, t)
    ensures Accepted(s, t) == t
    decreases t
  {
    if t != [] {
      var r := Rank(s);
      if t[0] == Failed {
        assert t == [Failed];
      } else {
        assert t[0] == CHAIN[r + 1] && Rank(t[0]) == r + 1;
        if |t| <= 6 - r && OnChain(r, t, |t|) {
          assert OnChain(r + 1, t[1..], |t| - 1);
        } else {
          assert OnChain(r + 1, t[1..], |t| - 2);
        }
        LawfulIsAccepted(t[0], t[1..]);
      }
    }
  }

  /** The traces a new session can leave are exactly the lawful ones, whatever is requested. */
  lemma TracesAreExactlyLawful(t: seq<State>)
    ensures (exists requests :: Accepted(Provisioning, requests) == t) <==> LawfulFrom(Provisioning, t)
  {
    if LawfulFrom(Provisioning, t) {
      LawfulIsAccepted(Provisioning, t);
    }
    forall requests | Accepted(Provisioning, requests) == t
      ensures LawfulFrom(Provisioning, t)
    {
      AcceptedIsLawful(Provisioning, requests);
    }
  }

  /** At most six moves; Stopped only through the whole chain; nothing but Stopping and Stopped after Ready. */
  lemma TraceShape(requests: seq<State>)
    ensures var t := Accepted(Provisioning, requests);
      && |t| <= 6
      && (Stopped in t ==> t == CHAIN[1..])
      && (forall i, j :: 0 <= i < j < |t| && t[i] == Ready ==> t[j] in {Stopping, Stopped})
  {
    AcceptedIsLawful(Provisioning, requests);
    var t := Accepted(Provisioning, requests);
    if |t| <= 6 && OnChain(0, t, |t|) {
      forall i | 0 <= i < |t| ensures t[i] == CHAIN[i + 1] {}
    } else {
      forall i | 0 <= i < |t| - 1 ensures t[i] == CHAIN[i + 1] {}
    }
  }
}
