/**
 * The loopback listener of the OAuth flow: which request decides the result, and why a
 * cancelled flow never leaves the listener blocked.
 */
module Listener {
  import opened Prelude
  import opened Text

  datatype OAuthError =
    | InvalidCallbackTarget
    | MissingAuthorizationCode
    | EmptyAuthorizationCode
    | MissingState
    | AccessDenied(description: string)
    | ProviderCallbackError(description: string)
    | Cancelled
    | ListenerBindFailed

  datatype Code = Code(code: string, state: string)

  /** A connection's request: unreadable, without a target, with an unparsable one, or parsed. */
  datatype Request = Unreadable | NoTarget | BadUrl | Target(path: string, query: seq<(string, string)>)

  // ---------------------------------------------------------------- one request

  function First(query: seq<(string, string)>, key: string): Option<string> {
    if query == [] then None
    else if query[0].0 == key then Some(query[0].1)
    else First(query[1..], key)
  }

  function ParseCallback(path: string, query: seq<(string, string)>): Result<Code, OAuthError> {
    if path != "/" then Err(InvalidCallbackTarget)
    else match First(query, "error")
         case Some(error) =>
           var description := match First(query, "error_description") case Some(d) => d case None => error;
           Err(if error == "access_denied" then AccessDenied(description) else ProviderCallbackError(description))
         case None =>
           match First(query, "code")
           case None => Err(MissingAuthorizationCode)
           case Some(code) =>
             if Trim(code) == "" then Err(EmptyAuthorizationCode)
             else match First(query, "state")
                  case None => Err(MissingState)
                  case Some(state) => Ok(Code(code, state))
  }

  /** The value of the first parameter with that name. */
  lemma {:induction false} FirstIsFirst(query: seq<(string, string)>, key: string)
    ensures match First(query, key)
            case None => forall i | 0 <= i < |query| :: query[i].0 != key
            case Some(v) => exists i | 0 <= i < |query| ::
                              query[i] == (key, v) && forall j | 0 <= j < i :: query[j].0 != key
  {
    if query != [] && query[0].0 != key {
      FirstIsFirst(query[1..], key);
      if i :| First(query, key).Some? && 0 <= i < |query| - 1 && query[1..][i] == (key, First(query, key).value)
              && forall j | 0 <= j < i :: query[1..][j].0 != key {
        assert query[i + 1] == (key, First(query, key).value);
        assert forall j | 0 < j < i + 1 :: query[j] == query[1..][j - 1];
      }
    } else if query != [] {
      assert query[0] == (key, query[0].1);
    }
  }

  /** `handle_connection`: a code, a refusal by the provider, or nothing of interest. */
  function HandleConnection(r: Request): Result<Option<Code>, OAuthError> {
    match r
    case Unreadable => Ok(None)
    case NoTarget => Ok(None)
    case BadUrl => Ok(None)
    case Target(path, query) =>
      match ParseCallback(path, query)
      case Ok(code) => Ok(Some(code))
      case Err(AccessDenied(d)) => Err(AccessDenied(d))
      case Err(ProviderCallbackError(d)) => Err(ProviderCallbackError(d))
      case Err(_) => Ok(None)
  }

  predicate Junk(r: Request) {
    HandleConnection(r) == Ok(None)
  }

  /** The result a decisive request forces. */
  function Verdict(r: Request): Result<Code, OAuthError>
    requires !Junk(r)
  {
    match HandleConnection(r)
    case Ok(Some(code)) => Ok(code)
    case Err(e) => Err(e)
  }

  /**
   * A request decides exactly when it hits the redirect path with an error parameter, or with a
   * code that is not blank and a state. It forces that code and state, or the provider's refusal.
   */
  lemma DecisiveIff(r: Request)
    ensures !Junk(r) <==>
            && r.Target? && r.path == "/"
            && (|| First(r.query, "error").Some?
                || (First(r.query, "code").Some? && Trim(First(r.query, "code").value) != ""
                    && First(r.query, "state").Some?))
    ensures !Junk(r) ==> (Verdict(r).Ok? <==> First(r.query, "error").None?)
    ensures !Junk(r) && Verdict(r).Ok? ==>
              && Some(Verdict(r).value.code) == First(r.query, "code")
              && Some(Verdict(r).value.state) == First(r.query, "state")
    ensures !Junk(r) && Verdict(r).Err? ==>
              var text := Coalesce(First(r.query, "error_description"), First(r.query, "error")).value;
              if First(r.query, "error") == Some("access_denied") then Verdict(r).error == AccessDenied(text)
              else Verdict(r).error == ProviderCallbackError(text)
  {
  }

  /** The result the first decisive request forces, if there is one. */
  function Outcome(handled: seq<Request>): Option<Result<Code, OAuthError>> {
    if handled == [] then None
    else if !Junk(handled[0]) then Some(Verdict(handled[0]))
    else Outcome(handled[1..])
  }

  lemma {:induction false} OutcomeOfConcat(xs: seq<Request>, ys: seq<Request>)
    ensures Outcome(xs + ys) == if Outcome(xs).Some? then Outcome(xs) else Outcome(ys)
  {
    if xs == [] {
      assert xs + ys == ys;
    } else {
      assert (xs + ys)[1..] == xs[1..] + ys;
      OutcomeOfConcat(xs[1..], ys);
    }
  }

  /** Junk requests, wherever they arrive, change nothing. */
  lemma JunkIsIgnored(xs: seq<Request>, junk: Request, ys: seq<Request>)
    requires Junk(junk)
    ensures Outcome(xs + [junk] + ys) == Outcome(xs + ys)
  {
    OutcomeOfConcat(xs + [junk], ys);
    OutcomeOfConcat(xs, [junk]);
    OutcomeOfConcat(xs, ys);
  }

  // ---------------------------------------------------------------- the accept loop

  /** What one `accept` yields: an error, or a connection and the cancel flag read right after it. */
  datatype Arrival = AcceptFailed | Connection(request: Request, cancelled: bool)

  predicate Passes(x: Arrival) {
    x.Connection? && !x.cancelled && Junk(x.request)
  }

  /** Returns at the first arrival that does not pass; `None` while it is still waiting. */
  method ReceiveAuthorizationCode(arrivals: seq<Arrival>) returns (r: Option<Result<Code, OAuthError>>)
    ensures r.None? <==> forall i | 0 <= i < |arrivals| :: Passes(arrivals[i])
    ensures forall i | 0 <= i < |arrivals| && !Passes(arrivals[i]) && (forall j | 0 <= j < i :: Passes(arrivals[j])) ::
              r == Some(if arrivals[i].AcceptFailed? then Err(ListenerBindFailed)
                        else if arrivals[i].cancelled then Err(Cancelled)
                        else Verdict(arrivals[i].request))
  {
    for i := 0 to |arrivals|
      invariant forall j | 0 <= j < i :: Passes(arrivals[j])
    {
      match arrivals[i]
      case AcceptFailed => return Some(Err(ListenerBindFailed));
      case Connection(request, cancelled) =>
        if cancelled {
          return Some(Err(Cancelled));
        }
        match HandleConnection(request)
        case Err(e) => return Some(Err(e));
        case Ok(Some(code)) => return Some(Ok(code));
        case Ok(None) =>
    }
    r := None;
  }

  // ---------------------------------------------------------------- the protocol

  datatype Phase =
    | Accepting
    | Accepted(request: Request)
    | Handling(request: Request)
    | Returned(result: Result<Code, OAuthError>)

  /**
   * The flow that owns the guard: waiting, satisfied, or cancelling in two steps. The wake-up
   * connection may fail, which is ignored.
   */
  datatype Owner = Waiting | Satisfied | FlagSet | CancelFinished(woken: bool)

  /** `handled` lists the requests accepted while the cancel flag was unset, in order. */
  datatype State = State(phase: Phase, backlog: seq<Request>, cancel: bool, owner: Owner, handled: seq<Request>)

  datatype Step =
    | Connect(request: Request)
    | Accept
    | AcceptError
    | Check
    | Handle
    | SeeResult
    | GiveUp
    | Ping(connected: bool)

  const START := State(Accepting, [], false, Waiting, [])

  predicate ListenerStep(step: Step) {
    step.Accept? || step.AcceptError? || step.Check? || step.Handle?
  }

  predicate Enabled(s: State, step: Step) {
    match step
    case Connect(_) => true
    case Accept => s.phase.Accepting? && s.backlog != []
    case AcceptError => s.phase.Accepting?
    case Check => s.phase.Accepted?
    case Handle => s.phase.Handling?
    case SeeResult => s.owner.Waiting? && s.phase.Returned?
    case GiveUp => s.owner.Waiting?
    case Ping(_) => s.owner.FlagSet?
  }

  /** Connections reach the backlog as long as the listener has not returned. */
  function Arrive(s: State, r: Request): State {
    if s.phase.Returned? then s else s.(backlog := s.backlog + [r])
  }

  function Next(s: State, step: Step): State
    requires Enabled(s, step)
  {
    match step
    case Connect(r) => Arrive(s, r)
    case Accept => s.(phase := Accepted(s.backlog[0]), backlog := s.backlog[1..])
    case AcceptError => s.(phase := Returned(Err(ListenerBindFailed)))
    case Check =>
      if s.cancel then s.(phase := Returned(Err(Cancelled)))
      else s.(phase := Handling(s.phase.request), handled := s.handled + [s.phase.request])
    case Handle =>
      if Junk(s.phase.request) then s.(phase := Accepting) else s.(phase := Returned(Verdict(s.phase.request)))
    case SeeResult => s.(owner := Satisfied)
    case GiveUp => s.(owner := FlagSet, cancel := true)
    case Ping(connected) => (if connected then Arrive(s, NoTarget) else s).(owner := CancelFinished(connected))
  }

  function Run(s: State, steps: seq<Step>): State
    decreases |steps|
  {
    if steps == [] then s else Run(if Enabled(s, steps[0]) then Next(s, steps[0]) else s, steps[1..])
  }

  /** The listener waits in `accept`, or may come back to it, and nothing is there to accept. */
  predicate NothingToAccept(s: State) {
    (s.phase.Accepting? || s.phase.Handling?) && s.backlog == []
  }

  /** It waits in `accept`, or is bound to come back to it, and nothing is there to accept. */
  predicate Blocked(s: State) {
    s.backlog == [] && (s.phase.Accepting? || (s.phase.Handling? && Junk(s.phase.request)))
  }

  ghost predicate Inv(s: State) {
    && (s.cancel <==> s.owner.FlagSet? || s.owner.CancelFinished?)
    && (s.owner.Satisfied? ==> s.phase.Returned?)
    && (s.owner.CancelFinished? && s.owner.woken ==> !NothingToAccept(s))
    && match s.phase {
         case Accepting => Outcome(s.handled).None?
         case Accepted(_) => Outcome(s.handled).None?
         case Handling(r) =>
           s.handled != [] && s.handled[|s.handled| - 1] == r && Outcome(s.handled[..|s.handled| - 1]).None?
         case Returned(result) =>
           if Outcome(s.handled).Some? then result == Outcome(s.handled).value
           else (result == Err(Cancelled) && s.cancel) || result == Err(ListenerBindFailed)
       }
  }

  lemma StepKeepsInv(s: State, step: Step)
    requires Inv(s) && Enabled(s, step)
    ensures Inv(Next(s, step))
  {
    match step
    case Check =>
      var grown := s.handled + [s.phase.request];
      assert grown[..|grown| - 1] == s.handled;
    case Handle =>
      var init := s.handled[..|s.handled| - 1];
      assert s.handled == init + [s.phase.request];
      OutcomeOfConcat(init, [s.phase.request]);
    case _ =>
  }

  lemma {:induction false} RunKeepsInv(s: State, steps: seq<Step>)
    requires Inv(s)
    ensures Inv(Run(s, steps))
    decreases |steps|
  {
    if steps != [] {
      if Enabled(s, steps[0]) {
        StepKeepsInv(s, steps[0]);
      }
      RunKeepsInv(if Enabled(s, steps[0]) then Next(s, steps[0]) else s, steps[1..]);
    }
  }

  /**
   * In every interleaving the listener returns the result of the first decisive request accepted
   * while cancel was unset; without one it can only have been cancelled or have failed to accept.
   */
  lemma FirstDecisiveRequestWins(steps: seq<Step>)
    requires Run(START, steps).phase.Returned?
    ensures var s := Run(START, steps);
            match Outcome(s.handled)
            case Some(result) => s.phase.result == result
            case None => (s.phase.result == Err(Cancelled) && s.cancel) || s.phase.result == Err(ListenerBindFailed)
  {
    RunKeepsInv(START, steps);
  }

  /**
   * However the flow ends, the listener is not left blocked in `accept`: either it has returned,
   * or it is about to see the flag, or a connection is waiting for it. Only a failed wake-up
   * connection can leave it blocked.
   */
  lemma NeverLeftBlocked(steps: seq<Step>)
    ensures var s := Run(START, steps);
            (s.owner.Satisfied? || s.owner.CancelFinished?) && NothingToAccept(s) ==> s.owner == CancelFinished(false)
  {
    RunKeepsInv(START, steps);
  }

  /** And a failed wake-up does leave an idle listener blocked, until anything else connects. */
  lemma FailedWakeUpBlocks(r: Request)
    ensures var s := Run(START, [GiveUp, Ping(false)]);
            && s.owner == CancelFinished(false) && Blocked(s)
            && Run(s, [Connect(r), Accept, Check]).phase == Returned(Err(Cancelled))
  {
    var s1 := Next(START, GiveUp);
    var s2 := Next(s1, Ping(false));
    assert [GiveUp, Ping(false)][1..] == [Ping(false)];
    assert Run(s1, [Ping(false)]) == Run(s2, []);
    var s3 := Next(s2, Connect(r));
    var s4 := Next(s3, Accept);
    assert [Connect(r), Accept, Check][1..] == [Accept, Check] && [Accept, Check][1..] == [Check];
    assert Run(s2, [Connect(r), Accept, Check]) == Run(s3, [Accept, Check]) == Run(s4, [Check]);
    assert Run(s4, [Check]) == Run(Next(s4, Check), []);
  }

  // ---------------------------------------------------------------- first come, first served

  /** The connection that a step brings to the listener's backlog. */
  function ArrivedBy(s: State, step: Step): seq<Request> {
    if !Enabled(s, step) || s.phase.Returned? then []
    else match step
         case Connect(r) => [r]
         case Ping(connected) => if connected then [NoTarget] else []
         case _ => []
  }

  /** The connections that reached it during a run, in order. */
  function Arrived(s: State, steps: seq<Step>): seq<Request>
    decreases |steps|
  {
    if steps == [] then []
    else
      ArrivedBy(s, steps[0])
      + Arrived(if Enabled(s, steps[0]) then Next(s, steps[0]) else s, steps[1..])
  }

  /** Of the connections `q` that arrived some are handled, the next may be accepted, and the rest are waiting. */
  ghost predicate Serves(s: State, q: seq<Request>) {
    if s.phase.Returned? then s.handled <= q
    else q == s.handled + (if s.phase.Accepted? then [s.phase.request] else []) + s.backlog
  }

  lemma StepServes(s: State, step: Step, q: seq<Request>)
    requires Serves(s, q) && Enabled(s, step)
    ensures Serves(Next(s, step), q + ArrivedBy(s, step))
  {
    hide Junk, Verdict;
  }

  lemma {:induction false} RunServes(s: State, steps: seq<Step>, q: seq<Request>)
    requires Serves(s, q)
    ensures Serves(Run(s, steps), q + Arrived(s, steps))
    decreases |steps|
  {
    if steps == [] {
      assert q + [] == q;
    } else if Enabled(s, steps[0]) {
      var next := Next(s, steps[0]);
      StepServes(s, steps[0], q);
      RunServes(next, steps[1..], q + ArrivedBy(s, steps[0]));
      assert (q + ArrivedBy(s, steps[0])) + Arrived(next, steps[1..]) == q + Arrived(s, steps);
    } else {
      RunServes(s, steps[1..], q);
      assert Arrived(s, steps) == Arrived(s, steps[1..]);
    }
  }

  /** Connections are handled in the order in which they arrived; none is skipped and none is made up. */
  lemma HandledInOrder(steps: seq<Step>)
    ensures Run(START, steps).handled <= Arrived(START, steps)
    ensures Serves(Run(START, steps), Arrived(START, steps))
  {
    RunServes(START, steps, []);
    assert [] + Arrived(START, steps) == Arrived(START, steps);
  }

  // ---------------------------------------------------------------- exactly when it stays blocked

  /** What the listener does by itself, without `accept` failing. */
  predicate OwnStep(step: Step) {
    step.Accept? || step.Check? || step.Handle?
  }

  predicate OwnSteps(steps: seq<Step>) {
    forall i | 0 <= i < |steps| :: OwnStep(steps[i])
  }

  /** The wake-up leaves the listener blocked exactly when it fails and finds the listener blocked. */
  lemma PingLeavesBlockedIff(s: State, connected: bool)
    requires Enabled(s, Ping(connected))
    ensures Blocked(Next(s, Ping(connected))) <==> !connected && Blocked(s)
  {
  }

  /** Left to itself, a blocked listener stays blocked. */
  lemma {:induction false} BlockedStays(s: State, steps: seq<Step>)
    requires Blocked(s) && OwnSteps(steps)
    ensures Blocked(Run(s, steps))
    decreases |steps|
  {
    if steps != [] {
      assert OwnStep(steps[0]);
      BlockedStays(if Enabled(s, steps[0]) then Next(s, steps[0]) else s, steps[1..]);
    }
  }

  /** Any other listener returns by itself once the flag is set. */
  lemma UnblockedReturns(s: State) returns (steps: seq<Step>)
    requires s.cancel && !Blocked(s)
    ensures OwnSteps(steps) && Run(s, steps).phase.Returned?
  {
    match s.phase
    case Returned(_) => steps := [];
    case Accepted(_) =>
      steps := [Check];
      OneMove(s, Check, []);
    case Accepting =>
      steps := [Accept, Check];
      OneMove(s, Accept, [Check]);
      OneMove(Next(s, Accept), Check, []);
    case Handling(request) =>
      if Junk(request) {
        steps := [Handle, Accept, Check];
        var t := Next(s, Handle);
        OneMove(s, Handle, [Accept, Check]);
        OneMove(t, Accept, [Check]);
        OneMove(Next(t, Accept), Check, []);
      } else {
        steps := [Handle];
        OneMove(s, Handle, []);
      }
  }

  lemma OneMove(s: State, step: Step, rest: seq<Step>)
    requires Enabled(s, step)
    ensures Run(s, [step] + rest) == Run(Next(s, step), rest)
  {
    assert ([step] + rest)[1..] == rest;
  }

  /**
   * Exactly when a cancelled listener is left for good: no sequence of its own steps ever returns if and
   * only if it waits, or is handling a junk request, and nothing is there to accept. Then the wake-up failed.
   */
  lemma LeftBlockedIff(s: State)
    requires Inv(s) && s.owner.CancelFinished?
    ensures (forall steps | OwnSteps(steps) :: !Run(s, steps).phase.Returned?) <==> Blocked(s)
    ensures Blocked(s) ==> !s.owner.woken
  {
    if Blocked(s) {
      forall steps | OwnSteps(steps) ensures !Run(s, steps).phase.Returned? {
        BlockedStays(s, steps);
      }
    } else {
      var steps := UnblockedReturns(s);
      assert OwnSteps(steps);
    }
  }

  /** In particular after every interleaving from the start. */
  lemma EveryRunLeftBlockedIff(steps: seq<Step>)
    requires Run(START, steps).owner.CancelFinished?
    ensures var s := Run(START, steps);
            && ((forall more | OwnSteps(more) :: !Run(s, more).phase.Returned?) <==> Blocked(s))
            && (Blocked(s) ==> s.owner == CancelFinished(false))
  {
    RunKeepsInv(START, steps);
    LeftBlockedIff(Run(START, steps));
  }

  // ---------------------------------------------------------------- how soon it stops

  function Distance(ph: Phase): nat {
    match ph
    case Returned(_) => 0
    case Accepted(_) => 1
    case Accepting => 2
    case Handling(_) => 3
  }

  /** Once the flag is set no further request is handled, and every listener step brings it closer to returning. */
  lemma CancelledListenerStops(s: State, step: Step)
    requires Inv(s) && s.cancel && Enabled(s, step)
    ensures Next(s, step).cancel && Next(s, step).handled == s.handled
    ensures if ListenerStep(step) then Distance(Next(s, step).phase) < Distance(s.phase)
            else Next(s, step).phase == s.phase
  {
  }

  /** Once cancelling has finished and woken it, the listener has a step of its own until it has returned. */
  lemma CancelledListenerCanStep(s: State) returns (step: Step)
    requires Inv(s) && s.owner == CancelFinished(true) && !s.phase.Returned?
    ensures OwnStep(step) && Enabled(s, step)
  {
    step := match s.phase
            case Accepting => Accept
            case Accepted(_) => Check
            case _ => Handle;
  }

  function ListenerSteps(s: State, steps: seq<Step>): nat
    decreases |steps|
  {
    if steps == [] then 0
    else
      ListenerSteps(if Enabled(s, steps[0]) then Next(s, steps[0]) else s, steps[1..])
      + if Enabled(s, steps[0]) && ListenerStep(steps[0]) then 1 else 0
  }

  /** After the flag is set the listener takes at most three more steps, whatever else happens. */
  lemma {:induction false} AtMostThreeMoreSteps(s: State, steps: seq<Step>)
    requires Inv(s) && s.cancel
    ensures ListenerSteps(s, steps) <= Distance(s.phase) <= 3
    decreases |steps|
  {
    if steps != [] {
      if Enabled(s, steps[0]) {
        StepKeepsInv(s, steps[0]);
        CancelledListenerStops(s, steps[0]);
        AtMostThreeMoreSteps(Next(s, steps[0]), steps[1..]);
      } else {
        AtMostThreeMoreSteps(s, steps[1..]);
      }
    }
  }
}
