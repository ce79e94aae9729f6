/** The two lazily initialised fields of the governance client manager and the semaphore around
    them, as atomic steps of any number of concurrent callers. */
module InitOnce {
  import opened Outcomes

  /** A configuration object: its identity, and whether its AuthMode has been assigned yet. */
  datatype Config = Config(id: nat, authModeSet: bool)

  /** Which of the two public calls a caller made. */
  datatype Request = WsConfig | AppClient

  /** Where a caller is. `C...` are the points of InitializeWsConfig, `A...` those of the rest of
      InitializeAppClient; `config` is the result of the inner call. */
  datatype Point =
    | CCheck                 // about to test wsConfigOnce without the semaphore
    | CWait                  // waiting for the semaphore
    | CRecheck               // holds it, about to test wsConfigOnce again
    | CInit                  // holds it, the initialiser is running
    | CSetAuthMode           // holds it, wsConfigOnce assigned, AuthMode not yet
    | CLog                   // holds it, the configuration is set and about to be logged
    | CRelease               // holds it, about to release
    | CFail                  // holds it, an exception is unwinding
    | CReturn                // about to return wsConfigOnce
    | ACheck(config: nat)
    | AWait(config: nat)
    | ARecheck(config: nat)
    | AInit(config: nat)
    | ARelease(config: nat)
    | AFail(config: nat)
    | AReturn(config: nat)
    | GotConfig(config: nat) // returned
    | GotClient(config: nat, client: nat)
    | Failed                 // threw
  {
    predicate Holds() {
      CRecheck? || CInit? || CSetAuthMode? || CLog? || CRelease? || CFail? || ARecheck? || AInit? || ARelease? || AFail?
    }

    predicate Waits() { CWait? || AWait? }

    predicate Done() { GotConfig? || GotClient? || Failed? }
  }

  datatype Caller = Caller(request: Request, at: Point)

  datatype State = State(
    holder: Option<nat>,
    wsConfigOnce: Option<Config>,
    ccfAppClientOnce: Option<nat>,
    callers: map<nat, Caller>)

  const INITIAL := State(None, None, None, map[])

  /** What the outside world contributes to a step: the object an initialiser returns, or an exception
      of the initialiser or of the serialisation and logging that follow it. */
  datatype Outcome = Made(id: nat) | Threw

  function Move(s: State, t: nat, p: Point): State
    requires t in s.callers
  {
    s.(callers := s.callers[t := s.callers[t].(at := p)])
  }

  function Acquire(s: State, t: nat, p: Point): Option<State>
    requires t in s.callers
  {
    if s.holder.None? then Some(Move(s, t, p).(holder := Some(t))) else None
  }

  function Release(s: State, t: nat, p: Point): State
    requires t in s.callers
  {
    Move(s, t, p).(holder := None)
  }

  /** The step of caller `t`; None when it is blocked or has finished. */
  function Advance(s: State, t: nat, world: Outcome): Option<State>
    requires t in s.callers
  {
    match s.callers[t].at
    case CCheck => Some(Move(s, t, if s.wsConfigOnce.None? then CWait else CReturn))
    case CWait => Acquire(s, t, CRecheck)
    case CRecheck => Some(Move(s, t, if s.wsConfigOnce.None? then CInit else CLog))
    case CInit =>
      (match world
       case Threw => Some(Move(s, t, CFail))
       case Made(id) => Some(Move(s, t, CSetAuthMode).(wsConfigOnce := Some(Config(id, false)))))
    case CSetAuthMode =>
      if s.wsConfigOnce.None? then Some(Move(s, t, CFail))
      else Some(Move(s, t, CLog).(wsConfigOnce := Some(s.wsConfigOnce.value.(authModeSet := true))))
    case CLog => Some(Move(s, t, if s.wsConfigOnce.None? || world.Threw? then CFail else CRelease))
    case CRelease => Some(Release(s, t, CReturn))
    case CFail => Some(Release(s, t, Failed))
    case CReturn =>
      if s.wsConfigOnce.None? then Some(Move(s, t, Failed))
      else
        var c := s.wsConfigOnce.value.id;
        Some(Move(s, t, if s.callers[t].request.WsConfig? then GotConfig(c) else ACheck(c)))
    case ACheck(c) => Some(Move(s, t, if s.ccfAppClientOnce.None? then AWait(c) else AReturn(c)))
    case AWait(c) => Acquire(s, t, ARecheck(c))
    case ARecheck(c) => Some(Move(s, t, if s.ccfAppClientOnce.None? then AInit(c) else ARelease(c)))
    case AInit(c) =>
      (match world
       case Threw => Some(Move(s, t, AFail(c)))
       case Made(id) => Some(Move(s, t, ARelease(c)).(ccfAppClientOnce := Some(id))))
    case ARelease(c) => Some(Release(s, t, AReturn(c)))
    case AFail(c) => Some(Release(s, t, Failed))
    case AReturn(c) =>
      Some(Move(s, t, if s.ccfAppClientOnce.None? then Failed else GotClient(c, s.ccfAppClientOnce.value)))
    case _ => None
  }

  /** A new caller arrives, or a caller takes one step. */
  ghost predicate Next(s: State, s': State) {
    || (exists t: nat, r: Request :: Arrives(s, s', t, r))
    || (exists t: nat, world: Outcome :: Steps(s, s', t, world))
  }

  predicate Arrives(s: State, s': State, t: nat, r: Request) {
    t !in s.callers && s' == s.(callers := s.callers[t := Caller(r, CCheck)])
  }

  predicate Steps(s: State, s': State, t: nat, world: Outcome) {
    t in s.callers && Advance(s, t, world) == Some(s')
  }

  /** A run from `s` to `s'`. */
  ghost predicate Run(run: seq<State>, s: State, s': State) {
    && run != [] && run[|run| - 1] == s'
    && if |run| == 1 then s == s'
       else Run(run[..|run| - 1], s, run[|run| - 2]) && Next(run[|run| - 2], s')
  }

  ghost predicate Leads(s: State, s': State) { exists run: seq<State> :: Run(run, s, s') }

  ghost predicate Reachable(s: State) { Leads(INITIAL, s) }

  // ----- the invariant -----

  /** What a caller's position implies about the shared fields. */
  ghost predicate CallerInv(s: State, t: nat)
    requires t in s.callers
  {
    var at := s.callers[t].at;
    && (at.Holds() <==> s.holder == Some(t))
    && (at.CInit? ==> s.wsConfigOnce.None?)
    && (at.CSetAuthMode? ==> s.wsConfigOnce.Some? && !s.wsConfigOnce.value.authModeSet)
    && (at.AInit? ==> s.ccfAppClientOnce.None?)
    && (at.CLog? || at.CRelease? || at.CReturn? ==> s.wsConfigOnce.Some?)
    && (at.ARelease? || at.AReturn? ==> s.ccfAppClientOnce.Some?)
    && (at.ACheck? || at.AWait? || at.ARecheck? || at.AInit? || at.ARelease? || at.AFail? || at.AReturn?
          || at.GotConfig? || at.GotClient? ==>
            s.wsConfigOnce.Some? && at.config == s.wsConfigOnce.value.id)
    && (at.GotClient? ==> s.ccfAppClientOnce == Some(at.client))
  }

  ghost predicate Inv(s: State) {
    && (forall t :: t in s.callers ==> CallerInv(s, t))
    && (s.holder.Some? ==> s.holder.value in s.callers)
    && (s.wsConfigOnce.Some? && !s.wsConfigOnce.value.authModeSet ==>
          s.holder.Some? && s.callers[s.holder.value].at.CSetAuthMode?)
  }

  lemma ArrivalKeepsInv(s: State, s': State, t: nat, r: Request)
    requires Inv(s) && Arrives(s, s', t, r)
    ensures Inv(s')
  {
    forall u | u in s'.callers ensures CallerInv(s', u) {
      if u != t { assert CallerInv(s, u); }
    }
  }

  lemma StepKeepsInv(s: State, s': State, t: nat, world: Outcome)
    requires Inv(s) && Steps(s, s', t, world)
    ensures Inv(s')
  {
    assert CallerInv(s, t);
    forall u | u in s'.callers ensures CallerInv(s', u) {
      assert CallerInv(s, u);
      if u != t { OtherKeepsInv(s, s', t, world, u); } else { OwnKeepsInv(s, s', t, world); }
    }
  }

  lemma OwnKeepsInv(s: State, s': State, t: nat, world: Outcome)
    requires Steps(s, s', t, world) && CallerInv(s, t)
    ensures t in s'.callers && CallerInv(s', t)
  {
  }

  lemma OtherKeepsInv(s: State, s': State, t: nat, world: Outcome, u: nat)
    requires Steps(s, s', t, world) && u in s.callers && u != t
    requires CallerInv(s, t) && CallerInv(s, u)
    ensures u in s'.callers && CallerInv(s', u)
  {
  }

  lemma {:induction false} RunKeepsInv(run: seq<State>, s: State, s': State)
    requires Inv(s) && Run(run, s, s')
    ensures Inv(s')
  {
    if |run| > 1 {
      var r := run[|run| - 2];
      RunKeepsInv(run[..|run| - 1], s, r);
      NextKeepsInv(r, s');
    }
  }

  lemma NextKeepsInv(s: State, s': State)
    requires Inv(s) && Next(s, s')
    ensures Inv(s')
  {
    if t: nat, r: Request :| Arrives(s, s', t, r) {
      ArrivalKeepsInv(s, s', t, r);
    } else {
      var t: nat, world: Outcome :| Steps(s, s', t, world);
      StepKeepsInv(s, s', t, world);
    }
  }

  lemma ReachableInv(s: State)
    requires Reachable(s)
    ensures Inv(s)
  {
    var run: seq<State> :| Run(run, INITIAL, s);
    RunKeepsInv(run, INITIAL, s);
  }

  // ----- each field is initialised at most once -----

  /** From `s` to `s'` a field that was set kept its object, and an AuthMode that was set stayed set. */
  predicate Preserves(s: State, s': State) {
    && (s.wsConfigOnce.Some? ==>
          && s'.wsConfigOnce.Some? && s'.wsConfigOnce.value.id == s.wsConfigOnce.value.id
          && (s.wsConfigOnce.value.authModeSet ==> s'.wsConfigOnce.value.authModeSet))
    && (s.ccfAppClientOnce.Some? ==> s'.ccfAppClientOnce == s.ccfAppClientOnce)
  }

  lemma NextPreserves(s: State, s': State)
    requires Inv(s) && Next(s, s')
    ensures Preserves(s, s')
  {
    if t: nat, r: Request :| Arrives(s, s', t, r) {
    } else {
      var t: nat, world: Outcome :| Steps(s, s', t, world);
      assert CallerInv(s, t);
    }
  }

  lemma {:induction false} RunPreserves(run: seq<State>, s: State, s': State)
    requires Inv(s) && Run(run, s, s')
    ensures Preserves(s, s')
  {
    if |run| > 1 {
      var r := run[|run| - 2];
      RunPreserves(run[..|run| - 1], s, r);
      RunKeepsInv(run[..|run| - 1], s, r);
      NextPreserves(r, s');
    }
  }

  /** In every run, whatever the initialisers do: once a field is non-null it never changes again. */
  lemma InitialisedOnce(s: State, s': State)
    requires Reachable(s) && Leads(s, s')
    ensures Preserves(s, s')
  {
    ReachableInv(s);
    var run: seq<State> :| Run(run, s, s');
    RunPreserves(run, s, s');
  }

  /** All callers that succeed, in the whole run, get the same configuration and the same client. */
  lemma SameResults(s: State, t: nat, u: nat)
    requires Reachable(s) && t in s.callers && u in s.callers
    requires s.callers[t].at.GotConfig? || s.callers[t].at.GotClient?
    requires s.callers[u].at.GotConfig? || s.callers[u].at.GotClient?
    ensures s.callers[t].at.config == s.callers[u].at.config
    ensures s.callers[t].at.GotClient? && s.callers[u].at.GotClient? ==> s.callers[t].at.client == s.callers[u].at.client
    ensures s.wsConfigOnce.Some? && s.callers[t].at.config == s.wsConfigOnce.value.id
  {
    ReachableInv(s);
    assert CallerInv(s, t) && CallerInv(s, u);
  }

  // ----- the semaphore -----

  /** At most one caller is between its acquire and its release, it is the holder, and no caller
      waits for a semaphore it holds. */
  lemma SemaphoreSafety(s: State, t: nat, u: nat)
    requires Reachable(s) && t in s.callers && u in s.callers
    ensures s.callers[t].at.Holds() && s.callers[u].at.Holds() ==> t == u
    ensures s.callers[t].at.Holds() <==> s.holder == Some(t)
    ensures s.callers[t].at.Waits() ==> s.holder != Some(t)
  {
    ReachableInv(s);
    assert CallerInv(s, t) && CallerInv(s, u);
  }

  /** The holder stands between its two assignments. */
  predicate InGap(s: State) {
    s.holder.Some? && s.holder.value in s.callers && s.callers[s.holder.value].at.CSetAuthMode?
  }

  /** A configuration without AuthMode is visible exactly while the holder stands between the two
      assignments; so whenever the semaphore is free a non-null configuration has its AuthMode. */
  lemma AuthModeExactlyWhen(s: State)
    requires Reachable(s)
    ensures s.wsConfigOnce.Some? && !s.wsConfigOnce.value.authModeSet <==> InGap(s)
    ensures s.holder.None? && s.wsConfigOnce.Some? ==> s.wsConfigOnce.value.authModeSet
  {
    ReachableInv(s);
    if s.holder.Some? { assert CallerInv(s, s.holder.value); }
  }

  // ----- which calls return an incomplete configuration -----

  predicate Complete(s: State) { s.wsConfigOnce.Some? && s.wsConfigOnce.value.authModeSet }

  /** Caller `t` is about to return from InitializeWsConfig with a configuration without AuthMode. */
  predicate ReturnsIncomplete(s: State, t: nat) {
    t in s.callers && s.callers[t].at.CReturn? && !Complete(s)
  }

  /** Caller `t` has failed the unlocked test, or the configuration has its AuthMode. */
  predicate WillBeComplete(s: State, t: nat) {
    && t in s.callers
    && (Complete(s) || s.callers[t].at.CWait? || s.callers[t].at.CRecheck? || s.callers[t].at.CInit?
        || s.callers[t].at.CSetAuthMode? || s.callers[t].at.CFail? || s.callers[t].at.Failed?)
  }

  lemma StepStaysComplete(s: State, s': State, u: nat, world: Outcome, t: nat)
    requires Inv(s) && Steps(s, s', u, world) && WillBeComplete(s, t)
    ensures WillBeComplete(s', t)
  {
    assert CallerInv(s, u) && CallerInv(s, t);
  }

  lemma NextStaysComplete(s: State, s': State, t: nat)
    requires Inv(s) && Next(s, s') && WillBeComplete(s, t)
    ensures WillBeComplete(s', t)
  {
    if u: nat, r: Request :| Arrives(s, s', u, r) {
    } else {
      var u: nat, world: Outcome :| Steps(s, s', u, world);
      StepStaysComplete(s, s', u, world, t);
    }
  }

  lemma {:induction false} RunStaysComplete(run: seq<State>, s: State, s': State, t: nat)
    requires Inv(s) && Run(run, s, s') && WillBeComplete(s, t)
    ensures WillBeComplete(s', t)
  {
    if |run| > 1 {
      var r := run[|run| - 2];
      RunStaysComplete(run[..|run| - 1], s, r, t);
      RunKeepsInv(run[..|run| - 1], s, r);
      NextStaysComplete(r, s', t);
    }
  }

  /** A call that waits for the semaphore or has taken it returns a complete configuration or throws. */
  lemma LockedCallReturnsComplete(s: State, s': State, t: nat)
    requires Reachable(s) && Leads(s, s') && t in s.callers
    requires s.callers[t].at.CWait? || s.callers[t].at.CRecheck? || s.callers[t].at.CInit?
          || s.callers[t].at.CSetAuthMode? || s.callers[t].at.CLog? || s.callers[t].at.CRelease?
    ensures !ReturnsIncomplete(s', t)
  {
    ReachableInv(s);
    assert CallerInv(s, t);
    var run: seq<State> :| Run(run, s, s');
    RunStaysComplete(run, s, s', t);
  }

  /** Caller `t` makes its first, unlocked test in state `s`. Some continuation has this call return a
      configuration without AuthMode if and only if at the moment of the test the holder of the
      semaphore stood between its two assignments. So a call that makes the test while the semaphore
      is free always returns a complete one. */
  lemma IncompleteReturnExactlyWhen(s: State, t: nat, world: Outcome, after: State)
    requires Reachable(s) && t in s.callers && s.callers[t].at.CCheck? && Steps(s, after, t, world)
    ensures (exists s' :: Leads(after, s') && ReturnsIncomplete(s', t)) <==> InGap(s)
  {
    ReachableInv(s);
    AuthModeExactlyWhen(s);
    Extend(s, after);
    ReachableInv(after);
    if InGap(s) {
      assert Run([after], after, after);
      assert Leads(after, after) && ReturnsIncomplete(after, t);
    } else {
      forall s' | Leads(after, s') ensures !ReturnsIncomplete(s', t) {
        var run: seq<State> :| Run(run, after, s');
        RunStaysComplete(run, after, s', t);
      }
    }
  }

  /** The unlocked test can see the field in that gap: a caller can return a configuration whose
      AuthMode is not set yet. */
  lemma ConfigCanEscapeEarly() returns (s: State, t: nat)
    ensures Reachable(s) && t in s.callers && s.callers[t].at.GotConfig?
    ensures s.wsConfigOnce.Some? && s.callers[t].at.config == s.wsConfigOnce.value.id
    ensures !s.wsConfigOnce.value.authModeSet
  {
    s := INITIAL;
    assert Run([s], INITIAL, s);
    s := Arrive(s, 0, WsConfig);
    s := Arrive(s, 1, WsConfig);
    s := Take(s, 0, Threw);
    s := Take(s, 0, Threw);
    s := Take(s, 0, Threw);
    s := Take(s, 0, Made(7));
    s := Take(s, 1, Threw);
    s := Take(s, 1, Threw);
    t := 1;
  }

  lemma Arrive(s: State, t: nat, r: Request) returns (s': State)
    requires Reachable(s) && t !in s.callers
    ensures Reachable(s') && s' == s.(callers := s.callers[t := Caller(r, CCheck)])
  {
    s' := s.(callers := s.callers[t := Caller(r, CCheck)]);
    assert Arrives(s, s', t, r);
    Extend(s, s');
  }

  lemma Take(s: State, t: nat, world: Outcome) returns (s': State)
    requires Reachable(s) && t in s.callers && Advance(s, t, world).Some?
    ensures Reachable(s') && Advance(s, t, world) == Some(s')
  {
    s' := Advance(s, t, world).value;
    assert Steps(s, s', t, world);
    Extend(s, s');
  }

  lemma Extend(s: State, s': State)
    requires Reachable(s) && Next(s, s')
    ensures Reachable(s')
  {
    var run: seq<State> :| Run(run, INITIAL, s);
    var longer := run + [s'];
    assert longer[..|longer| - 1] == run;
    assert Run(longer, INITIAL, s');
  }

  // ----- progress -----

  /** No deadlock: while some caller is unfinished, some caller can take a step, whatever the
      initialisers do; the semaphore is never lost by an initialiser that throws. */
  lemma NoDeadlock(s: State, t: nat, world: Outcome) returns (u: nat)
    requires Reachable(s) && t in s.callers && !s.callers[t].at.Done()
    ensures u in s.callers && Advance(s, u, world).Some?
  {
    ReachableInv(s);
    assert CallerInv(s, t);
    if s.callers[t].at.Waits() && s.holder.Some? {
      u := s.holder.value;
      assert CallerInv(s, u);
    } else {
      u := t;
    }
  }

  /** A caller fails only by unwinding, and starts to unwind only when an initialiser it ran itself, or
      its own logging of the configuration, threw: a failed attempt of one caller never fails another. */
  lemma FailureIsOwn(s: State, s': State, t: nat, world: Outcome)
    requires Reachable(s) && Steps(s, s', t, world)
    ensures s'.callers[t].at.Failed? ==> s.callers[t].at.CFail? || s.callers[t].at.AFail?
    ensures s'.callers[t].at.CFail? ==> (s.callers[t].at.CInit? || s.callers[t].at.CLog?) && world.Threw?
    ensures s'.callers[t].at.AFail? ==> s.callers[t].at.AInit? && world.Threw?
  {
    ReachableInv(s);
    assert CallerInv(s, t);
  }
}
