/** Whether a replacement leaves a network with enough nodes: never too few unless a new name is in
    use, and exactly when that happens. */
module Provisioning {
  import opened Outcomes
  import opened NaturalOrder
  import opened NodeNames
  import opened CcfNodes
  import opened ContainerGroups
  import opened NetworkUpdate
  import SetFacts

  // ----- replacement never leaves too few nodes, unless a name is reused -----

  /** Some of the `nodeCount` names from the start ordinal on are in use. */
  ghost predicate ReusesNames(u: Update, s: State) { exists listing: seq<string> :: ReusesNamesOf(u, s, listing) }

  ghost predicate ReusesNamesOf(u: Update, s: State, listing: seq<string>) {
    && (set n | n in listing) == s.infra.Keys
    && Reuses(u, s.infra, u.firstNew(listing))
  }

  predicate Reuses(u: Update, base: Groups, start: Option<int32>) {
    start.Some? && base.Keys * Batch(u.network, start.value, u.nodeCount) != {}
  }

  lemma {:induction false} ExecCons(u: Update, s: State, step: Step, steps: seq<Step>, r: State)
    requires u.Apply(s, step) == Some(r)
    ensures u.Exec(s, [step] + steps) == u.Exec(r, steps)
  {
    var all := [step] + steps;
    if steps == [] {
      assert all[..0] == [];
    } else {
      var n := |steps| - 1;
      assert all[..n + 1] == [step] + steps[..n];
      ExecCons(u, s, step, steps[..n], r);
    }
  }

  /** From the moment the count equals `nodeCount`, in every later state of every run, finished,
      aborted or in between, there are at least `nodeCount` groups, when no new name is in use. */
  lemma NeverUnderProvisioned(u: Update, infra: Groups, s: State, s': State)
    requires u.Ready(infra, s) && !ReusesNames(u, s) && u.Leads(s, s')
    ensures |s'.infra.Keys| >= u.nodeCount
  {
    u.ReadyCount(infra, s);
    var steps: seq<Step> :| u.Exec(s, steps) == Some(s');
    if steps != [] {
      assert steps == [steps[0]] + steps[1..];
      FirstStep(u, s, steps, s');
      var r := u.Apply(s, steps[0]).value;
      ExecCons(u, s, steps[0], steps[1..], r);
      var step := steps[0];
      assert !ReusesNamesOf(u, s, step.listing);
      AfterDecision(u, s, step.listing, step.health, step.nodes, steps[1..], s');
    }
  }

  lemma {:induction false} FirstStep(u: Update, s: State, steps: seq<Step>, s': State)
    requires steps != [] && u.Exec(s, steps) == Some(s')
    ensures u.Apply(s, steps[0]).Some?
  {
    var n := |steps| - 1;
    if n > 0 {
      FirstStep(u, s, steps[..n], u.Exec(s, steps[..n]).value);
    } else {
      assert steps[..n] == [];
    }
  }

  lemma AfterDecision(u: Update, s: State, listing: seq<string>, health: set<string>, nodes: set<NetworkNode>,
                   steps: seq<Step>, s': State)
    requires s.at.Deciding? && s.endpoints == s.infra.Keys && |s.infra.Keys| == u.nodeCount
    requires (set n | n in listing) == s.infra.Keys && !ReusesNamesOf(u, s, listing)
    requires u.Exec(u.ReplaceFrom(s, u.firstNew(listing), s.endpoints * health, nodes), steps) == Some(s')
    ensures |s'.infra.Keys| >= u.nodeCount
  {
    EnoughFrom(u, s, u.firstNew(listing), s.endpoints * health, nodes, steps, s');
  }

  lemma EnoughFrom(u: Update, s: State, start: Option<int32>, unhealthy: set<string>, nodes: set<NetworkNode>,
                   steps: seq<Step>, s': State)
    requires s.at.Deciding? && unhealthy <= s.infra.Keys && |s.infra.Keys| == u.nodeCount && !Reuses(u, s.infra, start)
    requires u.Exec(u.ReplaceFrom(s, start, unhealthy, nodes), steps) == Some(s')
    ensures |s'.infra.Keys| >= u.nodeCount
  {
    var r := u.ReplaceFrom(s, start, unhealthy, nodes);
    if !u.Replaces(unhealthy, nodes) {
      u.DecidesNothing(s, start, unhealthy, nodes);
      u.ExecLeavesAlone(s.infra, r, steps, s');
    } else if start.None? {
      u.DecidesToAbort(s, start, unhealthy, nodes);
      u.StaysAborted(r, steps, s');
    } else {
      var plan := u.PlanFor(s.infra, start.value, unhealthy, nodes);
      u.DecidesToReplace(s, start, unhealthy, nodes, plan);
      PlanEnough(u, plan, start.value, r, steps, s');
    }
  }

  lemma PlanEnough(u: Update, plan: Plan, start: int32, r: State, steps: seq<Step>, s': State)
    requires u.PlanInv(plan) && |plan.base.Keys| == u.nodeCount && !Reuses(u, plan.base, Some(start))
    requires plan.batch == Batch(u.network, start, |plan.unhealthy|)
    requires u.CarriesOut(plan, r) && u.Exec(r, steps) == Some(s')
    ensures |s'.infra.Keys| >= u.nodeCount
  {
    u.ExecCarriesOn(plan, r, steps, s');
    u.Enough(plan, s');
    NoneReused(u, plan, start);
  }

  lemma NoneReused(u: Update, plan: Plan, start: int32)
    requires plan.unhealthy <= plan.base.Keys && |plan.base.Keys| == u.nodeCount && !Reuses(u, plan.base, Some(start))
    requires plan.batch == Batch(u.network, start, |plan.unhealthy|)
    ensures u.Reused(plan) == 0
  {
    SetFacts.SubsetSize(plan.unhealthy, plan.base.Keys);
    BatchGrows(u.network, start, |plan.unhealthy|, u.nodeCount);
    assert plan.base.Keys * plan.batch == {};
  }

  // ----- and a reused name loses a node -----

  lemma Then(u: Update, s: State, r: State, step: Step) returns (r': State)
    requires u.Leads(s, r) && u.Apply(r, step).Some?
    ensures u.Leads(s, r') && u.Apply(r, step) == Some(r')
  {
    var steps: seq<Step> :| u.Exec(s, steps) == Some(r);
    r' := u.Apply(r, step).value;
    var longer := steps + [step];
    assert longer[..|longer| - 1] == steps;
    assert u.Exec(s, longer) == Some(r');
  }

  lemma {:induction false} CreateAll(u: Update, s: State, r: State) returns (r': State)
    requires u.Leads(s, r) && r.at.ReplaceAdding? && !r.at.failed
    ensures u.Leads(s, r') && r'.at == ReplaceAdding(r.at.plan, {}, false)
    decreases |r.at.names|
  {
    r' := r;
    if r.at.names != {} {
      var name :| name in r.at.names;
      r' := Then(u, s, r, CreateTask(name, "new", Completed));
      r' := CreateAll(u, s, r');
    }
  }

  lemma {:induction false} RemoveAll(u: Update, s: State, r: State) returns (r': State)
    requires u.Leads(s, r) && r.at.ReplaceRemoving? && !r.at.failed
    ensures u.Leads(s, r') && r'.at == ReplaceRemoving(r.at.plan, {}, false)
    decreases |r.at.pending|
  {
    r' := r;
    if r.at.pending != {} {
      var n :| n in r.at.pending;
      r' := Then(u, s, r, RemoveTask(n, Completed));
      r' := RemoveAll(u, s, r');
    }
  }

  /** A plan can be carried out to the end without a failure. */
  lemma CompleteRun(u: Update, r: State, plan: Plan) returns (r': State)
    requires u.PlanInv(plan) && r.at == ReplaceAdding(plan, plan.batch, false) && u.CarriesOut(plan, r)
    ensures u.Leads(r, r') && r'.infra.Keys == u.FinalGroups(plan)
  {
    assert u.Exec(r, []) == Some(r);
    r' := CreateAll(u, r, r);
    r' := Then(u, r, r', BatchDone);
    r' := RemoveAll(u, r, r');
    r' := Then(u, r, r', BatchDone);
    var steps: seq<Step> :| u.Exec(r, steps) == Some(r');
    u.ExecCarriesOn(plan, r, steps, r');
  }

  /** A listed node for every group, none of them the primary, none with a recorded instance id. */
  function PlainNode(u: Update, name: string): NetworkNode { NetworkNode(u.primaryNodeId + "x", name, "", false, "Trusted") }

  function PlainNodes(u: Update, names: set<string>): set<NetworkNode> { set name | name in names :: PlainNode(u, name) }

  lemma AllDeleted(u: Update, base: Groups)
    ensures u.NodesIn(PlainNodes(u, base.Keys), base.Keys) == PlainNodes(u, base.Keys)
    ensures !u.HoldsPrimary(PlainNodes(u, base.Keys))
    ensures u.Deleted(base, PlainNodes(u, base.Keys)) == base.Keys
  {
    forall name | name in base.Keys ensures name in u.Deleted(base, PlainNodes(u, base.Keys)) {
      assert PlainNode(u, name) in PlainNodes(u, base.Keys) && Guard(base, PlainNode(u, name));
    }
  }

  /** Every group is reported as unhealthy, and every node can be removed. */
  lemma ReplaceEverything(u: Update, s: State, start: Option<int32>) returns (s': State)
    requires s.at.Deciding? && |s.infra.Keys| == u.nodeCount && Reuses(u, s.infra, start)
    ensures u.Leads(u.ReplaceFrom(s, start, s.infra.Keys, PlainNodes(u, s.infra.Keys)), s')
    ensures |s'.infra.Keys| < u.nodeCount
  {
    var all := s.infra.Keys;
    var plan := u.PlanFor(s.infra, start.value, all, PlainNodes(u, all));
    AllDeleted(u, s.infra);
    u.DecidesToReplace(s, start, all, PlainNodes(u, all), plan);
    s' := CompleteRun(u, u.ReplaceFrom(s, start, all, PlainNodes(u, all)), plan);
    u.FinalSize(plan);
    assert plan.unhealthy - u.Deleted(plan.base, plan.toRemove) == {};
  }

  lemma ReuseLosesANode(u: Update, s: State, listing: seq<string>) returns (s': State)
    requires s.at.Deciding? && s.endpoints == s.infra.Keys && |s.infra.Keys| == u.nodeCount && ReusesNamesOf(u, s, listing)
    ensures u.Leads(s, s') && |s'.infra.Keys| < u.nodeCount
  {
    s' := ReplaceEverything(u, s, u.firstNew(listing));
    var nodes := PlainNodes(u, s.infra.Keys);
    DecideStep(u, s, listing, u.firstNew(listing), nodes);
    Prepend(u, s, Decide(listing, s.infra.Keys, nodes), u.ReplaceFrom(s, u.firstNew(listing), s.infra.Keys, nodes), s');
  }

  lemma DecideStep(u: Update, s: State, listing: seq<string>, start: Option<int32>, nodes: set<NetworkNode>)
    requires s.at.Deciding? && s.endpoints == s.infra.Keys == (set n | n in listing) && start == u.firstNew(listing)
    ensures u.Apply(s, Decide(listing, s.infra.Keys, nodes)) == Some(u.ReplaceFrom(s, start, s.infra.Keys, nodes))
  {
    assert s.endpoints * s.infra.Keys == s.infra.Keys;
  }

  lemma Prepend(u: Update, s: State, step: Step, r: State, s': State)
    requires u.Apply(s, step) == Some(r) && u.Leads(r, s')
    ensures u.Leads(s, s')
  {
    var steps: seq<Step> :| u.Exec(r, steps) == Some(s');
    ExecCons(u, s, step, steps, r);
  }

  /** Once the count is as wanted, some continuation has fewer than `nodeCount` groups if and only if
      one of the next `nodeCount` names is in use. */
  lemma UnderProvisionedExactlyWhen(u: Update, infra: Groups, s: State)
    requires u.Ready(infra, s)
    ensures (exists s' :: u.Leads(s, s') && |s'.infra.Keys| < u.nodeCount) <==> ReusesNames(u, s)
  {
    u.ReadyCount(infra, s);
    if ReusesNames(u, s) {
      var listing: seq<string> :| ReusesNamesOf(u, s, listing);
      var s' := ReuseLosesANode(u, s, listing);
    } else {
      forall s' | u.Leads(s, s') ensures |s'.infra.Keys| >= u.nodeCount { NeverUnderProvisioned(u, infra, s, s'); }
    }
  }

  // ----- and which ordinals reuse a name -----

  lemma {:induction false} ListingOf(names: set<string>) returns (listing: seq<string>)
    ensures forall n :: n in listing <==> n in names
  {
    if names == {} {
      listing := [];
    } else {
      var name :| name in names;
      var rest := ListingOf(names - {name});
      listing := [name] + rest;
    }
  }

  lemma ListingReuses(u: Update, s: State, ordinals: set<nat>, listing: seq<string>)
    requires u.UsesStartOrdinal() && Lists(listing, u.network, ordinals) && s.infra.Keys == NamesOf(u.network, ordinals)
    ensures ReusesNamesOf(u, s, listing) <==> Overlaps(ordinals, u.nodeCount)
  {
    BatchReusesExactlyWhen(u.network, ordinals, listing, u.nodeCount);
    assert u.firstNew(listing) == StartOrdinal(listing);
    assert (set n | n in listing) == s.infra.Keys;
  }

  /** The groups have the names `network-k` for these ordinals: a new name is in use exactly when the
      largest of at most nine digits exceeds the largest one with its last digit dropped, and one of
      ten digits is at most `nodeCount` past it. */
  lemma ReusesNamesExactlyWhen(u: Update, s: State, ordinals: set<nat>)
    requires u.UsesStartOrdinal() && s.infra.Keys == NamesOf(u.network, ordinals) && ordinals != {}
    requires forall k :: k in ordinals ==> k < INT32_LIMIT
    ensures ReusesNames(u, s) <==> Overlaps(ordinals, u.nodeCount)
  {
    var k :| k in ordinals;
    assert NodeName(u.network, k) in s.infra.Keys;
    var listing := ListingOf(s.infra.Keys);
    assert NodeName(u.network, k) in listing && (set n | n in listing) == s.infra.Keys;
    ListingReuses(u, s, ordinals, listing);
    if ReusesNames(u, s) {
      var other: seq<string> :| ReusesNamesOf(u, s, other);
      assert NodeName(u.network, k) in set n | n in other;
      ListingReuses(u, s, ordinals, other);
    }
  }

  /** With the code's own rule: once the count is as wanted, some continuation has fewer than
      `nodeCount` groups if and only if the ordinals overlap in this way. */
  lemma UnderProvisionedOrdinals(u: Update, infra: Groups, s: State, ordinals: set<nat>)
    requires u.Ready(infra, s) && u.UsesStartOrdinal() && s.infra.Keys == NamesOf(u.network, ordinals) && ordinals != {}
    requires forall k :: k in ordinals ==> k < INT32_LIMIT
    ensures (exists s' :: u.Leads(s, s') && |s'.infra.Keys| < u.nodeCount) <==> Overlaps(ordinals, u.nodeCount)
  {
    UnderProvisionedExactlyWhen(u, infra, s);
    ReusesNamesExactlyWhen(u, s, ordinals);
  }

  /** A network of the wanted size whose ordinals overlap can lose a node. */
  lemma OverlapLosesANode(u: Update, infra: Groups, ordinals: set<nat>) returns (s: State, s': State)
    requires u.UsesStartOrdinal() && infra.Keys == NamesOf(u.network, ordinals) && |infra.Keys| == u.nodeCount
    requires ordinals != {} && (forall k :: k in ordinals ==> k < INT32_LIMIT) && Overlaps(ordinals, u.nodeCount)
    ensures u.Ready(infra, s) && u.Leads(s, s') && |s'.infra.Keys| < u.nodeCount
  {
    var listing := ListingOf(infra.Keys);
    assert (set n | n in listing) == infra.Keys;
    s := CountIsRight(u, infra, listing);
    UnderProvisionedOrdinals(u, infra, s, ordinals);
    s' :| u.Leads(s, s') && |s'.infra.Keys| < u.nodeCount;
  }

  /** So two groups with ordinals 10^9 - 1 and 10^9 can become one. */
  lemma BillionthNodeIsLost(u: Update, infra: Groups, k: nat) returns (s: State, s': State)
    requires u.UsesStartOrdinal() && k + 1 == BILLION && u.nodeCount == 2
    requires infra.Keys == NamesOf(u.network, {k, k + 1})
    ensures u.Ready(infra, s) && u.Leads(s, s') && |s'.infra.Keys| < 2
  {
    TwoNames(u, k);
    TwoOverlap(k);
    s, s' := OverlapLosesANode(u, infra, {k, k + 1});
  }

  lemma TwoOverlap(k: nat)
    requires k + 1 == BILLION
    ensures Overlaps({k, k + 1}, 2)
  {
    assert LargestShort({k, k + 1}, k) && IsMax({k, k + 1}, k + 1);
  }

  lemma TwoNames(u: Update, k: nat)
    ensures |NamesOf(u.network, {k, k + 1})| == 2
  {
    if NodeName(u.network, k) == NodeName(u.network, k + 1) { NodeNameInjective(u.network, k, k + 1); }
    assert NamesOf(u.network, {k, k + 1}) == {NodeName(u.network, k), NodeName(u.network, k + 1)};
  }

  lemma MeasureStep(u: Update, s: State, listing: seq<string>, start: Option<int32>)
    requires s.at.Measuring? && s.infra.Keys == (set n | n in listing) && |s.infra.Keys| == u.nodeCount
    requires start == u.firstNew(listing)
    ensures u.Apply(s, Measure(listing, None)) == Some(s.(endpoints := s.infra.Keys, at := Recounting))
  {
    assert u.ScaleFrom(s, start, None) == s.(endpoints := s.infra.Keys, at := Recounting);
  }

  lemma CountIsRight(u: Update, infra: Groups, listing: seq<string>) returns (s: State)
    requires (set n | n in listing) == infra.Keys && |infra.Keys| == u.nodeCount
    ensures u.Ready(infra, s) && s.infra == infra
  {
    s := Initial(infra);
    assert u.Exec(s, []) == Some(s);
    s := Then(u, Initial(infra), s, ListRetired({}));
    s := Then(u, Initial(infra), s, BatchDone);
    MeasureStep(u, s, listing, u.firstNew(listing));
    s := Then(u, Initial(infra), s, Measure(listing, None));
    s := Then(u, Initial(infra), s, Recount);
  }
}
