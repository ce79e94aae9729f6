/** UpdateNetwork: clean up retired nodes, scale to the wanted count, replace unhealthy nodes,
    refresh the load balancer. The container groups change only through the run itself; tasks of one
    batch finish in any order and may fail; everything CCF and the infra provider report is
    arbitrary. Names stand for their case-insensitive ids. */
module NetworkUpdate {
  import opened Outcomes
  import opened NaturalOrder
  import opened NodeNames
  import opened CcfNodes
  import opened ContainerGroups
  import SetFacts

  /** What the replacement phase set out to do, and the groups there were at that point. */
  datatype Plan = Plan(base: Groups, unhealthy: set<string>, batch: set<string>, toRemove: set<NetworkNode>)

  datatype Point =
    | Starting
    | CleaningUp(pending: set<NetworkNode>, any: bool, failed: bool)
    | Measuring
    | ScalingUp(names: set<string>, failed: bool)
    | ScalingDown(pending: set<NetworkNode>, any: bool, failed: bool)
    | Recounting
    | Deciding                 // the count is as wanted: look for unhealthy nodes
    | ReplaceAdding(plan: Plan, names: set<string>, failed: bool)
    | ReplaceRemoving(plan: Plan, pending: set<NetworkNode>, failed: bool)
    | Refreshing
    | Finished(health: set<string>)
    | Aborted

  datatype State = State(
    infra: Groups, at: Point, endpoints: set<string>,
    retiredAny: bool, addedAny: bool, removedAny: bool,
    servers: Option<set<string>>,
    acted: bool,               // history: a batch with at least one task was started
    infraChanged: bool)        // history: a group was created or deleted

  function Initial(infra: Groups): State { State(infra, Starting, {}, false, false, false, None, false, false) }

  /** How a task of a batch ends. A timeout of a cleanup task is ignored; every other failure aborts
      the run after the batch, possibly with the group already created or deleted. */
  datatype Ending = Completed | TimedOut | Faulted(acted: bool)

  /** One atomic step, with what the outside world answers. `health` are the groups reported as
      needing replacement, `nodes` is what CCF lists. */
  datatype Step =
    | ListRetired(nodes: set<NetworkNode>)
    | CleanupTask(node: NetworkNode, ending: Ending)
    | CreateTask(name: string, id: string, ending: Ending)
    | RemoveTask(node: NetworkNode, ending: Ending)
    | BatchDone
    | Measure(listing: seq<string>, picked: Option<set<NetworkNode>>)
    | Recount
    | Decide(listing: seq<string>, health: set<string>, nodes: set<NetworkNode>)
    | Refresh(health: set<string>, ready: bool)

  // ----- the infra provider -----

  predicate Guard(infra: Groups, node: NetworkNode) { GuardPasses(infra, node.name, node.instanceId) }

  function DeleteNode(infra: Groups, node: NetworkNode): Groups { Delete(infra, node.name, node.instanceId) }

  /** The groups after a task that would turn them into `infra'`. */
  function AfterTask(infra: Groups, infra': Groups, ending: Ending): Groups {
    if ending == Completed || ending == Faulted(true) then infra' else infra
  }

  function RunTask(s: State, infra': Groups, ending: Ending): State {
    var left := AfterTask(s.infra, infra', ending);
    s.(infra := left, infraChanged := s.infraChanged || left != s.infra)
  }

  // ----- the run -----

  /** A number of nodes: a 32-bit integer. */
  type NodeCount = n: nat | n < INT32_LIMIT

  /** A call of UpdateNetwork. `firstNew` gives the first ordinal of a batch of new nodes from the names
      listed; the code uses NodeNames.StartOrdinal, and most of what follows holds for any rule. */
  datatype Update = Update(network: string, nodeCount: NodeCount, primaryNodeId: string, firstNew: seq<string> -> Option<int32>)
  {
    ghost predicate UsesStartOrdinal() { forall listing: seq<string> :: firstNew(listing) == StartOrdinal(listing) }

    function AfterBatch(s: State, failed: bool, next: State): State {
      if failed then s.(at := Aborted) else next
    }

    function Apply(s: State, step: Step): Option<State> {
      match s.at
      case Starting => CleanupPhase(s, step)
      case CleaningUp(_, _, _) => CleanupPhase(s, step)
      case Measuring => if step.Measure? then MeasureNodes(s, step.listing, step.picked) else None
      case ScalingUp(_, _) => ScalePhase(s, step)
      case ScalingDown(_, _, _) => ScalePhase(s, step)
      case Recounting => if step.Recount? then Some(RecountNodes(s)) else None
      case Deciding => if step.Decide? then DecideReplacement(s, step.listing, step.health, step.nodes) else None
      case ReplaceAdding(_, _, _) => ReplacePhase(s, step)
      case ReplaceRemoving(_, _, _) => ReplacePhase(s, step)
      case Refreshing => if step.Refresh? then Some(RefreshServers(s, step.health, step.ready)) else None
      case _ => None
    }

    function CleanupPhase(s: State, step: Step): Option<State> {
      match (s.at, step)
      case (Starting, ListRetired(nodes)) =>
        var retired := set n | n in nodes && n.status == RETIRED;
        Some(s.(at := CleaningUp(retired, retired != {}, false), acted := retired != {}))
      case (CleaningUp(pending, any, failed), CleanupTask(n, ending)) =>
        if n !in pending then None
        else Some(RunTask(s, DeleteNode(s.infra, n), ending).(at := CleaningUp(pending - {n}, any, failed || ending.Faulted?)))
      case (CleaningUp(pending, any, failed), BatchDone) =>
        if pending != {} then None
        else Some(AfterBatch(s, failed, s.(at := Measuring, retiredAny := any)))
      case _ => None
    }

    /** The listing names every group; the nodes to remove are picked, or picking aborts. */
    function MeasureNodes(s: State, listing: seq<string>, picked: Option<set<NetworkNode>>): Option<State> {
      if (set n | n in listing) != s.infra.Keys then None
      else Some(ScaleFrom(s, firstNew(listing), picked))
    }

    function ScaleFrom(s: State, start: Option<int32>, picked: Option<set<NetworkNode>>): State {
      var s' := s.(endpoints := s.infra.Keys);
      if nodeCount > |s'.endpoints| then
        if start.None? then s.(at := Aborted)
        else s'.(at := ScalingUp(Batch(network, start.value, nodeCount - |s'.endpoints|), false), acted := true)
      else if nodeCount < |s'.endpoints| then
        if picked.None? then s.(at := Aborted)
        else s'.(at := ScalingDown(picked.value, picked.value != {}, false), acted := s.acted || picked.value != {})
      else s'.(at := Recounting)
    }

    function ScalePhase(s: State, step: Step): Option<State> {
      match (s.at, step)
      case (ScalingUp(names, failed), CreateTask(name, id, ending)) =>
        if name !in names then None
        else Some(RunTask(s, GetOrCreate(s.infra, name, id), ending).(
                    at := ScalingUp(names - {name}, failed || !ending.Completed?)))
      case (ScalingUp(names, failed), BatchDone) =>
        if names != {} then None
        else Some(AfterBatch(s, failed, s.(at := Recounting, addedAny := true)))
      case (ScalingDown(pending, any, failed), RemoveTask(n, ending)) =>
        if n !in pending then None
        else Some(RunTask(s, DeleteNode(s.infra, n), ending).(at := ScalingDown(pending - {n}, any, failed || !ending.Completed?)))
      case (ScalingDown(pending, any, failed), BatchDone) =>
        if pending != {} then None
        else Some(AfterBatch(s, failed, s.(at := Recounting, removedAny := any)))
      case _ => None
    }

    function RecountNodes(s: State): State {
      var s' := if s.addedAny || s.removedAny then s.(endpoints := s.infra.Keys) else s;
      s'.(at := if nodeCount == |s'.endpoints| then Deciding else Refreshing)
    }

    function ReplacePhase(s: State, step: Step): Option<State> {
      match (s.at, step)
      case (ReplaceAdding(plan, names, failed), CreateTask(name, id, ending)) =>
        if name !in names then None
        else Some(RunTask(s, GetOrCreate(s.infra, name, id), ending).(
                    at := ReplaceAdding(plan, names - {name}, failed || !ending.Completed?)))
      case (ReplaceAdding(plan, names, failed), BatchDone) =>
        if names != {} then None
        else Some(AfterBatch(s, failed,
                    s.(at := ReplaceRemoving(plan, plan.toRemove, false), addedAny := plan.batch != {})))
      case (ReplaceRemoving(plan, pending, failed), RemoveTask(n, ending)) =>
        if n !in pending then None
        else Some(RunTask(s, DeleteNode(s.infra, n), ending).(
                    at := ReplaceRemoving(plan, pending - {n}, failed || !ending.Completed?)))
      case (ReplaceRemoving(plan, pending, failed), BatchDone) =>
        if pending != {} then None
        else Some(AfterBatch(s, failed, s.(at := Refreshing, removedAny := plan.toRemove != {})))
      case _ => None
    }

    function RefreshServers(s: State, health: set<string>, ready: bool): State {
      if !Flagged(s) then s.(at := Finished(health))
      else
        var s' := s.(endpoints := s.infra.Keys, servers := Some(s.infra.Keys - health));
        s'.(at := if ready then Finished(health) else Aborted)
    }

    /** The listed nodes that run in a group to be replaced. */
    function NodesIn(nodes: set<NetworkNode>, groups: set<string>): set<NetworkNode> {
      set n | n in nodes && n.name in groups
    }

    /** Nothing is replaced while a node to be replaced is, or was taken for, the primary. */
    predicate HoldsPrimary(nodes: set<NetworkNode>) {
      exists n :: n in nodes && (n.primary || n.nodeId == primaryNodeId)
    }

    function DecideReplacement(s: State, listing: seq<string>, health: set<string>, nodes: set<NetworkNode>): Option<State> {
      if (set n | n in listing) != s.endpoints then None
      else Some(ReplaceFrom(s, firstNew(listing), s.endpoints * health, nodes))
    }

    function ReplaceFrom(s: State, start: Option<int32>, unhealthy: set<string>, nodes: set<NetworkNode>): State {
      var toRemove := NodesIn(nodes, unhealthy);
      if unhealthy == {} || HoldsPrimary(toRemove) then s.(at := Refreshing)
      else if start.None? then s.(at := Aborted)
      else
        var batch := Batch(network, start.value, |unhealthy|);
        s.(at := ReplaceAdding(Plan(s.infra, unhealthy, batch, toRemove), batch, false), acted := true)
    }

    function Exec(s: State, steps: seq<Step>): Option<State> {
      if steps == [] then Some(s)
      else
        var n := |steps| - 1;
        match Exec(s, steps[..n])
        case None => None
        case Some(r) => Apply(r, steps[n])
    }

    ghost predicate Leads(s: State, s': State) { exists steps: seq<Step> :: Exec(s, steps) == Some(s') }

    // ----- the load balancer hears of every change -----

    predicate Flagged(s: State) { s.retiredAny || s.addedAny || s.removedAny }

    /** Every batch is, or is about to be, recorded in one of the three flags. */
    ghost predicate FlagInv(s: State) {
      && (s.at.Finished? || s.at.Aborted? || s.servers.None?)
      && (s.infraChanged ==> s.acted)
      && match s.at
         case Starting => !s.acted && !Flagged(s)
         case CleaningUp(pending, any, _) => s.acted == any && !Flagged(s) && (pending != {} ==> any)
         case Measuring => s.acted == Flagged(s) && !s.removedAny
         case ScalingUp(_, _) => s.acted
         case ScalingDown(pending, any, _) => s.acted == (Flagged(s) || any) && !s.removedAny && (pending != {} ==> any)
         case ReplaceAdding(plan, _, _) => s.acted && plan.batch != {}
         case ReplaceRemoving(plan, _, _) => s.acted && s.addedAny
         case Finished(health) =>
           && (s.acted <==> s.servers.Some?)
           && (s.servers.Some? ==> s.servers.value == s.infra.Keys - health)
         case Aborted => true
         case _ => s.acted == Flagged(s)
    }

    lemma CleanupKeepsFlags(s: State, step: Step, s': State)
      requires FlagInv(s) && (s.at.Starting? || s.at.CleaningUp?) && CleanupPhase(s, step) == Some(s')
      ensures FlagInv(s')
    {
    }

    lemma ScaleKeepsFlags(s: State, step: Step, s': State)
      requires FlagInv(s) && (s.at.ScalingUp? || s.at.ScalingDown?) && ScalePhase(s, step) == Some(s')
      ensures FlagInv(s')
    {
    }

    lemma ReplaceKeepsFlags(s: State, step: Step, s': State)
      requires FlagInv(s) && (s.at.ReplaceAdding? || s.at.ReplaceRemoving?) && ReplacePhase(s, step) == Some(s')
      ensures FlagInv(s')
    {
    }

    lemma DecideKeepsFlags(s: State, start: Option<int32>, unhealthy: set<string>, nodes: set<NetworkNode>)
      requires FlagInv(s) && s.at.Deciding?
      ensures FlagInv(ReplaceFrom(s, start, unhealthy, nodes))
    {
      if start.Some? && unhealthy != {} { assert NodeName(network, start.value) in Batch(network, start.value, |unhealthy|); }
    }

    lemma MeasureKeepsFlags(s: State, start: Option<int32>, picked: Option<set<NetworkNode>>)
      requires FlagInv(s) && s.at.Measuring?
      ensures FlagInv(ScaleFrom(s, start, picked))
    {
    }

    lemma RefreshKeepsFlags(s: State, health: set<string>, ready: bool)
      requires FlagInv(s) && s.at.Refreshing?
      ensures FlagInv(RefreshServers(s, health, ready))
    {
    }

    lemma StepKeepsFlags(s: State, step: Step, s': State)
      requires FlagInv(s) && Apply(s, step) == Some(s')
      ensures FlagInv(s')
    {
      match s.at
      case Starting => CleanupKeepsFlags(s, step, s');
      case CleaningUp(_, _, _) => CleanupKeepsFlags(s, step, s');
      case Measuring => MeasureKeepsFlags(s, firstNew(step.listing), step.picked);
      case ScalingUp(_, _) => ScaleKeepsFlags(s, step, s');
      case ScalingDown(_, _, _) => ScaleKeepsFlags(s, step, s');
      case Recounting =>
      case Deciding => DecideKeepsFlags(s, firstNew(step.listing), s.endpoints * step.health, step.nodes);
      case ReplaceAdding(_, _, _) => ReplaceKeepsFlags(s, step, s');
      case ReplaceRemoving(_, _, _) => ReplaceKeepsFlags(s, step, s');
      case Refreshing => RefreshKeepsFlags(s, step.health, step.ready);
    }

    lemma {:induction false} ExecKeepsFlags(s: State, steps: seq<Step>, s': State)
      requires FlagInv(s) && Exec(s, steps) == Some(s')
      ensures FlagInv(s')
    {
      if steps != [] {
        var n := |steps| - 1;
        ExecKeepsFlags(s, steps[..n], Exec(s, steps[..n]).value);
        StepKeepsFlags(Exec(s, steps[..n]).value, steps[n], s');
      }
    }

    /** Although the replacement phase overwrites two of the flags, a run that finishes has sent the
        load balancer a server list exactly when it started a cleanup, add or remove batch with at
        least one task, so in particular whenever it created or deleted a group; and the list sent is
        exactly the groups not reported as needing replacement. */
    lemma RefreshLosesNoChange(infra: Groups, s: State)
      requires Leads(Initial(infra), s) && s.at.Finished?
      ensures s.acted <==> s.servers.Some?
      ensures s.infraChanged ==> s.acted
      ensures s.servers.Some? ==> s.servers.value == s.infra.Keys - s.at.health
    {
      var steps: seq<Step> :| Exec(Initial(infra), steps) == Some(s);
      ExecKeepsFlags(Initial(infra), steps, s);
    }

    // ----- the count that starts a replacement is the real one -----

    ghost predicate EndpointInv(s: State) {
      match s.at
      case ScalingDown(pending, any, _) => any || (pending == {} && s.endpoints == s.infra.Keys)
      case Recounting => s.addedAny || s.removedAny || s.endpoints == s.infra.Keys
      case Deciding => s.endpoints == s.infra.Keys && |s.infra.Keys| == nodeCount
      case _ => true
    }

    lemma ScaleKeepsEndpoints(s: State, step: Step, s': State)
      requires EndpointInv(s) && (s.at.ScalingUp? || s.at.ScalingDown?) && ScalePhase(s, step) == Some(s')
      ensures EndpointInv(s')
    {
    }

    lemma StepKeepsEndpoints(s: State, step: Step, s': State)
      requires EndpointInv(s) && Apply(s, step) == Some(s')
      ensures EndpointInv(s')
    {
      match s.at
      case Starting => CleanupEndpoints(s, step, s');
      case CleaningUp(_, _, _) => CleanupEndpoints(s, step, s');
      case Measuring => MeasureEndpoints(s, firstNew(step.listing), step.picked);
      case ScalingUp(_, _) => ScaleKeepsEndpoints(s, step, s');
      case ScalingDown(_, _, _) => ScaleKeepsEndpoints(s, step, s');
      case Recounting => RecountEndpoints(s);
      case Deciding => DecideEndpoints(s, firstNew(step.listing), s.endpoints * step.health, step.nodes);
      case ReplaceAdding(_, _, _) => ReplaceEndpoints(s, step, s');
      case ReplaceRemoving(_, _, _) => ReplaceEndpoints(s, step, s');
      case Refreshing =>
    }

    lemma RecountEndpoints(s: State)
      requires EndpointInv(s) && s.at.Recounting?
      ensures EndpointInv(RecountNodes(s))
    {
    }

    lemma DecideEndpoints(s: State, start: Option<int32>, unhealthy: set<string>, nodes: set<NetworkNode>)
      ensures EndpointInv(ReplaceFrom(s, start, unhealthy, nodes))
    {
    }

    lemma CleanupEndpoints(s: State, step: Step, s': State)
      requires CleanupPhase(s, step) == Some(s')
      ensures EndpointInv(s')
    {
    }

    lemma MeasureEndpoints(s: State, start: Option<int32>, picked: Option<set<NetworkNode>>)
      ensures EndpointInv(ScaleFrom(s, start, picked))
    {
    }

    lemma ReplaceEndpoints(s: State, step: Step, s': State)
      requires ReplacePhase(s, step) == Some(s')
      ensures EndpointInv(s')
    {
    }

    lemma {:induction false} ExecKeepsEndpoints(s: State, steps: seq<Step>, s': State)
      requires EndpointInv(s) && Exec(s, steps) == Some(s')
      ensures EndpointInv(s')
    {
      if steps != [] {
        var n := |steps| - 1;
        ExecKeepsEndpoints(s, steps[..n], Exec(s, steps[..n]).value);
        StepKeepsEndpoints(Exec(s, steps[..n]).value, steps[n], s');
      }
    }

    // ----- what a replacement leaves behind -----

    /** A run has come to the point where the count is as wanted. */
    ghost predicate Ready(infra: Groups, s: State) { Leads(Initial(infra), s) && s.at.Deciding? }

    lemma ReadyCount(infra: Groups, s: State)
      requires Ready(infra, s)
      ensures s.endpoints == s.infra.Keys && |s.infra.Keys| == nodeCount
    {
      var steps: seq<Step> :| Exec(Initial(infra), steps) == Some(s);
      ExecKeepsEndpoints(Initial(infra), steps, s);
    }

    ghost predicate PlanInv(plan: Plan) {
      && plan.unhealthy <= plan.base.Keys && |plan.batch| == |plan.unhealthy|
      && forall n :: n in plan.toRemove ==> n.name in plan.unhealthy
    }

    /** The groups that a node among `done` may delete. */
    ghost function Deleted(base: Groups, done: set<NetworkNode>): set<string> {
      set n | n in done && Guard(base, n) :: n.name
    }

    ghost predicate AddInv(plan: Plan, names: set<string>, failed: bool, infra: Groups) {
      && names <= plan.batch
      && plan.base.Keys <= infra.Keys <= plan.base.Keys + plan.batch
      && (forall k :: k in plan.base ==> infra[k] == plan.base[k])
      && (!failed ==> infra.Keys == plan.base.Keys + (plan.batch - names))
    }

    ghost predicate RemoveInv(plan: Plan, pending: set<NetworkNode>, failed: bool, infra: Groups) {
      && pending <= plan.toRemove
      && plan.base.Keys + plan.batch - plan.unhealthy <= infra.Keys <= plan.base.Keys + plan.batch
      && (forall k :: k in plan.base && k in infra ==> infra[k] == plan.base[k])
      && (!failed ==> infra.Keys == plan.base.Keys + plan.batch - Deleted(plan.base, plan.toRemove - pending))
    }

    ghost function FinalGroups(plan: Plan): set<string> {
      plan.base.Keys + plan.batch - Deleted(plan.base, plan.toRemove)
    }

    /** How many new names are names of groups that were there. */
    function Reused(plan: Plan): nat { |plan.base.Keys * plan.batch| }

    /** A run that is carrying out `plan`, or has done so. */
    ghost predicate CarriesOut(plan: Plan, s: State) {
      match s.at
      case ReplaceAdding(p, names, failed) => p == plan && AddInv(plan, names, failed, s.infra)
      case ReplaceRemoving(p, pending, failed) => p == plan && RemoveInv(plan, pending, failed, s.infra)
      case Refreshing => s.infra.Keys == FinalGroups(plan)
      case Finished(_) => s.infra.Keys == FinalGroups(plan)
      case Aborted => |s.infra.Keys| + Reused(plan) >= |plan.base.Keys|
      case _ => false
    }

    lemma CreateKeepsAdd(plan: Plan, infra: Groups, names: set<string>, failed: bool, name: string, id: string, ending: Ending)
      requires AddInv(plan, names, failed, infra) && name in names
      ensures AddInv(plan, names - {name}, failed || !ending.Completed?, AfterTask(infra, GetOrCreate(infra, name, id), ending))
    {
    }

    lemma RemoveKeepsRemove(plan: Plan, infra: Groups, pending: set<NetworkNode>, failed: bool, n: NetworkNode, ending: Ending)
      requires PlanInv(plan) && RemoveInv(plan, pending, failed, infra) && n in pending
      ensures RemoveInv(plan, pending - {n}, failed || !ending.Completed?, AfterTask(infra, DeleteNode(infra, n), ending))
    {
      var infra' := AfterTask(infra, DeleteNode(infra, n), ending);
      assert n.name in plan.unhealthy;
      assert infra'.Keys == infra.Keys || infra'.Keys == infra.Keys - {n.name};
      if !failed && ending.Completed? {
        DeletedGrows(plan, pending, n);
        assert n.name in infra ==> (Guard(infra, n) <==> Guard(plan.base, n));
      }
    }

    lemma DeletedGrows(plan: Plan, pending: set<NetworkNode>, n: NetworkNode)
      requires pending <= plan.toRemove && n in pending
      ensures Deleted(plan.base, plan.toRemove - (pending - {n}))
           == Deleted(plan.base, plan.toRemove - pending) + (if Guard(plan.base, n) then {n.name} else {})
    {
      assert plan.toRemove - (pending - {n}) == plan.toRemove - pending + {n};
    }

    /** In every phase of the replacement there are at least as many groups as at its start, less the
        reused names. */
    lemma Enough(plan: Plan, s: State)
      requires PlanInv(plan) && CarriesOut(plan, s)
      ensures |s.infra.Keys| + Reused(plan) >= |plan.base.Keys|
    {
      match s.at
      case ReplaceAdding(_, _, _) => SetFacts.SubsetSize(plan.base.Keys, s.infra.Keys);
      case ReplaceRemoving(_, _, _) => RemainingSize(plan, s.infra.Keys);
      case Refreshing => FinalSize(plan);
      case Finished(_) => FinalSize(plan);
      case _ =>
    }

    lemma RemainingSize(plan: Plan, left: set<string>)
      requires PlanInv(plan) && plan.base.Keys + plan.batch - plan.unhealthy <= left
      ensures |left| + Reused(plan) >= |plan.base.Keys|
    {
      var all := plan.base.Keys + plan.batch;
      SetFacts.UnionSize(plan.base.Keys, plan.batch);
      SetFacts.SubsetSize(plan.unhealthy, all);
      SetFacts.SubsetSize(all - plan.unhealthy, left);
    }

    lemma FinalSize(plan: Plan)
      requires PlanInv(plan)
      ensures |FinalGroups(plan)| == |plan.base.Keys| + |plan.unhealthy - Deleted(plan.base, plan.toRemove)| - Reused(plan)
    {
      var deleted := Deleted(plan.base, plan.toRemove);
      SetFacts.UnionSize(plan.base.Keys, plan.batch);
      SetFacts.SubsetSize(deleted, plan.unhealthy);
      SetFacts.SubsetSize(deleted, plan.base.Keys + plan.batch);
    }

    lemma NewPlan(plan: Plan)
      ensures AddInv(plan, plan.batch, false, plan.base)
    {
      assert plan.batch - plan.batch == {};
      assert plan.base.Keys + {} == plan.base.Keys;
    }

    lemma AllAdded(plan: Plan, infra: Groups)
      requires AddInv(plan, {}, false, infra)
      ensures RemoveInv(plan, plan.toRemove, false, infra)
    {
      assert Deleted(plan.base, plan.toRemove - plan.toRemove) == {};
      assert plan.batch - {} == plan.batch;
    }

    lemma AddingCarriesOn(plan: Plan, s: State, step: Step, s': State)
      requires PlanInv(plan) && s.at.ReplaceAdding? && CarriesOut(plan, s) && ReplacePhase(s, step) == Some(s')
      ensures CarriesOut(plan, s')
    {
      if step.BatchDone? {
        Enough(plan, s);
        if !s.at.failed { AllAdded(plan, s.infra); }
      } else {
        CreateKeepsAdd(plan, s.infra, s.at.names, s.at.failed, step.name, step.id, step.ending);
      }
    }

    lemma RemovingCarriesOn(plan: Plan, s: State, step: Step, s': State)
      requires PlanInv(plan) && s.at.ReplaceRemoving? && CarriesOut(plan, s) && ReplacePhase(s, step) == Some(s')
      ensures CarriesOut(plan, s')
    {
      if step.BatchDone? {
        Enough(plan, s);
        assert plan.toRemove - {} == plan.toRemove;
      } else {
        RemoveKeepsRemove(plan, s.infra, s.at.pending, s.at.failed, step.node, step.ending);
      }
    }

    /** Every step of the replacement, failed or not, keeps what it has done within its plan. */
    lemma StepCarriesOn(plan: Plan, s: State, step: Step, s': State)
      requires PlanInv(plan) && CarriesOut(plan, s) && Apply(s, step) == Some(s')
      ensures CarriesOut(plan, s')
    {
      match s.at
      case ReplaceAdding(_, _, _) => AddingCarriesOn(plan, s, step, s');
      case ReplaceRemoving(_, _, _) => RemovingCarriesOn(plan, s, step, s');
      case Refreshing => FinalSize(plan);
    }

    lemma {:induction false} ExecCarriesOn(plan: Plan, s: State, steps: seq<Step>, s': State)
      requires PlanInv(plan) && CarriesOut(plan, s) && Exec(s, steps) == Some(s')
      ensures CarriesOut(plan, s')
    {
      if steps != [] {
        var n := |steps| - 1;
        var r := Exec(s, steps[..n]).value;
        ExecCarriesOn(plan, s, steps[..n], r);
        StepCarriesOn(plan, r, steps[n], s');
      }
    }

    /** A run that replaces nothing leaves the groups alone. */
    ghost predicate LeavesAlone(base: Groups, s: State) {
      (s.at.Refreshing? || s.at.Finished? || s.at.Aborted?) && s.infra == base
    }

    lemma {:induction false} ExecLeavesAlone(base: Groups, s: State, steps: seq<Step>, s': State)
      requires LeavesAlone(base, s) && Exec(s, steps) == Some(s')
      ensures LeavesAlone(base, s')
    {
      if steps != [] {
        var n := |steps| - 1;
        ExecLeavesAlone(base, s, steps[..n], Exec(s, steps[..n]).value);
      }
    }

    /** What the answers to the one decision of a run amount to: replace the groups reported as
        unhealthy, unless there are none or one of them runs the primary. */
    predicate Replaces(unhealthy: set<string>, nodes: set<NetworkNode>) {
      unhealthy != {} && !HoldsPrimary(NodesIn(nodes, unhealthy))
    }

    /** The plan those answers lead to. */
    function PlanFor(base: Groups, start: int32, unhealthy: set<string>, nodes: set<NetworkNode>): Plan {
      Plan(base, unhealthy, Batch(network, start, |unhealthy|), NodesIn(nodes, unhealthy))
    }

    lemma DecidesNothing(s: State, start: Option<int32>, unhealthy: set<string>, nodes: set<NetworkNode>)
      requires s.at.Deciding? && !Replaces(unhealthy, nodes)
      ensures LeavesAlone(s.infra, ReplaceFrom(s, start, unhealthy, nodes))
    {
    }

    lemma DecidesToAbort(s: State, start: Option<int32>, unhealthy: set<string>, nodes: set<NetworkNode>)
      requires s.at.Deciding? && Replaces(unhealthy, nodes) && start.None?
      ensures ReplaceFrom(s, start, unhealthy, nodes) == s.(at := Aborted)
    {
    }

    lemma DecidesToReplace(s: State, start: Option<int32>, unhealthy: set<string>, nodes: set<NetworkNode>, plan: Plan)
      requires s.at.Deciding? && unhealthy <= s.infra.Keys && |s.infra.Keys| == nodeCount
      requires Replaces(unhealthy, nodes) && start.Some?
      requires plan == PlanFor(s.infra, start.value, unhealthy, nodes)
      ensures PlanInv(plan)
      ensures var r := ReplaceFrom(s, start, unhealthy, nodes);
              r.at == ReplaceAdding(plan, plan.batch, false) && CarriesOut(plan, r)
    {
      SetFacts.SubsetSize(unhealthy, s.infra.Keys);
      BatchSize(network, start.value, |unhealthy|);
      NewPlan(plan);
    }

    /** The groups a replacement ends with, and how many they are: those there were, plus the batch
        of new names, minus the unhealthy groups that the record of a listed node allows to delete;
        and so `nodeCount` groups, plus the unhealthy ones that no listed node could delete, minus the
        new names that were in use. */
    ghost predicate Replaced(base: Groups, start: int32, unhealthy: set<string>, nodes: set<NetworkNode>, left: set<string>) {
      var batch := Batch(network, start, |unhealthy|);
      var deleted := set n | n in nodes && n.name in unhealthy && Guard(base, n) :: n.name;
      && left == base.Keys + batch - deleted
      && |left| == nodeCount + |unhealthy - deleted| - |base.Keys * batch|
    }

    lemma FinalIsReplaced(base: Groups, start: int32, unhealthy: set<string>, nodes: set<NetworkNode>)
      requires |base.Keys| == nodeCount && PlanInv(PlanFor(base, start, unhealthy, nodes))
      ensures Replaced(base, start, unhealthy, nodes, FinalGroups(PlanFor(base, start, unhealthy, nodes)))
    {
      FinalSize(PlanFor(base, start, unhealthy, nodes));
      assert Deleted(base, NodesIn(nodes, unhealthy))
          == set n | n in nodes && n.name in unhealthy && Guard(base, n) :: n.name;
    }

    /** A run that decides with these answers and finishes. When they ask for no replacement the
        groups are untouched; otherwise it ends with exactly the groups of `Replaced`. */
    lemma FinalCount(infra: Groups, s: State, listing: seq<string>, health: set<string>, nodes: set<NetworkNode>, r: State, s': State)
      requires Ready(infra, s) && Apply(s, Decide(listing, health, nodes)) == Some(r)
      requires Leads(r, s') && s'.at.Finished?
      ensures !Replaces(s.infra.Keys * health, nodes) ==> s'.infra == s.infra
      ensures Replaces(s.infra.Keys * health, nodes) ==>
                && firstNew(listing).Some?
                && Replaced(s.infra, firstNew(listing).value, s.infra.Keys * health, nodes, s'.infra.Keys)
    {
      ReadyCount(infra, s);
      FinishFrom(s, firstNew(listing), s.infra.Keys * health, nodes, s');
    }

    lemma FinishFrom(s: State, start: Option<int32>, unhealthy: set<string>, nodes: set<NetworkNode>, s': State)
      requires s.at.Deciding? && unhealthy <= s.infra.Keys && |s.infra.Keys| == nodeCount
      requires Leads(ReplaceFrom(s, start, unhealthy, nodes), s') && s'.at.Finished?
      ensures !Replaces(unhealthy, nodes) ==> s'.infra == s.infra
      ensures Replaces(unhealthy, nodes) ==> start.Some? && Replaced(s.infra, start.value, unhealthy, nodes, s'.infra.Keys)
    {
      var r := ReplaceFrom(s, start, unhealthy, nodes);
      var steps: seq<Step> :| Exec(r, steps) == Some(s');
      if !Replaces(unhealthy, nodes) {
        DecidesNothing(s, start, unhealthy, nodes);
        ExecLeavesAlone(s.infra, r, steps, s');
      } else if start.None? {
        DecidesToAbort(s, start, unhealthy, nodes);
        StaysAborted(r, steps, s');
      } else {
        var plan := PlanFor(s.infra, start.value, unhealthy, nodes);
        DecidesToReplace(s, start, unhealthy, nodes, plan);
        PlanFinishes(plan, start.value, unhealthy, nodes, r, steps, s');
      }
    }

    lemma PlanFinishes(plan: Plan, start: int32, unhealthy: set<string>, nodes: set<NetworkNode>, r: State, steps: seq<Step>, s': State)
      requires PlanInv(plan) && plan == PlanFor(plan.base, start, unhealthy, nodes) && |plan.base.Keys| == nodeCount
      requires CarriesOut(plan, r) && Exec(r, steps) == Some(s') && s'.at.Finished?
      ensures Replaced(plan.base, start, unhealthy, nodes, s'.infra.Keys)
    {
      ExecCarriesOn(plan, r, steps, s');
      FinalIsReplaced(plan.base, start, unhealthy, nodes);
    }

    lemma {:induction false} StaysAborted(s: State, steps: seq<Step>, s': State)
      requires Exec(s, steps) == Some(s')
      ensures s.at.Aborted? ==> s' == s
    {
      if steps != [] {
        var n := |steps| - 1;
        StaysAborted(s, steps[..n], Exec(s, steps[..n]).value);
      }
    }
  }
}
