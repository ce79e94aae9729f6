/** Removal and cleanup tasks against the infra provider, with everything around them that can
    change: container groups created, replaced or torn down under reused names, nodes joining,
    retiring and becoming removable, several tasks for the same node. */
module InstanceGuard {
  import opened Outcomes
  import opened ContainerGroups

  /** What a node's data records: its name, and the instance id of its container group, empty when
      nothing was recorded. */
  datatype Entry = Entry(name: string, instanceId: string)

  datatype Phase =
    | Propose           // RemoveNodes, node not yet retired: submit the remove_node proposal
    | AwaitRetired
    | AwaitRemovable    // where CleanupRetiredNodes starts
    | Lookup            // DeleteNode: fetch the container group and compare its tag
    | Deleting(known: set<string>)  // the guard has passed; `known` are the ids minted so far
    | DropEntry         // ask CCF to forget the node
    | Done

  datatype Task = Task(node: nat, entry: Entry, phase: Phase)

  /** A container group `victim` was deleted on behalf of `node`; `late` when it was created
      after the tag had been compared. */
  datatype Deletion = Deletion(node: nat, entry: Entry, victim: string, late: bool)

  /** `joined`, `group` and `everRemovable` remember every entry, the group each node ran in and every
      removable node there has been. */
  datatype State = State(
    infra: Groups,
    minted: set<string>,             // every instance id handed out
    creating: map<nat, string>,      // creators that found no group of that name
    listed: map<nat, Entry>,         // what CCF lists
    retired: set<nat>,
    removable: set<nat>,
    joined: map<nat, Entry>,
    group: map<nat, string>,
    everRemovable: set<nat>,
    tasks: map<nat, Task>,
    log: seq<Deletion>)

  const INITIAL := State(map[], {}, map[], map[], {}, {}, map[], map[], {}, map[], [])

  datatype Step =
    | LookForGroup(creator: nat, name: string)  // a create path: only when there is no such group
    | CreateGroup(creator: nat, id: string)     // ... mint an id and send the request
    | Teardown(name: string)                    // the group is deleted by something else
    | Join(node: nat, name: string, recorded: bool)  // the node of that group joins
    | Retire(node: nat)
    | MakeRemovable(node: nat)
    | Forget(node: nat)
    | StartTask(task: nat, node: nat, cleanup: bool)
    | Advance(task: nat)
    | Abandon(task: nat)                        // a timeout or any other exception

  predicate Passes(infra: Groups, entry: Entry) { GuardPasses(infra, entry.name, entry.instanceId) }

  /** Where a task goes next; it stays where it is while it waits and when it is done. */
  function NextPhase(s: State, task: Task): Option<Phase> {
    match task.phase
    case Propose => Some(AwaitRetired)
    case AwaitRetired => if task.node in s.listed && task.node in s.retired then Some(AwaitRemovable) else None
    case AwaitRemovable => if task.node in s.removable then Some(Lookup) else None
    case Lookup => Some(if Passes(s.infra, task.entry) then Deleting(s.minted) else DropEntry)
    case Deleting(_) => Some(DropEntry)
    case DropEntry => Some(Done)
    case Done => None
  }

  /** What it does on the way. */
  function Effect(s: State, task: Task): State {
    match task.phase
    case Deleting(known) => if task.entry.name in s.infra then DeleteGroup(s, task, known) else s
    case DropEntry => ForgetNode(s, task.node)
    case _ => s
  }

  function AdvanceTask(s: State, t: nat): Option<State>
    requires t in s.tasks
  {
    match NextPhase(s, s.tasks[t])
    case None => None
    case Some(p) => Some(Effect(s, s.tasks[t]).(tasks := s.tasks[t := s.tasks[t].(phase := p)]))
  }

  function DeleteGroup(s: State, task: Task, known: set<string>): State
    requires task.entry.name in s.infra
  {
    var victim := s.infra[task.entry.name];
    s.(infra := s.infra - {task.entry.name},
       log := s.log + [Deletion(task.node, task.entry, victim, victim !in known)])
  }

  function ForgetNode(s: State, node: nat): State {
    s.(listed := s.listed - {node}, removable := s.removable - {node})
  }

  /** The containers of a group never restart, so a group brings one node into the network. */
  predicate CanJoin(s: State, node: nat, name: string) {
    && node !in s.joined && name in s.infra
    && forall n :: n in s.group ==> s.group[n] != s.infra[name]
  }

  function Apply(s: State, step: Step): Option<State> {
    match step
    case LookForGroup(creator, name) =>
      if name in s.infra || creator in s.creating then None
      else Some(s.(creating := s.creating[creator := name]))
    case CreateGroup(creator, id) =>
      if creator !in s.creating || id == "" || id in s.minted then None
      else Some(s.(infra := CreateOrUpdate(s.infra, s.creating[creator], id),
                   minted := s.minted + {id}, creating := s.creating - {creator}))
    case Teardown(name) => Some(s.(infra := s.infra - {name}))
    case Join(node, name, recorded) =>
      if !CanJoin(s, node, name) then None
      else
        var entry := Entry(name, if recorded then s.infra[name] else "");
        Some(s.(listed := s.listed[node := entry], joined := s.joined[node := entry],
                group := s.group[node := s.infra[name]]))
    case Retire(node) => if node in s.listed then Some(s.(retired := s.retired + {node})) else None
    case MakeRemovable(node) =>
      if node in s.listed && node in s.retired
      then Some(s.(removable := s.removable + {node}, everRemovable := s.everRemovable + {node}))
      else None
    case Forget(node) => Some(ForgetNode(s, node))
    case StartTask(t, node, cleanup) =>
      if t in s.tasks || node !in s.listed || (cleanup && node !in s.retired) then None
      else
        var phase := if node in s.retired then AwaitRemovable else Propose;
        Some(s.(tasks := s.tasks[t := Task(node, s.listed[node], phase)]))
    case Advance(t) => if t in s.tasks then AdvanceTask(s, t) else None
    case Abandon(t) =>
      if t in s.tasks then Some(s.(tasks := s.tasks[t := s.tasks[t].(phase := Done)])) else None
  }

  /** The state after `steps`, when each of them was possible in turn. */
  function Exec(steps: seq<Step>): Option<State> {
    if steps == [] then Some(INITIAL)
    else
      var n := |steps| - 1;
      match Exec(steps[..n])
      case None => None
      case Some(s) => Apply(s, steps[n])
  }

  ghost predicate Reachable(s: State) { exists steps: seq<Step> :: Exec(steps) == Some(s) }

  // ----- the invariant -----

  predicate Past(p: Phase) { p.Lookup? || p.Deleting? || p.DropEntry? }

  ghost predicate TaskInv(s: State, t: nat)
    requires t in s.tasks
  {
    var task := s.tasks[t];
    var name, id := task.entry.name, task.entry.instanceId;
    && task.node in s.joined && s.joined[task.node] == task.entry
    && (Past(task.phase) ==> task.node in s.everRemovable)
    && (task.phase.Deleting? ==>
          && task.phase.known <= s.minted
          && (id != "" ==> id in task.phase.known)
          && (id != "" && name in s.infra && s.infra[name] in task.phase.known ==> s.infra[name] == id))
  }

  /** A deletion is by a captured entry, after that node was removable; with a recorded
      id the victim is another instance exactly when it was created after the guard. */
  ghost predicate LogInv(s: State, d: Deletion) {
    && d.node in s.joined && s.joined[d.node] == d.entry
    && d.node in s.everRemovable
    && (d.entry.instanceId != "" ==> (d.victim != d.entry.instanceId <==> d.late))
  }

  /** Every node runs in a group of its own, and what it recorded, if anything, is that group. */
  ghost predicate GroupInv(s: State) {
    && s.group.Keys == s.joined.Keys
    && (forall n :: n in s.group ==> s.group[n] in s.minted)
    && (forall m, n :: m in s.group && n in s.group && s.group[m] == s.group[n] ==> m == n)
    && (forall n :: n in s.joined ==> s.joined[n].instanceId in {"", s.group[n]})
  }

  ghost predicate ListInv(s: State) {
    && "" !in s.minted && s.infra.Values <= s.minted
    && (forall n :: n in s.listed ==> n in s.joined && s.joined[n] == s.listed[n])
    && s.removable <= s.everRemovable
  }

  ghost predicate TasksInv(s: State) { forall t :: t in s.tasks ==> TaskInv(s, t) }

  ghost predicate Inv(s: State) {
    && ListInv(s) && GroupInv(s) && TasksInv(s)
    && forall i :: 0 <= i < |s.log| ==> LogInv(s, s.log[i])
  }

  /** What every step leaves: histories only grow, and a group that is new under its name has a new id. */
  ghost predicate Grows(s: State, s': State) {
    && (forall n :: n in s.joined ==> n in s'.joined && s'.joined[n] == s.joined[n])
    && s.everRemovable <= s'.everRemovable && s.minted <= s'.minted
    && (forall n :: n in s'.infra ==> (n in s.infra && s'.infra[n] == s.infra[n]) || s'.infra[n] !in s.minted)
  }

  lemma TaskStays(s: State, s': State, u: nat)
    requires Grows(s, s') && u in s.tasks && TaskInv(s, u) && u in s'.tasks
    requires s'.tasks[u] == s.tasks[u] || s'.tasks[u] == s.tasks[u].(phase := Done)
    ensures TaskInv(s', u)
  {
  }

  /** Nothing a task does touches a history other than the log. */
  ghost predicate OnlyShrinks(s: State, s': State) {
    && s'.joined == s.joined && s'.group == s.group && s'.minted == s.minted && s'.everRemovable == s.everRemovable
    && s'.removable <= s.removable
    && (forall n :: n in s'.infra ==> n in s.infra && s'.infra[n] == s.infra[n])
    && (forall n :: n in s'.listed ==> n in s.listed && s'.listed[n] == s.listed[n])
  }

  lemma DeleteShrinks(s: State, task: Task, known: set<string>)
    requires task.entry.name in s.infra
    ensures OnlyShrinks(s, DeleteGroup(s, task, known))
  {
  }

  lemma ForgetShrinks(s: State, node: nat)
    ensures OnlyShrinks(s, ForgetNode(s, node))
  {
  }

  lemma EffectShrinks(s: State, task: Task)
    ensures OnlyShrinks(s, Effect(s, task))
  {
    if task.phase.Deleting? && task.entry.name in s.infra {
      DeleteShrinks(s, task, task.phase.known);
    } else if task.phase.DropEntry? {
      ForgetShrinks(s, task.node);
    }
  }

  lemma AdvanceShrinks(s: State, t: nat, s': State)
    requires t in s.tasks && AdvanceTask(s, t) == Some(s')
    ensures OnlyShrinks(s, s')
  {
    EffectShrinks(s, s.tasks[t]);
  }

  lemma AdvanceIsLocal(s: State, t: nat, s': State, u: nat)
    requires t in s.tasks && AdvanceTask(s, t) == Some(s') && u in s'.tasks && u != t
    ensures u in s.tasks && s'.tasks[u] == s.tasks[u]
  {
  }

  lemma ShrinkingKeepsLists(s: State, s': State)
    requires OnlyShrinks(s, s') && ListInv(s)
    ensures ListInv(s') && Grows(s, s')
  {
    forall id | id in s'.infra.Values ensures id in s.infra.Values {
      var n :| n in s'.infra && s'.infra[n] == id;
      assert s.infra[n] == id;
    }
  }

  lemma OwnTask(s: State, t: nat, s': State)
    requires t in s.tasks && TaskInv(s, t) && ListInv(s)
    requires AdvanceTask(s, t) == Some(s')
    ensures t in s'.tasks && TaskInv(s', t)
  {
    AdvanceShrinks(s, t, s');
    if s.tasks[t].phase.Lookup? { LookupKeepsTask(s, t, s'); }
  }

  lemma LookupKeepsTask(s: State, t: nat, s': State)
    requires t in s.tasks && TaskInv(s, t) && ListInv(s) && s.tasks[t].phase.Lookup?
    requires AdvanceTask(s, t) == Some(s')
    ensures t in s'.tasks && TaskInv(s', t)
  {
    if Passes(s.infra, s.tasks[t].entry) {
      assert s.infra[s.tasks[t].entry.name] in s.infra.Values;
    }
  }

  lemma AdvanceKeepsTasks(s: State, t: nat, s': State)
    requires ListInv(s) && TasksInv(s) && t in s.tasks && AdvanceTask(s, t) == Some(s')
    ensures TasksInv(s')
  {
    AdvanceShrinks(s, t, s');
    ShrinkingKeepsLists(s, s');
    forall u | u in s'.tasks ensures TaskInv(s', u) {
      if u == t {
        OwnTask(s, t, s');
      } else {
        AdvanceIsLocal(s, t, s', u);
        TaskStays(s, s', u);
      }
    }
  }

  /** What a deletion logs. */
  lemma DeletionIsGuarded(s: State, t: nat)
    requires t in s.tasks && TaskInv(s, t) && s.tasks[t].phase.Deleting? && s.tasks[t].entry.name in s.infra
    ensures var task := s.tasks[t]; var victim := s.infra[task.entry.name];
            LogInv(s, Deletion(task.node, task.entry, victim, victim !in task.phase.known))
  {
  }

  lemma AdvanceLogs(s: State, t: nat, s': State)
    requires t in s.tasks && AdvanceTask(s, t) == Some(s')
    ensures s'.log == s.log
         || (var task := s.tasks[t];
             && task.phase.Deleting? && task.entry.name in s.infra
             && var victim := s.infra[task.entry.name];
                s'.log == s.log + [Deletion(task.node, task.entry, victim, victim !in task.phase.known)])
  {
  }

  lemma AdvanceKeepsLog(s: State, t: nat, s': State, i: nat)
    requires Inv(s) && t in s.tasks && AdvanceTask(s, t) == Some(s') && OnlyShrinks(s, s') && i < |s'.log|
    ensures LogInv(s', s'.log[i])
  {
    AdvanceLogs(s, t, s');
    if i < |s.log| {
      assert s'.log[i] == s.log[i] && LogInv(s, s.log[i]);
    } else {
      DeletionIsGuarded(s, t);
    }
  }

  lemma AdvanceKeepsInv(s: State, t: nat, s': State)
    requires Inv(s) && t in s.tasks && AdvanceTask(s, t) == Some(s')
    ensures Inv(s')
  {
    AdvanceShrinks(s, t, s');
    ShrinkingKeepsLists(s, s');
    AdvanceKeepsTasks(s, t, s');
    forall i | 0 <= i < |s'.log| ensures LogInv(s', s'.log[i]) { AdvanceKeepsLog(s, t, s', i); }
  }

  lemma OtherStepGrows(s: State, step: Step, s': State)
    requires ListInv(s) && !step.Advance? && Apply(s, step) == Some(s')
    ensures Grows(s, s') && ListInv(s') && s'.log == s.log
  {
  }

  lemma OtherStepKeepsGroups(s: State, step: Step, s': State)
    requires GroupInv(s) && ListInv(s) && !step.Advance? && Apply(s, step) == Some(s')
    ensures GroupInv(s')
  {
    if step.Join? { assert s.infra[step.name] in s.infra.Values; }
  }

  lemma OtherStepKeepsTasks(s: State, step: Step, s': State)
    requires ListInv(s) && TasksInv(s) && !step.Advance? && Apply(s, step) == Some(s')
    ensures TasksInv(s')
  {
    OtherStepGrows(s, step, s');
    forall u | u in s'.tasks ensures TaskInv(s', u) {
      if u in s.tasks {
        assert TaskInv(s, u);
        TaskStays(s, s', u);
      }
    }
  }

  lemma OtherStepKeepsInv(s: State, step: Step, s': State)
    requires Inv(s) && !step.Advance? && Apply(s, step) == Some(s')
    ensures Inv(s')
  {
    OtherStepGrows(s, step, s');
    OtherStepKeepsGroups(s, step, s');
    OtherStepKeepsTasks(s, step, s');
    forall i | 0 <= i < |s'.log| ensures LogInv(s', s'.log[i]) { assert LogInv(s, s.log[i]); }
  }

  lemma {:induction false} ExecKeepsInv(steps: seq<Step>, s: State)
    requires Exec(steps) == Some(s)
    ensures Inv(s)
  {
    if steps != [] {
      var n := |steps| - 1;
      var r := Exec(steps[..n]).value;
      ExecKeepsInv(steps[..n], r);
      if steps[n].Advance? {
        AdvanceKeepsInv(r, steps[n].task, s);
      } else {
        OtherStepKeepsInv(r, steps[n], s);
      }
    }
  }

  // ----- what is deleted -----

  /** In every run: a container group is deleted only on behalf of an entry that CCF listed, only
      after that node had become removable, and, when the entry recorded an instance id, the group
      is the one recorded if and only if it was not created after the guard was checked. */
  lemma DeletionsAreGuarded(s: State, i: nat)
    requires Reachable(s) && i < |s.log|
    ensures var d := s.log[i];
            && d.node in s.joined && s.joined[d.node] == d.entry
            && d.node in s.everRemovable
            && (d.entry.instanceId != "" ==> (d.victim == d.entry.instanceId <==> !d.late))
  {
    var steps: seq<Step> :| Exec(steps) == Some(s);
    ExecKeepsInv(steps, s);
    assert LogInv(s, s.log[i]);
  }

  /** The entry had recorded an id: the group deleted was that of its own, removable node if and only
      if it was not created after the guard was checked, and no other node ever ran in it then. */
  lemma NoLiveInstanceDeleted(s: State, i: nat)
    requires Reachable(s) && i < |s.log| && s.log[i].entry.instanceId != ""
    ensures var d := s.log[i];
            && d.node in s.group && d.node in s.everRemovable
            && (d.victim == s.group[d.node] <==> !d.late)
            && forall other :: other in s.group && s.group[other] == d.victim ==> (other == d.node <==> !d.late)
  {
    var steps: seq<Step> :| Exec(steps) == Some(s);
    ExecKeepsInv(steps, s);
    assert LogInv(s, s.log[i]);
  }

  // ----- and what the guard does not prevent -----

  lemma Do(s: State, step: Step) returns (s': State)
    requires Reachable(s) && Apply(s, step).Some?
    ensures Reachable(s') && Apply(s, step) == Some(s')
  {
    var steps: seq<Step> :| Exec(steps) == Some(s);
    s' := Apply(s, step).value;
    var longer := steps + [step];
    assert longer[..|longer| - 1] == steps;
    assert Exec(longer) == Some(s');
  }

  lemma Start() returns (s: State)
    ensures Reachable(s) && s == INITIAL
  {
    s := INITIAL;
    assert Exec([]) == Some(s);
  }

  /** A group is created under a name that is free. */
  lemma Create(s: State, creator: nat, name: string, id: string) returns (s': State)
    requires Reachable(s) && name !in s.infra && creator !in s.creating && id != "" && id !in s.minted
    ensures Reachable(s') && s' == s.(infra := s.infra[name := id], minted := s.minted + {id})
  {
    s' := Do(s, LookForGroup(creator, name));
    s' := Do(s', CreateGroup(creator, id));
    assert s'.creating == s.creating;
  }

  lemma RemovableNode() returns (s: State)
    ensures Reachable(s) && s.infra == map["net-0" := "a"] && s.minted == {"a"} && s.log == [] && s.creating == map[]
    ensures s.removable == s.everRemovable == s.retired == {0} && s.group == map[0 := "a"] && s.tasks == map[]
    ensures s.listed == s.joined == map[0 := Entry("net-0", "a")]
  {
    s := Start();
    s := Create(s, 0, "net-0", "a");
    s := Do(s, Join(0, "net-0", true));
    s := Do(s, Retire(0));
    s := Do(s, MakeRemovable(0));
  }

  /** Group `a` runs node 0, which is removable, and two tasks for it wait to see that. */
  lemma TwoTasksReady() returns (s: State)
    ensures Reachable(s) && s.infra == map["net-0" := "a"] && s.minted == {"a"} && s.log == [] && s.creating == map[]
    ensures s.removable == s.everRemovable == s.retired == {0} && s.group == map[0 := "a"]
    ensures s.listed == s.joined == map[0 := Entry("net-0", "a")]
    ensures var task := Task(0, Entry("net-0", "a"), AwaitRemovable); s.tasks == map[0 := task, 1 := task]
  {
    s := RemovableNode();
    s := Do(s, StartTask(0, 0, true));
    s := Do(s, StartTask(1, 0, true));
  }

  lemma BothPassTheGuard() returns (s: State)
    ensures Reachable(s) && s.infra == map["net-0" := "a"] && s.minted == {"a"} && s.log == [] && s.creating == map[]
    ensures s.everRemovable == s.retired == {0} && s.group == map[0 := "a"]
    ensures s.listed == s.joined == map[0 := Entry("net-0", "a")]
    ensures var task := Task(0, Entry("net-0", "a"), Deleting({"a"})); s.tasks == map[0 := task, 1 := task]
  {
    s := TwoTasksReady();
    s := Do(s, Advance(0));
    s := Do(s, Advance(1));
    s := Do(s, Advance(0));
    s := Do(s, Advance(1));
  }

  /** Two tasks for one retired node both pass the guard; the first deletes the group, the name is
      used again, and the second deletes the new group, whose node never was removable. */
  lemma LateDeletionHappens() returns (s: State, live: nat)
    ensures Reachable(s) && |s.log| == 2 && s.log[1].late && s.log[1].entry.instanceId != ""
    ensures live in s.listed && live !in s.retired && live !in s.everRemovable
    ensures live in s.group && s.log[1].victim == s.group[live] && s.log[1].node != live
  {
    s := BothPassTheGuard();
    s := Do(s, Advance(0));
    s := Create(s, 0, "net-0", "b");
    s := Do(s, Join(1, "net-0", true));
    live := 1;
    s := Do(s, Advance(1));
  }

  /** Node 0 recorded no id and is removable; node 1 runs in the group that now has its name. */
  lemma NameReused(name: string) returns (s: State)
    ensures Reachable(s) && s.infra == map[name := "b"] && s.log == [] && s.tasks == map[] && s.minted == {"a", "b"}
    ensures s.removable == s.everRemovable == s.retired == {0} && s.group == map[0 := "a", 1 := "b"]
    ensures s.listed == map[0 := Entry(name, ""), 1 := Entry(name, "b")]
  {
    s := Start();
    s := Create(s, 0, name, "a");
    s := Do(s, Join(0, name, false));
    s := Do(s, Retire(0));
    s := Do(s, MakeRemovable(0));
    s := Do(s, Teardown(name));
    s := Create(s, 0, name, "b");
    s := Do(s, Join(1, name, true));
  }

  lemma UnrecordedPasses(name: string) returns (s: State)
    ensures Reachable(s) && s.infra == map[name := "b"] && s.log == [] && s.minted == {"a", "b"}
    ensures s.everRemovable == s.retired == {0} && s.group == map[0 := "a", 1 := "b"]
    ensures s.listed == map[0 := Entry(name, ""), 1 := Entry(name, "b")]
    ensures s.tasks == map[0 := Task(0, Entry(name, ""), Deleting({"a", "b"}))]
  {
    s := NameReused(name);
    s := Do(s, StartTask(0, 0, true));
    s := Do(s, Advance(0));
    s := Do(s, Advance(0));
  }

  /** Without a recorded id nothing is compared: the group now using the name is deleted. */
  lemma UnrecordedDeletionHappens(name: string) returns (s: State, live: nat)
    ensures Reachable(s) && |s.log| == 1 && s.log[0].entry == Entry(name, "") && !s.log[0].late
    ensures live in s.listed && live !in s.retired && live !in s.everRemovable
    ensures live in s.group && s.log[0].victim == s.group[live] && s.log[0].node in s.group && s.group[s.log[0].node] != s.group[live]
  {
    s := UnrecordedPasses(name);
    s := Do(s, Advance(0));
    live := 1;
  }

  /** In every run, a deletion for this entry that is not late takes the group of its own node. */
  ghost predicate OnlyOwnGroup(entry: Entry) {
    forall s, i: nat :: Reachable(s) && i < |s.log| && s.log[i].entry == entry && !s.log[i].late ==>
      s.log[i].node in s.group && s.log[i].victim == s.group[s.log[i].node]
  }

  /** That is so if and only if the entry recorded an id. */
  lemma OnlyOwnGroupExactlyWhenRecorded(entry: Entry)
    ensures OnlyOwnGroup(entry) <==> entry.instanceId != ""
  {
    if entry.instanceId == "" {
      var s, live := UnrecordedDeletionHappens(entry.name);
      assert s.log[0].entry == entry;
    } else {
      forall s, i: nat | Reachable(s) && i < |s.log| && s.log[i].entry == entry && !s.log[i].late
        ensures s.log[i].node in s.group && s.log[i].victim == s.group[s.log[i].node]
      {
        NoLiveInstanceDeleted(s, i);
      }
    }
  }
}
