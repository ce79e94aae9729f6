/** Public recovery: every candidate node is started in parallel, the one with the longest signed
    ledger is kept, the others are deleted, and only then do other nodes join. */
module Recovery {
  import opened Outcomes
  import opened StableSort

  /** A candidate, keyed by its last signed sequence number. */
  type Candidate = Keyed<nat>

  datatype Point =
    | Recovering(running: set<nat>, failed: bool)
    | Deleting(keep: Candidate, pending: set<nat>, failed: bool)
    | Joining(keep: Candidate)
    | Aborted

  /** Candidates are numbered; `bag` holds those that came up, in the order they did. History:
      `seqNo` what each reported, `deleted` those whose deletion completed, `joins` the join nodes
      started. */
  datatype State = State(at: Point, bag: seq<Candidate>, seqNo: map<nat, int>, deleted: set<nat>, joins: nat)

  datatype Step =
    | ComeUp(candidate: nat, lastSignedSeqNo: int)
    | FailToComeUp(candidate: nat)
    | AllUp
    | DeleteCompletes(candidate: nat)
    | DeleteFails(candidate: nat)
    | AllDeleted
    | StartJoin

  function Initial(all: set<nat>): State { State(Recovering(all, false), [], map[], {}, 0) }

  function Ids(xs: seq<Candidate>): set<nat> { set i | 0 <= i < |xs| :: xs[i].value }

  function Apply(s: State, step: Step): Option<State> {
    match (s.at, step)
    case (Recovering(running, failed), ComeUp(c, seqNo)) =>
      if c !in running then None
      else Some(s.(at := Recovering(running - {c}, failed),
                   bag := s.bag + [Keyed(seqNo, c)],
                   seqNo := s.seqNo[c := seqNo]))
    case (Recovering(running, failed), FailToComeUp(c)) =>
      if c !in running then None else Some(s.(at := Recovering(running - {c}, true)))
    case (Recovering(running, failed), AllUp) =>
      if running != {} then None
      else if failed || s.bag == [] then Some(s.(at := Aborted))
      else
        var sorted := SortDescending(s.bag);
        SortDescendingSpec(s.bag);
        Some(s.(at := Deleting(sorted[0], Ids(sorted[1..]), false)))
    case (Deleting(keep, pending, failed), DeleteCompletes(c)) =>
      if c !in pending then None
      else Some(s.(at := Deleting(keep, pending - {c}, failed), deleted := s.deleted + {c}))
    case (Deleting(keep, pending, failed), DeleteFails(c)) =>
      if c !in pending then None else Some(s.(at := Deleting(keep, pending - {c}, true)))
    case (Deleting(keep, pending, failed), AllDeleted) =>
      if pending != {} then None else Some(s.(at := if failed then Aborted else Joining(keep)))
    case (Joining(keep), StartJoin) => Some(s.(joins := s.joins + 1))
    case _ => None
  }

  function Exec(all: set<nat>, steps: seq<Step>): Option<State> {
    if steps == [] then Some(Initial(all))
    else
      var n := |steps| - 1;
      match Exec(all, steps[..n])
      case None => None
      case Some(s) => Apply(s, steps[n])
  }

  ghost predicate Reachable(all: set<nat>, s: State) { exists steps: seq<Step> :: Exec(all, steps) == Some(s) }

  // ----- the invariant -----

  /** The bag holds one entry for each candidate that reported, with what it reported. */
  ghost predicate BagInv(s: State) {
    && DistinctValues(s.bag)
    && (forall i :: 0 <= i < |s.bag| ==> s.bag[i].value in s.seqNo && s.seqNo[s.bag[i].value] == s.bag[i].key)
    && s.seqNo.Keys == Ids(s.bag)
  }

  ghost predicate Longest(s: State, all: set<nat>, keep: Candidate) {
    && keep.value in all && s.seqNo.Keys == all && s.seqNo[keep.value] == keep.key
    && forall c :: c in all ==> s.seqNo[c] <= keep.key
  }

  ghost predicate Inv(all: set<nat>, s: State) {
    match s.at
    case Recovering(running, failed) =>
      && BagInv(s) && running !! s.seqNo.Keys && running + s.seqNo.Keys <= all
      && (!failed ==> running + s.seqNo.Keys == all)
      && s.deleted == {} && s.joins == 0
    case Deleting(keep, pending, failed) =>
      && Longest(s, all, keep) && s.joins == 0
      && pending + s.deleted <= all - {keep.value}
      && (!failed ==> pending + s.deleted == all - {keep.value})
    case Joining(keep) => Longest(s, all, keep) && s.deleted == all - {keep.value}
    case Aborted => s.joins == 0
  }

  /** Sorting splits the candidates into one with the greatest number and all the others. */
  lemma KeepAndRest(s: State)
    requires BagInv(s) && s.bag != []
    ensures |SortDescending(s.bag)| == |s.bag|
    ensures var sorted := SortDescending(s.bag);
            && Longest(s, Ids(s.bag), sorted[0])
            && Ids(sorted[1..]) == Ids(s.bag) - {sorted[0].value}
  {
    var sorted := SortDescending(s.bag);
    SortDescendingSpec(s.bag);
    SameMembers(s.bag, sorted);
    forall c | c in Ids(s.bag) ensures s.seqNo[c] <= sorted[0].key {
      var i :| 0 <= i < |s.bag| && s.bag[i].value == c;
      assert s.bag[i] in s.bag;
      var j :| 0 <= j < |sorted| && sorted[j] == s.bag[i];
    }
    assert sorted[0] in sorted;
    RestIds(s.bag, sorted);
  }

  lemma RestIds(xs: seq<Candidate>, ys: seq<Candidate>)
    requires multiset(xs) == multiset(ys) && ys != [] && DistinctValues(xs)
    ensures Ids(ys[1..]) == Ids(xs) - {ys[0].value}
  {
    SameMembers(xs, ys);
    PermutedDistinct(xs, ys);
    forall c | c in Ids(ys[1..]) ensures c in Ids(xs) - {ys[0].value} {
      var i :| 0 <= i < |ys[1..]| && ys[1..][i].value == c;
      assert ys[i + 1] in ys;
      var h :| 0 <= h < |xs| && xs[h] == ys[i + 1];
    }
    forall c | c in Ids(xs) - {ys[0].value} ensures c in Ids(ys[1..]) {
      var h :| 0 <= h < |xs| && xs[h].value == c;
      assert xs[h] in xs;
      var k :| 0 <= k < |ys| && ys[k] == xs[h];
      assert ys[1..][k - 1].value == c;
    }
  }

  lemma ComeUpKeepsInv(all: set<nat>, s: State, c: nat, seqNo: int, s': State)
    requires Inv(all, s) && s.at.Recovering? && Apply(s, ComeUp(c, seqNo)) == Some(s')
    ensures Inv(all, s')
  {
    assert forall i :: 0 <= i < |s.bag| ==> s'.bag[i] == s.bag[i];
    assert s'.bag[|s.bag|].value == c;
    assert Ids(s'.bag) == Ids(s.bag) + {c} by {
      forall x | x in Ids(s.bag) ensures x in Ids(s'.bag) {
        var i :| 0 <= i < |s.bag| && s.bag[i].value == x;
        assert s'.bag[i].value == x;
      }
    }
  }

  lemma StepKeepsInv(all: set<nat>, s: State, step: Step, s': State)
    requires Inv(all, s) && Apply(s, step) == Some(s')
    ensures Inv(all, s')
  {
    if step.ComeUp? {
      ComeUpKeepsInv(all, s, step.candidate, step.lastSignedSeqNo, s');
    } else if step.AllUp? && s'.at.Deleting? {
      KeepAndRest(s);
    }
  }

  lemma {:induction false} ExecKeepsInv(all: set<nat>, steps: seq<Step>, s: State)
    requires Exec(all, steps) == Some(s)
    ensures Inv(all, s)
  {
    if steps != [] {
      var n := |steps| - 1;
      ExecKeepsInv(all, steps[..n], Exec(all, steps[..n]).value);
      StepKeepsInv(all, Exec(all, steps[..n]).value, steps[n], s);
    }
  }

  /** Whatever order the candidates come up in: the one kept has the greatest last signed sequence
      number of all of them, and every other one is passed to deletion. */
  lemma KeepsLongestLedger(all: set<nat>, s: State)
    requires Reachable(all, s) && (s.at.Deleting? || s.at.Joining?)
    ensures Longest(s, all, s.at.keep)
    ensures s.at.Deleting? && !s.at.failed ==> s.at.pending + s.deleted == all - {s.at.keep.value}
  {
    var steps: seq<Step> :| Exec(all, steps) == Some(s);
    ExecKeepsInv(all, steps, s);
  }

  /** No join node is started before every other candidate has been deleted. */
  lemma JoinsComeLast(all: set<nat>, s: State)
    requires Reachable(all, s) && s.joins > 0
    ensures s.at.Joining? && s.deleted == all - {s.at.keep.value}
  {
    var steps: seq<Step> :| Exec(all, steps) == Some(s);
    ExecKeepsInv(all, steps, s);
  }
}
