/** Which nodes are removed when a network shrinks. */
module RemovalChoice {
  import opened Outcomes
  import opened CcfNodes
  import opened StableSort

  /** One entry of the primary's consensus acknowledgements, keyed by the age of the last one. */
  type Ack = Keyed<string>

  datatype Abort = PrimaryShifted | PickedPrimary(nodeId: string)

  predicate NeedsReplacement(health: seq<NodeHealth>, node: NetworkNode) {
    exists h :: h in health && ToId(h.name) == ToId(node.name) && h.needsReplacement
  }

  /** Ids of the nodes the infra provider wants replaced, in listing order. */
  function UnhealthyIds(nodes: seq<NetworkNode>, health: seq<NodeHealth>): seq<string> {
    if nodes == [] then []
    else (if NeedsReplacement(health, nodes[0]) then [nodes[0].nodeId] else []) + UnhealthyIds(nodes[1..], health)
  }

  function Excluding(acks: seq<Ack>, ids: seq<string>): seq<Ack> {
    if acks == [] then []
    else (if acks[0].value !in ids then [acks[0]] else []) + Excluding(acks[1..], ids)
  }

  function Values(acks: seq<Ack>): (r: seq<string>)
    ensures |r| == |acks| && forall i :: 0 <= i < |r| ==> r[i] == acks[i].value
  {
    if acks == [] then [] else [acks[0].value] + Values(acks[1..])
  }

  function SlowestIds(acks: seq<Ack>, excluded: seq<string>): seq<string> {
    Values(SortDescending(Excluding(acks, excluded)))
  }

  /** Nodes to be replaced first, then the others by the age of their last acknowledgement. */
  function Candidates(nodes: seq<NetworkNode>, health: seq<NodeHealth>, acks: seq<Ack>): seq<string> {
    var unhealthy := UnhealthyIds(nodes, health);
    unhealthy + SlowestIds(acks, unhealthy)
  }

  /** The first listed node with that id that is not retired. */
  function FindLive(nodes: seq<NetworkNode>, id: string): (r: Option<NetworkNode>)
    ensures r.Some? ==> r.value in nodes && r.value.nodeId == id && r.value.status != RETIRED
    ensures r.None? ==> forall n :: n in nodes && n.nodeId == id ==> n.status == RETIRED
  {
    if nodes == [] then None
    else if nodes[0].nodeId == id && nodes[0].status != RETIRED then Some(nodes[0])
    else FindLive(nodes[1..], id)
  }

  function Eligible(nodes: seq<NetworkNode>, ids: seq<string>): seq<NetworkNode> {
    if ids == [] then []
    else
      var rest := Eligible(nodes, ids[1..]);
      match FindLive(nodes, ids[0])
      case None => rest
      case Some(n) => [n] + rest
  }

  /** What is taken of the eligible nodes: the first `request` of them, or all when the request is
      not positive, since the countdown then never reaches zero. */
  function Taken(eligible: seq<NetworkNode>, request: int): (r: seq<NetworkNode>)
    ensures r <= eligible
  {
    if 0 < request < |eligible| then eligible[..request] else eligible
  }

  function FirstPrimary(nodes: seq<NetworkNode>): (r: Option<string>)
    ensures r.None? <==> forall n :: n in nodes ==> !n.primary
  {
    if nodes == [] then None
    else if nodes[0].primary then Some(nodes[0].nodeId)
    else FirstPrimary(nodes[1..])
  }

  lemma {:induction false} EligibleConcat(nodes: seq<NetworkNode>, a: seq<string>, b: seq<string>)
    ensures Eligible(nodes, a + b) == Eligible(nodes, a) + Eligible(nodes, b)
  {
    if a == [] {
      assert a + b == b;
    } else {
      assert (a + b)[1..] == a[1..] + b;
      EligibleConcat(nodes, a[1..], b);
    }
  }

  method PickNodesToRemove(
    nodes: seq<NetworkNode>, health: seq<NodeHealth>, acks: seq<Ack>,
    consensusPrimaryId: string, primaryNodeId: string, request: int)
    returns (r: Result<seq<NetworkNode>, Abort>)
    ensures var taken := Taken(Eligible(nodes, Candidates(nodes, health, acks)), request);
            && (r.Ok? <==> consensusPrimaryId == primaryNodeId && forall n :: n in taken ==> !n.primary)
            && (r.Ok? ==> r.value == taken)
            && (r.Err? && consensusPrimaryId != primaryNodeId ==> r.error == PrimaryShifted)
            && (r.Err? && consensusPrimaryId == primaryNodeId ==>
                  r.error.PickedPrimary? && FirstPrimary(taken) == Some(r.error.nodeId))
  {
    if consensusPrimaryId != primaryNodeId {
      return Err(PrimaryShifted);
    }
    var candidates := Candidates(nodes, health, acks);
    r := TakeCandidates(nodes, candidates, request);
  }

  /** The loop over the candidates: retired and unlisted ones are passed over, a primary aborts. */
  method TakeCandidates(nodes: seq<NetworkNode>, candidates: seq<string>, request: int)
    returns (r: Result<seq<NetworkNode>, Abort>)
    ensures var taken := Taken(Eligible(nodes, candidates), request);
            match FirstPrimary(taken)
            case None => r == Ok(taken)
            case Some(id) => r == Err(PickedPrimary(id))
  {
    ghost var eligible := Eligible(nodes, candidates);
    var picked: seq<NetworkNode> := [];
    var remaining := request;
    var i := 0;
    while i < |candidates|
      invariant i <= |candidates| && remaining == request - |picked|
      invariant request > 0 ==> remaining > 0
      invariant picked + Eligible(nodes, candidates[i..]) == eligible
      invariant forall n :: n in picked ==> !n.primary
    {
      var node := FindLive(nodes, candidates[i]);
      assert candidates[i..][1..] == candidates[i + 1..];
      ghost var rest := Eligible(nodes, candidates[i + 1..]);
      if node.Some? {
        if node.value.primary {
          PrimaryStops(picked, node.value, rest, request);
          return Err(PickedPrimary(node.value.nodeId));
        }
        picked := picked + [node.value];
        remaining := remaining - 1;
        if remaining == 0 {
          TakenPrefix(picked, rest);
          assert picked + rest == eligible;
          return Ok(picked);
        }
      }
      i := i + 1;
    }
    assert candidates[i..] == [] && picked == eligible;
    return Ok(picked);
  }

  lemma TakenPrefix(picked: seq<NetworkNode>, rest: seq<NetworkNode>)
    requires picked != []
    ensures Taken(picked + rest, |picked|) == picked
  {
  }

  lemma PrimaryStops(before: seq<NetworkNode>, n: NetworkNode, after: seq<NetworkNode>, request: int)
    requires n.primary && (forall m :: m in before ==> !m.primary) && (request > 0 ==> |before| < request)
    ensures FirstPrimary(Taken(before + ([n] + after), request)) == Some(n.nodeId)
  {
    var eligible := before + ([n] + after);
    var taken := Taken(eligible, request);
    assert taken == before + ([n] + taken[|before| + 1..]);
    SkipOrdinary(before, [n] + taken[|before| + 1..]);
  }

  lemma {:induction false} SkipOrdinary(before: seq<NetworkNode>, rest: seq<NetworkNode>)
    requires forall m :: m in before ==> !m.primary
    ensures FirstPrimary(before + rest) == FirstPrimary(rest)
  {
    if before == [] {
      assert before + rest == rest;
    } else {
      assert (before + rest)[1..] == before[1..] + rest;
      SkipOrdinary(before[1..], rest);
    }
  }

  // ----- what the choice guarantees -----

  ghost predicate Unrepeated(ids: seq<string>) {
    forall i, j :: 0 <= i < j < |ids| ==> ids[i] != ids[j]
  }

  lemma {:induction false} EligibleOrder(nodes: seq<NetworkNode>, ids: seq<string>, i: nat, j: nat) returns (p: nat, q: nat)
    requires i < j < |Eligible(nodes, ids)|
    ensures p < q < |ids| && ids[p] == Eligible(nodes, ids)[i].nodeId && ids[q] == Eligible(nodes, ids)[j].nodeId
  {
    if FindLive(nodes, ids[0]).None? {
      p, q := EligibleOrder(nodes, ids[1..], i, j);
      p, q := p + 1, q + 1;
    } else if i > 0 {
      p, q := EligibleOrder(nodes, ids[1..], i - 1, j - 1);
      p, q := p + 1, q + 1;
    } else {
      var h := EligibleFrom(nodes, ids[1..], j - 1);
      p, q := 0, h + 1;
    }
  }

  lemma {:induction false} EligibleFrom(nodes: seq<NetworkNode>, ids: seq<string>, i: nat) returns (p: nat)
    requires i < |Eligible(nodes, ids)|
    ensures p < |ids| && FindLive(nodes, ids[p]) == Some(Eligible(nodes, ids)[i])
  {
    if FindLive(nodes, ids[0]).None? {
      p := EligibleFrom(nodes, ids[1..], i);
      p := p + 1;
    } else if i == 0 {
      p := 0;
    } else {
      p := EligibleFrom(nodes, ids[1..], i - 1);
      p := p + 1;
    }
  }

  lemma {:induction false} EligibleHas(nodes: seq<NetworkNode>, ids: seq<string>, n: NetworkNode)
    requires DistinctNodeIds(nodes) && n in nodes && n.status != RETIRED && n.nodeId in ids
    ensures n in Eligible(nodes, ids)
  {
    if ids[0] == n.nodeId {
      var m := FindLive(nodes, ids[0]);
      assert m.Some?;
    } else {
      EligibleHas(nodes, ids[1..], n);
    }
  }

  lemma {:induction false} UnhealthyMembers(nodes: seq<NetworkNode>, health: seq<NodeHealth>, id: string)
    ensures id in UnhealthyIds(nodes, health) <==> exists n :: n in nodes && n.nodeId == id && NeedsReplacement(health, n)
  {
    if nodes != [] {
      UnhealthyMembers(nodes[1..], health, id);
      assert forall n :: n in nodes <==> n == nodes[0] || n in nodes[1..];
    }
  }

  lemma {:induction false} UnhealthyUnrepeated(nodes: seq<NetworkNode>, health: seq<NodeHealth>)
    requires DistinctNodeIds(nodes)
    ensures Unrepeated(UnhealthyIds(nodes, health))
  {
    if nodes != [] {
      UnhealthyUnrepeated(nodes[1..], health);
      UnhealthyMembers(nodes[1..], health, nodes[0].nodeId);
    }
  }

  lemma {:induction false} ExcludingMembers(acks: seq<Ack>, ids: seq<string>)
    ensures forall a :: a in Excluding(acks, ids) <==> a in acks && a.value !in ids
    ensures DistinctValues(acks) ==> DistinctValues(Excluding(acks, ids))
  {
    if acks != [] {
      ExcludingMembers(acks[1..], ids);
      if DistinctValues(acks) {
        var kept := Excluding(acks[1..], ids);
        forall i | 0 <= i < |kept| ensures kept[i].value != acks[0].value {
          assert kept[i] in acks[1..];
        }
      }
    }
  }

  lemma {:induction false} ExcludingFrom(acks: seq<Ack>, ids: seq<string>, p: nat) returns (i: nat)
    requires p < |Excluding(acks, ids)|
    ensures i < |acks| && acks[i] == Excluding(acks, ids)[p]
  {
    if acks[0].value in ids {
      i := ExcludingFrom(acks[1..], ids, p);
      i := i + 1;
    } else if p == 0 {
      i := 0;
    } else {
      i := ExcludingFrom(acks[1..], ids, p - 1);
      i := i + 1;
    }
  }

  lemma {:induction false} ExcludingInOrder(acks: seq<Ack>, ids: seq<string>, p: nat, q: nat) returns (i: nat, j: nat)
    requires p < q < |Excluding(acks, ids)|
    ensures i < j < |acks| && acks[i] == Excluding(acks, ids)[p] && acks[j] == Excluding(acks, ids)[q]
  {
    if acks[0].value in ids {
      i, j := ExcludingInOrder(acks[1..], ids, p, q);
      i, j := i + 1, j + 1;
    } else if p == 0 {
      i := 0;
      j := ExcludingFrom(acks[1..], ids, q - 1);
      j := j + 1;
    } else {
      i, j := ExcludingInOrder(acks[1..], ids, p - 1, q - 1);
      i, j := i + 1, j + 1;
    }
  }

  lemma CandidatesUnrepeated(nodes: seq<NetworkNode>, health: seq<NodeHealth>, acks: seq<Ack>)
    requires DistinctNodeIds(nodes) && DistinctValues(acks)
    ensures Unrepeated(Candidates(nodes, health, acks))
  {
    var unhealthy := UnhealthyIds(nodes, health);
    UnhealthyUnrepeated(nodes, health);
    var others := Excluding(acks, unhealthy);
    ExcludingMembers(acks, unhealthy);
    SortDescendingSpec(others);
    var sorted := SortDescending(others);
    PermutedDistinct(others, sorted);
    forall i | 0 <= i < |sorted| ensures sorted[i].value !in unhealthy {
      assert sorted[i] in multiset(sorted);
      assert sorted[i] in others;
    }
  }

  /** The nodes taken are listed, live and distinct. */
  lemma TakenAreLive(nodes: seq<NetworkNode>, health: seq<NodeHealth>, acks: seq<Ack>, request: int)
    requires DistinctNodeIds(nodes) && DistinctValues(acks)
    ensures var taken := Taken(Eligible(nodes, Candidates(nodes, health, acks)), request);
            && (forall i :: 0 <= i < |taken| ==> taken[i] in nodes && taken[i].status != RETIRED)
            && (forall i, j :: 0 <= i < j < |taken| ==> taken[i].nodeId != taken[j].nodeId)
  {
    var ids := Candidates(nodes, health, acks);
    var eligible := Eligible(nodes, ids);
    var taken := Taken(eligible, request);
    CandidatesUnrepeated(nodes, health, acks);
    forall i | 0 <= i < |taken| ensures taken[i] in nodes && taken[i].status != RETIRED {
      assert taken[i] == eligible[i];
      var p := EligibleFrom(nodes, ids, i);
    }
    forall i, j | 0 <= i < j < |taken| ensures taken[i].nodeId != taken[j].nodeId {
      assert taken[i] == eligible[i] && taken[j] == eligible[j];
      var p, q := EligibleOrder(nodes, ids, i, j);
    }
  }

  /** No healthy node is taken while a live unhealthy one is left. */
  lemma UnhealthyFirst(nodes: seq<NetworkNode>, health: seq<NodeHealth>, acks: seq<Ack>, request: int, n: NetworkNode, m: NetworkNode)
    requires DistinctNodeIds(nodes)
    requires n in Taken(Eligible(nodes, Candidates(nodes, health, acks)), request)
    requires !NeedsReplacement(health, n)
    requires m in nodes && m.status != RETIRED && NeedsReplacement(health, m)
    ensures m in Taken(Eligible(nodes, Candidates(nodes, health, acks)), request)
  {
    var unhealthy := UnhealthyIds(nodes, health);
    var slow := SlowestIds(acks, unhealthy);
    EligibleConcat(nodes, unhealthy, slow);
    var first := Eligible(nodes, unhealthy);
    var taken := Taken(first + Eligible(nodes, slow), request);
    UnhealthyMembers(nodes, health, m.nodeId);
    EligibleHas(nodes, unhealthy, m);
    var i :| 0 <= i < |taken| && taken[i] == n;
    HealthyIsLater(nodes, health, n, i);
    assert first <= taken;
    var k :| 0 <= k < |first| && first[k] == m;
    assert taken[k] == m;
  }

  /** Two acknowledgements in the order they are reported. */
  ghost predicate Before(acks: seq<Ack>, a: Ack, b: Ack) {
    exists i, j :: 0 <= i < j < |acks| && acks[i] == a && acks[j] == b
  }

  /** A live healthy node that is passed over has been heard from more recently than any healthy node
      that is taken, or equally recently and its acknowledgement is reported later. */
  lemma SlowestFirst(nodes: seq<NetworkNode>, health: seq<NodeHealth>, acks: seq<Ack>, request: int,
                     n: NetworkNode, m: NetworkNode, b: Ack) returns (a: Ack)
    requires DistinctNodeIds(nodes) && DistinctValues(acks)
    requires n in Taken(Eligible(nodes, Candidates(nodes, health, acks)), request)
    requires m !in Taken(Eligible(nodes, Candidates(nodes, health, acks)), request)
    requires !NeedsReplacement(health, n)
    requires m in nodes && m.status != RETIRED && !NeedsReplacement(health, m)
    requires b in acks && b.value == m.nodeId
    ensures a in acks && a.value == n.nodeId
    ensures a.key > b.key || (a.key == b.key && Before(acks, a, b))
  {
    var unhealthy := UnhealthyIds(nodes, health);
    var slow := SlowestIds(acks, unhealthy);
    EligibleConcat(nodes, unhealthy, slow);
    var first, second := Eligible(nodes, unhealthy), Eligible(nodes, slow);
    var taken := Taken(first + second, request);
    var i :| 0 <= i < |taken| && taken[i] == n;
    HealthyIsLater(nodes, health, n, i);
    SlowHas(nodes, health, acks, m, b);
    EligibleHas(nodes, slow, m);
    var j :| 0 <= j < |second| && second[j] == m;
    assert (first + second)[|first| + j] == m;
    assert i < |first| + j;
    a := OlderFirst(nodes, health, acks, i - |first|, j, b);
  }

  lemma HealthyIsLater(nodes: seq<NetworkNode>, health: seq<NodeHealth>, n: NetworkNode, i: nat)
    requires DistinctNodeIds(nodes) && !NeedsReplacement(health, n)
    ensures i < |Eligible(nodes, UnhealthyIds(nodes, health))| ==> Eligible(nodes, UnhealthyIds(nodes, health))[i] != n
  {
    var unhealthy := UnhealthyIds(nodes, health);
    if i < |Eligible(nodes, unhealthy)| && Eligible(nodes, unhealthy)[i] == n {
      var p := EligibleFrom(nodes, unhealthy, i);
      assert unhealthy[p] in unhealthy;
      UnhealthyMembers(nodes, health, n.nodeId);
      assert false;
    }
  }

  lemma SlowHas(nodes: seq<NetworkNode>, health: seq<NodeHealth>, acks: seq<Ack>, m: NetworkNode, b: Ack)
    requires DistinctNodeIds(nodes) && m in nodes && !NeedsReplacement(health, m)
    requires b in acks && b.value == m.nodeId
    ensures m.nodeId in SlowestIds(acks, UnhealthyIds(nodes, health))
  {
    var unhealthy := UnhealthyIds(nodes, health);
    UnhealthyMembers(nodes, health, m.nodeId);
    ExcludingMembers(acks, unhealthy);
    var others := Excluding(acks, unhealthy);
    SortDescendingSpec(others);
    assert b in others;
    assert b in multiset(SortDescending(others));
  }

  lemma OlderFirst(nodes: seq<NetworkNode>, health: seq<NodeHealth>, acks: seq<Ack>, i: nat, j: nat, b: Ack) returns (a: Ack)
    requires DistinctValues(acks) && b in acks
    requires i < j < |Eligible(nodes, SlowestIds(acks, UnhealthyIds(nodes, health)))|
    requires Eligible(nodes, SlowestIds(acks, UnhealthyIds(nodes, health)))[j].nodeId == b.value
    ensures a in acks && a.value == Eligible(nodes, SlowestIds(acks, UnhealthyIds(nodes, health)))[i].nodeId
    ensures a.key > b.key || (a.key == b.key && Before(acks, a, b))
  {
    var unhealthy := UnhealthyIds(nodes, health);
    var others := Excluding(acks, unhealthy);
    var sorted := SortDescending(others);
    SortDescendingSpec(others);
    ExcludingMembers(acks, unhealthy);
    var p, q := EligibleOrder(nodes, Values(sorted), i, j);
    a := sorted[p];
    assert a in multiset(sorted) && sorted[q] in multiset(sorted);
    assert a in others && sorted[q] in others;
    SameAck(acks, sorted[q], b);
    if a.key == b.key {
      var u, v := EqualKeysInOrder(others, p, q);
      var g, h := ExcludingInOrder(acks, unhealthy, u, v);
      assert acks[g] == a && acks[h] == b;
    }
  }

  lemma SameAck(acks: seq<Ack>, a: Ack, b: Ack)
    requires DistinctValues(acks) && a in acks && b in acks && a.value == b.value
    ensures a == b
  {
    var p :| 0 <= p < |acks| && acks[p] == a;
    var q :| 0 <= q < |acks| && acks[q] == b;
    assert p == q;
  }
}
