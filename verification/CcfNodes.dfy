/** Nodes as the CCF network lists them, and as the infra provider reports their health. */
module CcfNodes {
  /** `instanceId` is what the node's data records about the container group it runs in, empty when
      it records nothing. */
  datatype NetworkNode = NetworkNode(
    nodeId: string, name: string, instanceId: string, primary: bool, status: string)

  const RETIRED: string := "Retired"

  datatype NodeHealth = NodeHealth(name: string, needsReplacement: bool)

  function LowerChar(c: char): char { if 'A' <= c <= 'Z' then (c as nat + 32) as char else c }

  /** Node ids compare names without regard to case. */
  function ToId(name: string): (r: string)
    ensures |r| == |name|
  {
    if name == "" then "" else [LowerChar(name[0])] + ToId(name[1..])
  }

  ghost predicate DistinctNodeIds(nodes: seq<NetworkNode>) {
    forall i, j :: 0 <= i < j < |nodes| ==> nodes[i].nodeId != nodes[j].nodeId
  }
}
