/** Node names `network-k`, the ordinal the next new node gets, and the names of a batch of new
    nodes. */
module NodeNames {
  import opened Outcomes
  import opened NaturalOrder

  /** A 32-bit integer. */
  type int32 = k: int | INT32_LOWEST <= k < INT32_LIMIT

  const INT32_LOWEST: int := -0x8000_0000

  /** How an integer is written into a name. */
  function Signed(k: int): string { if k < 0 then "-" + Decimal(-k) else Decimal(k) }

  function NodeName(network: string, ordinal: int): string { network + "-" + Signed(ordinal) }

  /** The names of the nodes with these ordinals. */
  function NamesOf(network: string, ordinals: set<nat>): set<string> { set k | k in ordinals :: NodeName(network, k) }

  /** Split("-").Last(): what follows the last dash. */
  function LastPart(s: string): string {
    var n := |s| - 1;
    if s == "" || s[n] == '-' then "" else LastPart(s[..n]) + [s[n]]
  }

  lemma {:induction false} LastPartOfName(u: string, d: string)
    requires '-' !in d
    ensures LastPart(u + "-" + d) == d
  {
    var s := u + "-" + d;
    var n := |s| - 1;
    if d != "" {
      assert s[..n] == u + "-" + d[..|d| - 1];
      LastPartOfName(u, d[..|d| - 1]);
      assert d == d[..|d| - 1] + [d[|d| - 1]];
    }
  }

  lemma ParsedOrdinal(network: string, k: nat)
    requires k < INT32_LIMIT
    ensures ParseInt32(LastPart(NodeName(network, k))) == Some(k)
  {
    LastPartOfName(network, Decimal(k));
    DecimalValue(k);
  }

  lemma SignedBegins(k: int)
    ensures Signed(k) != "" && (Signed(k)[0] == '-' <==> k < 0)
  {
    if k >= 0 { assert IsDigit(Decimal(k)[0]); }
  }

  lemma SignedInjective(k: int, t: int)
    requires Signed(k) == Signed(t)
    ensures k == t
  {
    SignedBegins(k);
    SignedBegins(t);
    if k < 0 {
      assert Signed(k)[1..] == Decimal(-k) && Signed(t)[1..] == Decimal(-t);
      DecimalValue(-k);
      DecimalValue(-t);
    } else {
      DecimalValue(k);
      DecimalValue(t);
    }
  }

  /** Different ordinals give different names, negative ones included. */
  lemma NodeNameInjective(network: string, k: int, t: int)
    requires NodeName(network, k) == NodeName(network, t)
    ensures k == t
  {
    var n := |network| + 1;
    assert NodeName(network, k)[n..] == Signed(k) && NodeName(network, t)[n..] == Signed(t);
    SignedInjective(k, t);
  }

  /** Counting up wraps around at the 32-bit limit. */
  function Next(k: int32): int32 { if k == INT32_LIMIT - 1 then INT32_LOWEST else k + 1 }

  /** One past the ordinal of the last name in padded order, in 32-bit arithmetic. There is none
      when there is no node or when the last name does not end in a number. */
  function StartOrdinal(names: seq<string>): Option<int32> {
    if names == [] then None
    else OrdinalAfter(LastByPadded(names))
  }

  function OrdinalAfter(name: string): Option<int32> { Successor(ParseInt32(LastPart(name))) }

  function Successor(k: Option<nat>): Option<int32> {
    if k.Some? && k.value < INT32_LIMIT then Some(Next(k.value)) else None
  }

  // ----- how names of one network are ordered -----

  lemma PaddedName(network: string, k: nat)
    ensures Pad(NodeName(network, k)) == Pad(network) + "-" + PadLeft(Decimal(k))
  {
    SplitAtSymbol(network, '-', Decimal(k));
    NumeralTokens(Decimal(k));
    PaddedAfterDash(Tokens(network), Decimal(k));
  }

  lemma PaddedAfterDash(head: seq<Token>, d: Numeral)
    ensures PadTokens(head + [Sym('-')] + [Num(d)]) == PadTokens(head) + "-" + PadLeft(d)
  {
    PadTokensConcat(head + [Sym('-')], [Num(d)]);
    PadTokensConcat(head, [Sym('-')]);
    PadDash();
    PadNumber(d);
  }

  lemma PadDash()
    ensures PadTokens([Sym('-')]) == "-"
  {
    assert PadTokens([Sym('-')]) == "-" + PadTokens([]);
  }

  lemma PadNumber(d: Numeral)
    ensures PadTokens([Num(d)]) == PadLeft(d)
  {
    assert PadTokens([Num(d)]) == PadLeft(d) + PadTokens([]);
  }

  /** The order of two ordinals of at most ten digits under padding to nine. */
  function OrdinalOrder(k: nat, t: nat): int {
    if k < BILLION <= t then (if k <= t / 10 then -1 else 1)
    else if t < BILLION <= k then (if t <= k / 10 then 1 else -1)
    else Sign(k - t)
  }

  lemma CompareOrdinals(k: nat, t: nat)
    requires k < 10 * BILLION && t < 10 * BILLION
    ensures Compare(PadLeft(Decimal(k)), PadLeft(Decimal(t))) == OrdinalOrder(k, t)
  {
    var p, q := PadLeft(Decimal(k)), PadLeft(Decimal(t));
    if k < BILLION && t < BILLION {
      NineDigits(k);
      NineDigits(t);
      CompareNumerals(p, q);
    } else if k < BILLION {
      MixedLengths(k, t);
    } else if t < BILLION {
      MixedLengths(t, k);
      CompareSwap(p, q);
    } else {
      TenDigits(k);
      TenDigits(t);
      CompareNumerals(p, q);
    }
  }

  /** Whatever digits the network name itself contains, its nodes are ordered by their ordinals. */
  lemma CompareNames(network: string, k: nat, t: nat)
    requires k < 10 * BILLION && t < 10 * BILLION
    ensures Compare(Pad(NodeName(network, k)), Pad(NodeName(network, t))) == OrdinalOrder(k, t)
  {
    PaddedName(network, k);
    PaddedName(network, t);
    CompareConcat(Pad(network) + "-", Pad(network) + "-", PadLeft(Decimal(k)), PadLeft(Decimal(t)));
    CompareOrdinals(k, t);
  }

  // ----- the start ordinal -----

  ghost predicate IsMax(ordinals: set<nat>, m: nat) {
    m in ordinals && forall k :: k in ordinals ==> k <= m
  }

  /** `listing` names the nodes with these ordinals, in any order. */
  ghost predicate Lists(listing: seq<string>, network: string, ordinals: set<nat>) {
    && listing != [] && (set name | name in listing) == NamesOf(network, ordinals)
    && forall k :: k in ordinals ==> k < INT32_LIMIT
  }

  lemma Listed(listing: seq<string>, network: string, ordinals: set<nat>, name: string)
    requires Lists(listing, network, ordinals)
    ensures name in listing <==> name in NamesOf(network, ordinals)
  {
    assert name in listing <==> name in set name | name in listing;
  }

  /** The ordinal the last name carries, and that no other ordinal is placed after it. */
  lemma LastOrdinal(network: string, ordinals: set<nat>, listing: seq<string>) returns (j: nat)
    requires Lists(listing, network, ordinals)
    ensures j in ordinals && j < INT32_LIMIT && StartOrdinal(listing) == Some(Next(j))
    ensures forall k :: k in ordinals ==> OrdinalOrder(k, j) <= 0
  {
    j := LastName(network, ordinals, listing);
    StartAfter(network, listing, j);
    forall k | k in ordinals ensures OrdinalOrder(k, j) <= 0 { NotAfterLast(network, ordinals, listing, k, j); }
  }

  lemma LastName(network: string, ordinals: set<nat>, listing: seq<string>) returns (j: nat)
    requires Lists(listing, network, ordinals)
    ensures j in ordinals && LastByPadded(listing) == NodeName(network, j)
  {
    Listed(listing, network, ordinals, LastByPadded(listing));
    j :| j in ordinals && NodeName(network, j) == LastByPadded(listing);
  }

  lemma StartAfter(network: string, listing: seq<string>, j: nat)
    requires listing != [] && j < INT32_LIMIT && LastByPadded(listing) == NodeName(network, j)
    ensures StartOrdinal(listing) == Some(Next(j))
  {
    AfterName(network, j);
    StartIs(listing, NodeName(network, j));
  }

  lemma AfterName(network: string, j: nat)
    requires j < INT32_LIMIT
    ensures OrdinalAfter(NodeName(network, j)) == Some(Next(j))
  {
    ParsedOrdinal(network, j);
  }

  lemma StartIs(listing: seq<string>, last: string)
    requires listing != [] && LastByPadded(listing) == last
    ensures StartOrdinal(listing) == OrdinalAfter(last)
  {
  }

  lemma NotAfterLast(network: string, ordinals: set<nat>, listing: seq<string>, k: nat, j: nat)
    requires Lists(listing, network, ordinals) && k in ordinals && j in ordinals
    requires NodeName(network, j) == LastByPadded(listing)
    ensures OrdinalOrder(k, j) <= 0
  {
    Listed(listing, network, ordinals, NodeName(network, k));
    LastByPaddedIsGreatest(listing, NodeName(network, k));
    CompareNames(network, k, j);
  }

  /** The start ordinal is past every existing ordinal exactly when no existing ordinal has ten
      digits, or no shorter one exceeds the largest with its last digit dropped and the largest is not
      the largest 32-bit integer. */
  lemma StartOrdinalFreshExactlyWhen(network: string, ordinals: set<nat>, listing: seq<string>, m: nat)
    requires Lists(listing, network, ordinals) && IsMax(ordinals, m)
    ensures StartOrdinal(listing).Some?
    ensures (forall k :: k in ordinals ==> k < StartOrdinal(listing).value) <==>
            m < BILLION || (m < INT32_LIMIT - 1 && forall k :: k in ordinals && k < BILLION ==> k <= m / 10)
  {
    var j := LastOrdinal(network, ordinals, listing);
    assert OrdinalOrder(m, j) <= 0;
    if m >= BILLION && j >= BILLION {
      forall k | k in ordinals && k < BILLION ensures k <= m / 10 { assert OrdinalOrder(k, j) <= 0; }
    }
  }

  // ----- batches as sets of names -----

  /** The names of `count` new nodes, counting up from ordinal `start`. */
  function Batch(network: string, start: int32, count: nat): set<string>
    decreases count
  {
    if count == 0 then {} else {NodeName(network, start)} + Batch(network, Next(start), count - 1)
  }

  /** `start` counted up `n` times. */
  function Plus(start: int32, n: nat): int32
    requires n <= INT32_LIMIT
  {
    if start + n < INT32_LIMIT then start + n else start + n - 2 * INT32_LIMIT
  }

  ghost predicate InBatch(network: string, start: int32, count: nat, name: string)
    requires count <= INT32_LIMIT
  {
    exists i: nat :: i < count && name == NodeName(network, Plus(start, i))
  }

  lemma PlusNext(start: int32, i: nat)
    requires i < INT32_LIMIT
    ensures Plus(Next(start), i) == Plus(start, i + 1)
  {
  }

  lemma InRest(network: string, start: int32, count: nat, name: string)
    requires 0 < count <= INT32_LIMIT && InBatch(network, Next(start), count - 1, name)
    ensures InBatch(network, start, count, name)
  {
    var i: nat :| i < count - 1 && name == NodeName(network, Plus(Next(start), i));
    PlusNext(start, i);
  }

  lemma NotFirst(network: string, start: int32, count: nat, name: string)
    requires 0 < count <= INT32_LIMIT && InBatch(network, start, count, name) && name != NodeName(network, start)
    ensures InBatch(network, Next(start), count - 1, name)
  {
    var i: nat :| i < count && name == NodeName(network, Plus(start, i));
    assert Plus(start, 0) == start;
    PlusNext(start, i - 1);
  }

  lemma IsFirst(network: string, start: int32, count: nat)
    requires 0 < count <= INT32_LIMIT
    ensures InBatch(network, start, count, NodeName(network, start))
  {
    assert Plus(start, 0) == start;
  }

  lemma {:induction false} BatchMember(network: string, start: int32, count: nat, name: string)
    requires count <= INT32_LIMIT
    ensures name in Batch(network, start, count) <==> InBatch(network, start, count, name)
    decreases count
  {
    if count > 0 {
      BatchMember(network, Next(start), count - 1, name);
      if name == NodeName(network, start) {
        IsFirst(network, start, count);
      } else if InBatch(network, start, count, name) {
        NotFirst(network, start, count, name);
      } else if InBatch(network, Next(start), count - 1, name) {
        InRest(network, start, count, name);
      }
    }
  }

  lemma {:induction false} BatchSize(network: string, start: int32, count: nat)
    requires count <= INT32_LIMIT
    ensures |Batch(network, start, count)| == count
    decreases count
  {
    if count > 0 {
      BatchSize(network, Next(start), count - 1);
      FirstIsNew(network, start, count - 1);
    }
  }

  lemma FirstIsNew(network: string, start: int32, count: nat)
    requires count < INT32_LIMIT
    ensures NodeName(network, start) !in Batch(network, Next(start), count)
  {
    BatchMember(network, Next(start), count, NodeName(network, start));
    if InBatch(network, Next(start), count, NodeName(network, start)) {
      var i: nat :| i < count && NodeName(network, start) == NodeName(network, Plus(Next(start), i));
      NodeNameInjective(network, start, Plus(Next(start), i));
    }
  }

  lemma {:induction false} BatchGrows(network: string, start: int32, few: nat, many: nat)
    requires few <= many
    ensures Batch(network, start, few) <= Batch(network, start, many)
    decreases few
  {
    if few > 0 { BatchGrows(network, Next(start), few - 1, many - 1); }
  }

  /** The first names of a batch, in order. */
  ghost predicate Numbered(network: string, start: int32, names: seq<string>) {
    |names| < INT32_LIMIT && forall i :: 0 <= i < |names| ==> names[i] == NodeName(network, Plus(start, i))
  }

  lemma NumberedNext(network: string, start: int32, names: seq<string>)
    requires Numbered(network, start, names) && |names| + 1 < INT32_LIMIT
    ensures Numbered(network, start, names + [NodeName(network, Plus(start, |names|))])
    ensures Next(Plus(start, |names|)) == Plus(start, |names| + 1)
  {
  }

  /** The creation loop of AddNodes and CreateJoinNodes makes the names of a batch, each once. */
  method NewNodeNames(network: string, numNodesToCreate: nat, startOrdinal: int32) returns (names: seq<string>)
    requires numNodesToCreate < INT32_LIMIT
    ensures |names| == numNodesToCreate
    ensures (set name | name in names) == Batch(network, startOrdinal, numNodesToCreate)
    ensures forall i, j :: 0 <= i < j < |names| ==> names[i] != names[j]
  {
    names := [];
    var remaining, ordinal := numNodesToCreate, startOrdinal;
    while remaining != 0
      invariant 0 <= remaining <= numNodesToCreate
      invariant |names| == numNodesToCreate - remaining && ordinal == Plus(startOrdinal, |names|)
      invariant Numbered(network, startOrdinal, names)
    {
      NumberedNext(network, startOrdinal, names);
      names := names + [NodeName(network, ordinal)];
      remaining := remaining - 1;
      ordinal := Next(ordinal);
    }
    NamesDiffer(network, startOrdinal, names);
    NamesAreBatch(network, startOrdinal, names);
  }

  lemma NamesDiffer(network: string, start: int32, names: seq<string>)
    requires Numbered(network, start, names)
    ensures forall i, j :: 0 <= i < j < |names| ==> names[i] != names[j]
  {
    forall i, j | 0 <= i < j < |names| ensures names[i] != names[j] {
      if names[i] == names[j] { NodeNameInjective(network, Plus(start, i), Plus(start, j)); }
    }
  }

  lemma NamesAreBatch(network: string, start: int32, names: seq<string>)
    requires Numbered(network, start, names)
    ensures (set name | name in names) == Batch(network, start, |names|)
  {
    forall name | name in names ensures name in Batch(network, start, |names|) {
      BatchMember(network, start, |names|, name);
      var i :| 0 <= i < |names| && names[i] == name;
      assert name == NodeName(network, Plus(start, i));
    }
    forall name | name in Batch(network, start, |names|) ensures name in names {
      BatchMember(network, start, |names|, name);
      var i: nat :| i < |names| && name == NodeName(network, Plus(start, i));
      assert names[i] == name;
    }
  }

  // ----- when a batch is new -----

  /** `k` is the largest ordinal of at most nine digits. */
  ghost predicate LargestShort(ordinals: set<nat>, k: nat) {
    k in ordinals && k < BILLION && forall o :: o in ordinals && o < BILLION ==> o <= k
  }

  /** The largest short ordinal exceeds the largest one with its last digit dropped, and there is a long
      one at most `count` past it. */
  ghost predicate Overlaps(ordinals: set<nat>, count: nat) {
    exists k: nat, m: nat, t: nat ::
      && LargestShort(ordinals, k) && IsMax(ordinals, m) && t in ordinals
      && k > m / 10 && BILLION <= t <= k + count
  }

  lemma Collision(network: string, j: nat, count: nat, t: nat)
    requires j < INT32_LIMIT && t < INT32_LIMIT && count < INT32_LIMIT
    ensures NodeName(network, t) in Batch(network, Next(j), count) <==> j < t <= j + count
  {
    BatchMember(network, Next(j), count, NodeName(network, t));
    if InBatch(network, Next(j), count, NodeName(network, t)) {
      var i: nat :| i < count && NodeName(network, t) == NodeName(network, Plus(Next(j), i));
      NodeNameInjective(network, t, Plus(Next(j), i));
    }
    if j < t <= j + count {
      assert Plus(Next(j), t - j - 1) == t;
    }
  }

  lemma OverlapsExactlyWhen(ordinals: set<nat>, j: nat, count: nat)
    requires j in ordinals && forall k :: k in ordinals ==> OrdinalOrder(k, j) <= 0
    requires exists m: nat :: IsMax(ordinals, m)
    ensures (exists t :: t in ordinals && j < t <= j + count) <==> Overlaps(ordinals, count)
  {
    var m: nat :| IsMax(ordinals, m);
    assert OrdinalOrder(m, j) <= 0;
    if t :| t in ordinals && j < t <= j + count {
      assert OrdinalOrder(t, j) <= 0;
      forall o | o in ordinals && o < BILLION ensures o <= j { assert OrdinalOrder(o, j) <= 0; }
      assert LargestShort(ordinals, j);
    }
    if Overlaps(ordinals, count) {
      var k: nat, m': nat, t: nat :| LargestShort(ordinals, k) && IsMax(ordinals, m') && t in ordinals
        && k > m' / 10 && BILLION <= t <= k + count;
      assert OrdinalOrder(k, j) <= 0;
      assert j == k;
    }
  }

  lemma {:induction false} MaxExists(ordinals: set<nat>) returns (m: nat)
    requires ordinals != {}
    ensures IsMax(ordinals, m)
  {
    var k :| k in ordinals;
    if ordinals == {k} {
      m := k;
    } else {
      var rest := ordinals - {k};
      m := MaxExists(rest);
      if m < k { m := k; }
      assert forall o :: o in ordinals ==> o == k || o in rest;
    }
  }

  /** A batch of new names has the requested size, and one of them is in use exactly when the ordinals
      overlap. */
  lemma BatchReusesExactlyWhen(network: string, ordinals: set<nat>, listing: seq<string>, count: nat)
    requires Lists(listing, network, ordinals) && count < INT32_LIMIT
    ensures StartOrdinal(listing).Some? && |Batch(network, StartOrdinal(listing).value, count)| == count
    ensures NamesOf(network, ordinals) * Batch(network, StartOrdinal(listing).value, count) != {} <==> Overlaps(ordinals, count)
  {
    var j := LastOrdinal(network, ordinals, listing);
    BatchSize(network, Next(j), count);
    var m := MaxExists(ordinals);
    OverlapsExactlyWhen(ordinals, j, count);
    var shared := NamesOf(network, ordinals) * Batch(network, Next(j), count);
    if shared != {} {
      var name :| name in shared;
      var t :| t in ordinals && NodeName(network, t) == name;
      Collision(network, j, count, t);
    }
    if t :| t in ordinals && j < t <= j + count {
      Collision(network, j, count, t);
      assert NodeName(network, t) in shared;
    }
  }
}
