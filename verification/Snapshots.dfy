/** Choosing the newest committed snapshot on the file shares of a network. */
module Snapshots {
  import opened Outcomes
  import opened NaturalOrder

  /** `network` is the share's network-name metadata, if it has any; `files` lists its snapshots
      directory, and is empty when there is none. */
  datatype Share = Share(name: string, network: Option<string>, files: seq<string>)

  const PREFIX: string := "snapshot_"
  const SUFFIX: string := ".committed"

  predicate StartsWith(s: string, p: string) { p <= s }

  predicate EndsWith(s: string, p: string) { |p| <= |s| && s[|s| - |p|..] == p }

  predicate IsCommitted(file: string) { StartsWith(file, PREFIX) && EndsWith(file, SUFFIX) }

  function CommittedFiles(files: seq<string>): seq<string> {
    if files == [] then []
    else (if IsCommitted(files[0]) then [files[0]] else []) + CommittedFiles(files[1..])
  }

  lemma {:induction false} CommittedMembers(files: seq<string>, f: string)
    ensures f in CommittedFiles(files) <==> f in files && IsCommitted(f)
  {
    if files != [] { CommittedMembers(files[1..], f); }
  }

  /** Split("_")[1]: what stands between the first underscore and the second, or the end. */
  function SecondPart(s: string): string {
    if s == "" then "" else if s[0] == '_' then UpToUnderscore(s[1..]) else SecondPart(s[1..])
  }

  function UpToUnderscore(s: string): string {
    if s == "" || s[0] == '_' then "" else [s[0]] + UpToUnderscore(s[1..])
  }

  function SeqNo(file: string): Option<nat> { ParseInt32(SecondPart(file)) }

  /** The name a node gives the snapshot taken at `a` whose evidence is at `b`. */
  function SnapshotName(a: nat, b: nat): string {
    "snapshot" + "_" + Decimal(a) + "_" + Decimal(b) + "." + "committed"
  }

  // ----- the order of snapshot names -----

  lemma {:induction false} NoNumbers(s: string)
    requires forall k :: 0 <= k < |s| ==> !IsDigit(s[k])
    ensures Numbers(Tokens(s)) == [] && RunsAtMost(Tokens(s), 0)
  {
    if s != "" {
      NoNumbers(s[1..]);
      assert Tokens(s)[1..] == Tokens(s[1..]);
    }
  }

  /** `before`, a number, an underscore, a number, `after`. */
  function TwoNumbers(before: seq<Token>, a: nat, b: nat, after: seq<Token>): seq<Token> {
    before + [Num(Decimal(a)), Sym('_'), Num(Decimal(b))] + after
  }

  ghost predicate NumberFree(ts: seq<Token>) { Numbers(ts) == [] && RunsAtMost(ts, 0) }

  lemma SymbolsAround(u: string, w: string)
    requires forall k :: 0 <= k < |u| ==> !IsDigit(u[k])
    requires forall k :: 0 <= k < |w| ==> !IsDigit(w[k])
    ensures NumberFree(Tokens(u) + [Sym('_')]) && NumberFree([Sym('.')] + Tokens(w))
  {
    NoNumbers(u);
    NoNumbers(w);
    NumbersConcat(Tokens(u), [Sym('_')]);
    NumbersConcat([Sym('.')], Tokens(w));
  }

  lemma TokensOfForm(u: string, a: nat, b: nat, w: string)
    ensures Tokens(u + "_" + Decimal(a) + "_" + Decimal(b) + "." + w)
         == TwoNumbers(Tokens(u) + [Sym('_')], a, b, [Sym('.')] + Tokens(w))
  {
    var s := u + "_" + Decimal(a);
    var t := s + "_" + Decimal(b);
    NumberAfter(u, a);
    NumberAfter(s, b);
    SplitAtSymbol(t, '.', w);
    var p := Tokens(u) + [Sym('_')];
    var x, y := Num(Decimal(a)), Num(Decimal(b));
    Regroup(p, x, Sym('_'), y, Sym('.'), Tokens(w));
  }

  lemma Regroup(p: seq<Token>, x: Token, c: Token, y: Token, d: Token, q: seq<Token>)
    ensures p + [x] + [c] + [y] + [d] + q == p + [x, c, y] + ([d] + q)
  {
  }

  lemma NumberAfter(u: string, a: nat)
    ensures Tokens(u + "_" + Decimal(a)) == Tokens(u) + [Sym('_')] + [Num(Decimal(a))]
  {
    SplitAtSymbol(u, '_', Decimal(a));
    NumeralTokens(Decimal(a));
  }

  lemma NumbersOfForm(before: seq<Token>, a: nat, b: nat, after: seq<Token>)
    requires NumberFree(before) && NumberFree(after)
    ensures Numbers(TwoNumbers(before, a, b, after)) == [a, b]
  {
    var x, y := Num(Decimal(a)), Num(Decimal(b));
    var mid := [x, Sym('_'), y];
    NumbersConcat(before, mid);
    NumbersConcat(before + mid, after);
    assert mid == [x] + ([Sym('_')] + [y]);
    NumbersConcat([x], [Sym('_')] + [y]);
    NumbersConcat([Sym('_')], [y]);
    DecimalValue(a);
    DecimalValue(b);
  }

  lemma FormOrder(before: seq<Token>, after: seq<Token>, a: nat, b: nat, c: nat, d: nat)
    requires NumberFree(before) && NumberFree(after)
    requires a < BILLION && b < BILLION && c < BILLION && d < BILLION
    ensures var s, t := TwoNumbers(before, a, b, after), TwoNumbers(before, c, d, after);
            Compare(PadTokens(s), PadTokens(t)) == CompareTuples([a, b], [c, d])
  {
    var s, t := TwoNumbers(before, a, b, after), TwoNumbers(before, c, d, after);
    NumbersOfForm(before, a, b, after);
    NumbersOfForm(before, c, d, after);
    FormRuns(before, a, b, after);
    FormRuns(before, c, d, after);
    FormSkeleton(before, a, b, c, d, after);
    TokenOrdering(s, t);
  }

  lemma FormRuns(before: seq<Token>, a: nat, b: nat, after: seq<Token>)
    requires NumberFree(before) && NumberFree(after) && a < BILLION && b < BILLION
    ensures RunsAtMost(TwoNumbers(before, a, b, after), PAD_WIDTH)
  {
    ShortDecimal(a);
    ShortDecimal(b);
  }

  lemma FormSkeleton(before: seq<Token>, a: nat, b: nat, c: nat, d: nat, after: seq<Token>)
    ensures SameSkeleton(TwoNumbers(before, a, b, after), TwoNumbers(before, c, d, after))
  {
  }

  lemma ShortDecimal(a: nat)
    requires a < BILLION
    ensures |Decimal(a)| <= PAD_WIDTH
  {
    BillionIsPow10();
    DecimalLength(a, PAD_WIDTH);
  }

  /** Snapshot names are ordered by snapshot number, then by evidence number. */
  lemma SnapshotOrder(a: nat, b: nat, c: nat, d: nat)
    requires a < BILLION && b < BILLION && c < BILLION && d < BILLION
    ensures Compare(Pad(SnapshotName(a, b)), Pad(SnapshotName(c, d))) == CompareTuples([a, b], [c, d])
  {
    var u, w := "snapshot", "committed";
    SymbolsAround(u, w);
    TokensOfForm(u, a, b, w);
    TokensOfForm(u, c, d, w);
    FormOrder(Tokens(u) + [Sym('_')], [Sym('.')] + Tokens(w), a, b, c, d);
  }

  lemma {:induction false} SecondPartOf(u: string, d: string, v: string)
    requires '_' !in u && '_' !in d
    ensures SecondPart(u + "_" + d + "_" + v) == d
  {
    var s := u + "_" + d + "_" + v;
    if u == "" {
      assert s[1..] == d + "_" + v;
      FirstPartOf(d, v);
    } else {
      assert s[1..] == u[1..] + "_" + d + "_" + v;
      SecondPartOf(u[1..], d, v);
    }
  }

  lemma {:induction false} FirstPartOf(d: string, v: string)
    requires '_' !in d
    ensures UpToUnderscore(d + "_" + v) == d
  {
    if d != "" {
      assert (d + "_" + v)[1..] == d[1..] + "_" + v;
      FirstPartOf(d[1..], v);
    }
  }

  /** The number parsed out of a snapshot name is the snapshot number, as long as it is an int. */
  lemma SeqNoOf(a: nat, b: nat)
    ensures SeqNo(SnapshotName(a, b)) == if a < INT32_LIMIT then Some(a) else None
  {
    var v := Decimal(b) + "." + "committed";
    assert SnapshotName(a, b) == "snapshot" + "_" + Decimal(a) + "_" + v;
    SecondPartOf("snapshot", Decimal(a), v);
    DecimalValue(a);
  }

  lemma NamePasses(a: nat, b: nat)
    ensures IsCommitted(SnapshotName(a, b))
  {
    var s := SnapshotName(a, b);
    assert s[|s| - |SUFFIX|..] == SUFFIX;
    assert s[..|PREFIX|] == PREFIX;
  }

  // ----- choosing -----

  predicate IsSnapshot(file: string, a: nat, b: nat) {
    a < BILLION && b < BILLION && file == SnapshotName(a, b)
  }

  /** Every committed snapshot file has a name of the documented form with numbers below 10^9. */
  ghost predicate WellNamed(files: seq<string>) {
    forall f :: f in files && IsCommitted(f) ==> exists a: nat, b: nat :: IsSnapshot(f, a, b)
  }

  function LatestOf(files: seq<string>): Option<string> {
    var committed := CommittedFiles(files);
    if committed == [] then None else Some(LastByPadded(committed))
  }

  /** The snapshot picked on one share has the greatest number, and among equals the latest evidence. */
  lemma LatestIsGreatest(files: seq<string>, a: nat, b: nat) returns (c: nat, d: nat)
    requires WellNamed(files) && IsSnapshot(SnapshotName(a, b), a, b) && SnapshotName(a, b) in files
    ensures LatestOf(files).Some? && IsSnapshot(LatestOf(files).value, c, d)
    ensures CompareTuples([a, b], [c, d]) <= 0 && a <= c
  {
    NamePasses(a, b);
    var committed := CommittedFiles(files);
    CommittedMembers(files, SnapshotName(a, b));
    var f := LastByPadded(committed);
    CommittedMembers(files, f);
    c, d :| IsSnapshot(f, c, d);
    GreatestAmong(committed, SnapshotName(a, b), a, b, c, d);
  }

  lemma GreatestAmong(committed: seq<string>, name: string, a: nat, b: nat, c: nat, d: nat)
    requires name in committed && IsSnapshot(name, a, b) && IsSnapshot(LastByPadded(committed), c, d)
    ensures CompareTuples([a, b], [c, d]) <= 0 && a <= c
  {
    LastByPaddedIsGreatest(committed, name);
    SnapshotOrder(a, b, c, d);
  }

  /** Snapshot number `a` is on a share of the network. */
  ghost predicate OnShare(network: string, share: Share, a: nat) {
    share.network == Some(network) && exists b: nat :: IsSnapshot(SnapshotName(a, b), a, b) && SnapshotName(a, b) in share.files
  }

  ghost predicate AllWellNamed(network: string, shares: seq<Share>) {
    forall i :: 0 <= i < |shares| && shares[i].network == Some(network) ==> WellNamed(shares[i].files)
  }

  lemma LatestBounds(network: string, share: Share)
    requires share.network == Some(network) && WellNamed(share.files)
    ensures match LatestOf(share.files)
            case None => forall a: nat :: !OnShare(network, share, a)
            case Some(f) =>
              && SeqNo(f).Some?
              && OnShare(network, share, SeqNo(f).value)
              && forall a: nat :: OnShare(network, share, a) ==> a <= SeqNo(f).value
  {
    var committed := CommittedFiles(share.files);
    if committed != [] {
      var f := LastByPadded(committed);
      CommittedMembers(share.files, f);
      var c: nat, d: nat :| IsSnapshot(f, c, d);
      SeqNoOf(c, d);
    }
    forall a: nat | OnShare(network, share, a)
      ensures LatestOf(share.files).Some? && SeqNo(LatestOf(share.files).value).Some?
           && a <= SeqNo(LatestOf(share.files).value).value
    {
      var b: nat :| IsSnapshot(SnapshotName(a, b), a, b) && SnapshotName(a, b) in share.files;
      var c, d := LatestIsGreatest(share.files, a, b);
      SeqNoOf(c, d);
    }
  }

  datatype Fault = BadSequenceNumber(file: string)

  /** The share found so far, the latest snapshot on it and the number of that snapshot. */
  datatype Best = Best(share: Option<string>, snapshot: string, seqNo: nat)

  const NOTHING_FOUND := Best(None, "", 0)

  /** One share after another: a share of the network replaces the best so far when its latest
      snapshot has a higher number, and a latest snapshot without a number stops the search. */
  function Scan(network: string, shares: seq<Share>): Result<Best, Fault> {
    if shares == [] then Ok(NOTHING_FOUND)
    else
      match Scan(network, shares[..|shares| - 1])
      case Err(e) => Err(e)
      case Ok(best) => Compete(network, shares[|shares| - 1], best)
  }

  function Compete(network: string, share: Share, best: Best): Result<Best, Fault> {
    if share.network != Some(network) || LatestOf(share.files).None? then Ok(best)
    else
      var latest := LatestOf(share.files).value;
      match SeqNo(latest)
      case None => Err(BadSequenceNumber(latest))
      case Some(k) => Ok(if k > best.seqNo then Best(Some(share.name), latest, k) else best)
  }

  /** A share of the network whose latest snapshot has no number to compare. */
  predicate Malformed(network: string, share: Share) {
    && share.network == Some(network)
    && LatestOf(share.files).Some? && SeqNo(LatestOf(share.files).value).None?
  }

  /** A share of the network whose latest snapshot is `file`, with number `seqNo`. */
  predicate HasLatest(network: string, share: Share, file: string, seqNo: nat) {
    share.network == Some(network) && LatestOf(share.files) == Some(file) && SeqNo(file) == Some(seqNo)
  }

  /** The search fails exactly when the latest snapshot on some share of the network has no number. */
  lemma {:induction false} ScanFailsExactlyWhen(network: string, shares: seq<Share>)
    ensures Scan(network, shares).Err? <==> exists share :: share in shares && Malformed(network, share)
  {
    if shares != [] {
      var rest, last := shares[..|shares| - 1], shares[|shares| - 1];
      ScanFailsExactlyWhen(network, rest);
      if Scan(network, rest).Err? {
        var share :| share in rest && Malformed(network, share);
        assert share in shares;
      } else if Malformed(network, last) {
        assert last in shares;
      } else {
        assert forall share :: share in shares ==> share in rest || share == last;
      }
    }
  }

  /** Otherwise the number found is that of the latest snapshot on the share found, and it is the
      maximum over the shares of the network. */
  lemma {:induction false} ScanIsMaximum(network: string, shares: seq<Share>, best: Best)
    requires Scan(network, shares) == Ok(best)
    ensures best.share.None? ==> best.seqNo == 0
    ensures best.share.Some? ==>
              best.seqNo > 0 &&
              exists share :: share in shares && Some(share.name) == best.share && HasLatest(network, share, best.snapshot, best.seqNo)
    ensures forall share, f, k: nat :: share in shares && HasLatest(network, share, f, k) ==> k <= best.seqNo
  {
    if shares != [] {
      var rest, last := shares[..|shares| - 1], shares[|shares| - 1];
      var before := Scan(network, rest).value;
      ScanIsMaximum(network, rest, before);
      assert forall share :: share in shares <==> share in rest || share == last;
      if best != before { assert HasLatest(network, last, best.snapshot, best.seqNo); }
    }
  }

  /** No snapshot number on any share of the network exceeds `bound`. */
  ghost predicate NoneAbove(network: string, shares: seq<Share>, bound: nat) {
    forall share, a: nat :: share in shares && OnShare(network, share, a) ==> a <= bound
  }

  /** With well-formed names the search succeeds, no committed snapshot on any share of the network
      is newer than the one found, and none is found exactly when every number is zero. */
  lemma FoundIsNewest(network: string, shares: seq<Share>)
    requires AllWellNamed(network, shares)
    ensures Scan(network, shares).Ok?
    ensures NoneAbove(network, shares, Scan(network, shares).value.seqNo)
    ensures Scan(network, shares).value.share.None? <==> NoneAbove(network, shares, 0)
  {
    ScanFailsExactlyWhen(network, shares);
    forall share | share in shares && share.network == Some(network) ensures !Malformed(network, share) {
      LatestBounds(network, share);
    }
    var best := Scan(network, shares).value;
    ScanIsMaximum(network, shares, best);
    forall share, a: nat | share in shares && OnShare(network, share, a) ensures a <= best.seqNo {
      LatestBounds(network, share);
      var f := LatestOf(share.files).value;
      assert HasLatest(network, share, f, SeqNo(f).value);
    }
    if best.share.Some? {
      var share :| share in shares && HasLatest(network, share, best.snapshot, best.seqNo);
      LatestBounds(network, share);
    }
  }

  // ----- numbers of ten digits -----

  /** The order of two different numbers of at most ten digits that an underscore follows. */
  function NumberOrder(a: nat, c: nat): int {
    if a < BILLION <= c then (if a < c / 10 then -1 else 1)
    else if c < BILLION <= a then (if c < a / 10 then 1 else -1)
    else Sign(a - c)
  }

  /** What may follow a number: an underscore first. */
  predicate Follows(u: string) { u != "" && u[0] == '_' }

  /** Nine digits and an underscore against nine digits and one more. */
  lemma NineAgainstTen(p: string, q: string, d: char, u: string, v: string)
    requires |p| == |q| && AllDigits(p) && AllDigits(q) && IsDigit(d) && Follows(u)
    ensures Compare(p + u, q + ([d] + v)) == if Value(p) < Value(q) then -1 else 1
  {
    CompareNumerals(p, q);
    CompareConcat(p, q, u, [d] + v);
    assert Compare(u, [d] + v) == 1;
  }

  lemma MixedNumbers(k: nat, t: nat, u: string, v: string)
    requires k < BILLION <= t < 10 * BILLION && Follows(u)
    ensures Compare(PadLeft(Decimal(k)) + u, PadLeft(Decimal(t)) + v) == if k < t / 10 then -1 else 1
  {
    NineDigits(k);
    var q, d := LongDecimal(t);
    assert PadLeft(Decimal(t)) + v == q + ([d] + v);
    NineAgainstTen(PadLeft(Decimal(k)), q, d, u, v);
  }

  lemma SameLength(p: string, q: string, u: string, v: string)
    requires |p| == |q| && AllDigits(p) && AllDigits(q) && Value(p) != Value(q)
    ensures Compare(p + u, q + v) == Sign(Value(p) - Value(q))
  {
    CompareNumerals(p, q);
    CompareConcat(p, q, u, v);
  }

  lemma BeforeUnderscore(a: nat, c: nat, u: string, v: string)
    requires a != c && a < 10 * BILLION && c < 10 * BILLION && Follows(u) && Follows(v)
    ensures Compare(PadLeft(Decimal(a)) + u, PadLeft(Decimal(c)) + v) == NumberOrder(a, c)
  {
    var p, q := PadLeft(Decimal(a)), PadLeft(Decimal(c));
    if a < BILLION && c < BILLION {
      NineDigits(a);
      NineDigits(c);
      SameLength(p, q, u, v);
    } else if a < BILLION {
      MixedNumbers(a, c, u, v);
    } else if c < BILLION {
      MixedNumbers(c, a, v, u);
      CompareSwap(p + u, q + v);
    } else {
      TenDigits(a);
      TenDigits(c);
      SameLength(p, q, u, v);
    }
  }

  /** What follows the first number of a padded name. */
  function Rest(b: nat, after: seq<Token>): (r: string)
    ensures Follows(r)
  {
    "_" + PadTokens([Num(Decimal(b))] + after)
  }

  lemma PaddedTail(a: nat, b: nat, after: seq<Token>)
    ensures PadTokens([Num(Decimal(a)), Sym('_'), Num(Decimal(b))] + after) == PadLeft(Decimal(a)) + Rest(b, after)
  {
    var ts := [Num(Decimal(a)), Sym('_'), Num(Decimal(b))] + after;
    var us := [Sym('_')] + ([Num(Decimal(b))] + after);
    assert ts[1..] == us && us[1..] == [Num(Decimal(b))] + after;
    assert PadTokens(us) == "_" + PadTokens(us[1..]);
  }

  lemma PaddedForm(before: seq<Token>, a: nat, b: nat, after: seq<Token>)
    ensures PadTokens(TwoNumbers(before, a, b, after)) == PadTokens(before) + (PadLeft(Decimal(a)) + Rest(b, after))
  {
    var mid := [Num(Decimal(a)), Sym('_'), Num(Decimal(b))];
    assert TwoNumbers(before, a, b, after) == before + (mid + after);
    PadTokensConcat(before, mid + after);
    PaddedTail(a, b, after);
  }

  lemma FormNumbersDecide(before: seq<Token>, after: seq<Token>, a: nat, b: nat, c: nat, d: nat)
    requires a != c && a < 10 * BILLION && c < 10 * BILLION
    ensures Compare(PadTokens(TwoNumbers(before, a, b, after)), PadTokens(TwoNumbers(before, c, d, after))) == NumberOrder(a, c)
  {
    PaddedForm(before, a, b, after);
    PaddedForm(before, c, d, after);
    BeforeUnderscore(a, c, Rest(b, after), Rest(d, after));
    var head := PadTokens(before);
    CompareConcat(head, head, PadLeft(Decimal(a)) + Rest(b, after), PadLeft(Decimal(c)) + Rest(d, after));
  }

  /** Snapshots with different numbers of at most ten digits are ordered by `NumberOrder`, whatever
      their evidence numbers. */
  lemma NumbersDecide(a: nat, b: nat, c: nat, d: nat)
    requires a != c && a < 10 * BILLION && c < 10 * BILLION
    ensures Compare(Pad(SnapshotName(a, b)), Pad(SnapshotName(c, d))) == NumberOrder(a, c)
  {
    var u, w := "snapshot", "committed";
    TokensOfForm(u, a, b, w);
    TokensOfForm(u, c, d, w);
    FormNumbersDecide(Tokens(u) + [Sym('_')], [Sym('.')] + Tokens(w), a, b, c, d);
  }

  /** Every committed snapshot file has a name of the documented form with an int for a number. */
  ghost predicate IntNamed(files: seq<string>) {
    forall f :: f in files && IsCommitted(f) ==> exists a: nat, b: nat :: IsNumbered(f, a, b)
  }

  predicate IsNumbered(file: string, a: nat, b: nat) { a < INT32_LIMIT && file == SnapshotName(a, b) }

  /** A share of the network has a snapshot with number `a`. */
  ghost predicate Holds(network: string, share: Share, a: nat) {
    share.network == Some(network) && exists b: nat :: IsNumbered(SnapshotName(a, b), a, b) && SnapshotName(a, b) in share.files
  }

  /** The number of the latest snapshot on a share, and that no other is placed after it. */
  lemma LatestNumber(network: string, share: Share, a: nat) returns (j: nat)
    requires IntNamed(share.files) && Holds(network, share, a)
    ensures LatestOf(share.files).Some? && SeqNo(LatestOf(share.files).value) == Some(j) && Holds(network, share, j)
    ensures forall k: nat :: Holds(network, share, k) && k != j ==> NumberOrder(k, j) <= 0
  {
    var committed := CommittedFiles(share.files);
    var b: nat :| IsNumbered(SnapshotName(a, b), a, b) && SnapshotName(a, b) in share.files;
    NamePasses(a, b);
    CommittedMembers(share.files, SnapshotName(a, b));
    var f := LastByPadded(committed);
    CommittedMembers(share.files, f);
    var d: nat;
    j, d :| IsNumbered(f, j, d);
    SeqNoOf(j, d);
    forall k: nat | Holds(network, share, k) && k != j ensures NumberOrder(k, j) <= 0 {
      NotAfterLatest(network, share, committed, k, j, d);
    }
  }

  lemma NotAfterLatest(network: string, share: Share, committed: seq<string>, k: nat, j: nat, d: nat)
    requires Holds(network, share, k) && k != j && committed == CommittedFiles(share.files) && committed != []
    requires IsNumbered(LastByPadded(committed), j, d)
    ensures NumberOrder(k, j) <= 0
  {
    var b: nat :| IsNumbered(SnapshotName(k, b), k, b) && SnapshotName(k, b) in share.files;
    NamePasses(k, b);
    CommittedMembers(share.files, SnapshotName(k, b));
    LastByPaddedIsGreatest(committed, SnapshotName(k, b));
    NumbersDecide(k, b, j, d);
  }

  /** The newest number `m` is on the share, and no number of at most nine digits there reaches it with
      its last digit dropped. */
  ghost predicate PicksNewest(network: string, share: Share, m: nat) {
    Holds(network, share, m) && forall k: nat :: Holds(network, share, k) && k < BILLION <= m ==> k < m / 10
  }

  /** Then, and only then, it is the number of the latest snapshot on the share. */
  lemma LatestIsNewestExactlyWhen(network: string, share: Share, m: nat)
    requires IntNamed(share.files) && Holds(network, share, m)
    requires forall k: nat :: Holds(network, share, k) ==> k <= m
    ensures LatestOf(share.files).Some?
    ensures SeqNo(LatestOf(share.files).value) == Some(m) <==> PicksNewest(network, share, m)
  {
    var j := LatestNumber(network, share, m);
    if j == m {
      forall k: nat | Holds(network, share, k) && k < BILLION <= m ensures k < m / 10 { assert NumberOrder(k, j) <= 0; }
    } else {
      assert NumberOrder(m, j) <= 0;
    }
  }

  /** `m` is the newest number on the shares of the network. */
  ghost predicate IsNewest(network: string, shares: seq<Share>, m: nat) {
    && (exists share :: share in shares && Holds(network, share, m))
    && forall share, k: nat :: share in shares && Holds(network, share, k) ==> k <= m
  }

  lemma IntNamedIsWellFormed(network: string, share: Share)
    requires share.network == Some(network) ==> IntNamed(share.files)
    ensures !Malformed(network, share)
  {
    if share.network == Some(network) && LatestOf(share.files).Some? {
      var committed := CommittedFiles(share.files);
      var f := LastByPadded(committed);
      CommittedMembers(share.files, f);
      var a: nat, b: nat :| IsNumbered(f, a, b);
      SeqNoOf(a, b);
    }
  }

  lemma HasLatestHolds(network: string, share: Share, f: string, k: nat)
    requires HasLatest(network, share, f, k) && IntNamed(share.files)
    ensures Holds(network, share, k)
  {
    var committed := CommittedFiles(share.files);
    CommittedMembers(share.files, f);
    var a: nat, b: nat :| IsNumbered(f, a, b);
    SeqNoOf(a, b);
  }

  /** The search finds the newest number on the shares of the network if and only if some share that has
      it picks it. */
  lemma FoundIsNewestExactlyWhen(network: string, shares: seq<Share>, m: nat)
    requires forall share :: share in shares && share.network == Some(network) ==> IntNamed(share.files)
    requires IsNewest(network, shares, m)
    ensures Scan(network, shares).Ok?
    ensures Scan(network, shares).value.seqNo == m <==> exists share :: share in shares && PicksNewest(network, share, m)
  {
    ScanFailsExactlyWhen(network, shares);
    forall share | share in shares ensures !Malformed(network, share) { IntNamedIsWellFormed(network, share); }
    var best := Scan(network, shares).value;
    ScanIsMaximum(network, shares, best);
    if best.share.Some? {
      var share :| share in shares && HasLatest(network, share, best.snapshot, best.seqNo);
      HasLatestHolds(network, share, best.snapshot, best.seqNo);
      if best.seqNo == m { LatestIsNewestExactlyWhen(network, share, m); }
    } else if m == 0 {
      var share :| share in shares && Holds(network, share, m);
      assert PicksNewest(network, share, m);
    }
    if share :| share in shares && PicksNewest(network, share, m) {
      LatestIsNewestExactlyWhen(network, share, m);
      assert HasLatest(network, share, LatestOf(share.files).value, m);
    }
  }

  /** The inner loop: the files of the directory that are committed snapshots, in order. */
  method CollectCommitted(files: seq<string>) returns (snapshotFiles: seq<string>)
    ensures snapshotFiles == CommittedFiles(files)
  {
    snapshotFiles := [];
    var i := 0;
    while i < |files|
      invariant i <= |files|
      invariant snapshotFiles + CommittedFiles(files[i..]) == CommittedFiles(files)
    {
      assert files[i..][0] == files[i] && files[i..][1..] == files[i + 1..];
      if IsCommitted(files[i]) {
        snapshotFiles := snapshotFiles + [files[i]];
      }
      i := i + 1;
    }
  }

  /** The path of the latest committed snapshot on a share; only the directory when there is none. */
  method FindLatestSnapshot(files: seq<string>) returns (path: string)
    ensures match LatestOf(files)
            case None => path == "snapshots/" && forall f :: f in files ==> !IsCommitted(f)
            case Some(f) => path == "snapshots/" + f && f in files && IsCommitted(f)
  {
    var latest := LatestOnShare(files);
    if latest.None? {
      forall f | f in files ensures !IsCommitted(f) { CommittedMembers(files, f); }
      return "snapshots/";
    }
    CommittedMembers(files, latest.value);
    return "snapshots/" + latest.value;
  }

  method LatestOnShare(files: seq<string>) returns (r: Option<string>)
    ensures r == LatestOf(files)
  {
    var snapshotFiles := CollectCommitted(files);
    if snapshotFiles == [] {
      return None;
    }
    return Some(LastByPadded(snapshotFiles));
  }

  lemma {:induction false} FaultsStay(network: string, shares: seq<Share>, n: nat, fault: Fault)
    requires n <= |shares| && Scan(network, shares[..n]) == Err(fault)
    ensures Scan(network, shares) == Err(fault)
  {
    if n == |shares| {
      assert shares[..n] == shares;
    } else {
      var rest := shares[..|shares| - 1];
      assert rest[..n] == shares[..n];
      FaultsStay(network, rest, n, fault);
    }
  }

  lemma ScanNext(network: string, shares: seq<Share>, n: nat, best: Best)
    requires n < |shares| && Scan(network, shares[..n]) == Ok(best)
    ensures Scan(network, shares[..n + 1]) == Compete(network, shares[n], best)
  {
    assert shares[..n + 1][..n] == shares[..n];
  }

  method InspectShare(network: string, share: Share, best: Best) returns (r: Result<Best, Fault>)
    ensures r == Compete(network, share, best)
  {
    r := Ok(best);
    if share.network == Some(network) {
      var latestNodeSnapshot := LatestOnShare(share.files);
      if latestNodeSnapshot.Some? {
        var seqNo := SeqNo(latestNodeSnapshot.value);
        if seqNo.None? {
          return Err(BadSequenceNumber(latestNodeSnapshot.value));
        }
        if seqNo.value > best.seqNo {
          r := Ok(Best(Some(share.name), latestNodeSnapshot.value, seqNo.value));
        }
      }
    }
  }

  /** The search over the shares, in the order they are listed. */
  method FindShareWithLatestSnapshot(network: string, shares: seq<Share>) returns (r: Result<Best, Fault>)
    ensures r == Scan(network, shares)
  {
    var best := NOTHING_FOUND;
    var n := 0;
    while n < |shares|
      invariant n <= |shares|
      invariant Scan(network, shares[..n]) == Ok(best)
    {
      var next := InspectShare(network, shares[n], best);
      ScanNext(network, shares, n, best);
      if next.Err? {
        FaultsStay(network, shares, n + 1, next.error);
        return next;
      }
      best := next.value;
      n := n + 1;
    }
    assert shares[..n] == shares;
    r := Ok(best);
  }
}
