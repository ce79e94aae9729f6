/** Natural-number ordering of names: every run of decimal digits is left-padded with zeros to nine
    places and the results are compared character by character. */
module NaturalOrder {
  import opened Outcomes

  const PAD_WIDTH: nat := 9

  predicate IsDigit(c: char) { '0' <= c <= '9' }

  predicate AllDigits(s: string) { forall k :: 0 <= k < |s| ==> IsDigit(s[k]) }

  function Digit(c: char): (d: nat)
    requires IsDigit(c)
    ensures d < 10
  {
    c as nat - '0' as nat
  }

  // ----- decimal numerals -----

  function Value(s: string): nat
    requires AllDigits(s)
  {
    if s == "" then 0 else 10 * Value(s[..|s| - 1]) + Digit(s[|s| - 1])
  }

  function Pow10(n: nat): (p: nat)
    ensures p > 0
  {
    if n == 0 then 1 else 10 * Pow10(n - 1)
  }

  function Decimal(n: nat): (s: string)
    ensures s != "" && AllDigits(s)
  {
    if n < 10 then [('0' as nat + n) as char] else Decimal(n / 10) + [('0' as nat + n % 10) as char]
  }

  lemma {:induction false} DecimalValue(n: nat)
    ensures Value(Decimal(n)) == n
  {
    var s := Decimal(n);
    if n >= 10 {
      DecimalValue(n / 10);
      assert s[..|s| - 1] == Decimal(n / 10);
    }
  }

  /** The number of digits of `n` is the number of digits of the bounds around it. */
  lemma {:induction false} DecimalLength(n: nat, k: nat)
    requires k > 0
    ensures |Decimal(n)| <= k <==> n < Pow10(k)
  {
    if n >= 10 {
      if k > 1 { DecimalLength(n / 10, k - 1); }
    } else {
      assert Pow10(k) == 10 * Pow10(k - 1);
    }
  }

  lemma TenTimes(x: nat, y: nat)
    ensures 10 * (x * y) == x * (10 * y)
  {
  }

  lemma {:induction false} ValueFront(c: char, s: string)
    requires IsDigit(c) && AllDigits(s)
    ensures AllDigits([c] + s)
    ensures Value([c] + s) == Digit(c) * Pow10(|s|) + Value(s)
  {
    var t := [c] + s;
    if s == "" {
      assert t[..|t| - 1] == "";
    } else {
      assert t[..|t| - 1] == [c] + s[..|s| - 1];
      ValueFront(c, s[..|s| - 1]);
      TenTimes(Digit(c), Pow10(|s| - 1));
    }
  }

  lemma {:induction false} ValueBound(s: string)
    requires AllDigits(s)
    ensures Value(s) < Pow10(|s|)
  {
    if s != "" { ValueBound(s[..|s| - 1]); }
  }

  // ----- ordinal comparison -----

  function Sign(n: int): int { if n < 0 then -1 else if n > 0 then 1 else 0 }

  /** -1, 0 or 1: character codes decide, and a proper prefix comes first. */
  function Compare(a: string, b: string): int {
    if a == "" || b == "" then Sign(|a| - |b|)
    else if a[0] != b[0] then Sign(a[0] as int - b[0] as int)
    else Compare(a[1..], b[1..])
  }

  lemma {:induction false} CompareConcat(p: string, q: string, u: string, v: string)
    requires |p| == |q|
    ensures Compare(p + u, q + v) == if p == q then Compare(u, v) else Compare(p, q)
    ensures p != q ==> Compare(p, q) != 0
  {
    if p == "" {
      assert p + u == u && q + v == v;
    } else {
      assert (p + u)[1..] == p[1..] + u && (q + v)[1..] == q[1..] + v;
      CompareConcat(p[1..], q[1..], u, v);
      assert p == [p[0]] + p[1..] && q == [q[0]] + q[1..];
    }
  }

  lemma {:induction false} CompareSwap(a: string, b: string)
    ensures Compare(a, b) == -Compare(b, a)
    ensures Compare(a, b) == 0 <==> a == b
  {
    if a != "" && b != "" && a[0] == b[0] {
      CompareSwap(a[1..], b[1..]);
      assert a == [a[0]] + a[1..] && b == [b[0]] + b[1..];
    }
  }

  lemma {:induction false} CompareTransitive(a: string, b: string, c: string)
    requires Compare(a, b) <= 0 && Compare(b, c) <= 0
    ensures Compare(a, c) <= 0
  {
    if a != "" && b != "" && c != "" && a[0] == b[0] == c[0] {
      CompareTransitive(a[1..], b[1..], c[1..]);
    }
  }

  /** Numerals of equal length are ordered by value. */
  lemma {:induction false} CompareNumerals(p: string, q: string)
    requires |p| == |q| && AllDigits(p) && AllDigits(q)
    ensures Compare(p, q) == Sign(Value(p) - Value(q))
  {
    if p != "" {
      var u, v := p[1..], q[1..];
      assert p == [p[0]] + u && q == [q[0]] + v;
      ValueFront(p[0], u);
      ValueFront(q[0], v);
      if p[0] == q[0] {
        CompareNumerals(u, v);
      } else {
        ValueBound(u);
        ValueBound(v);
        LeadingDigit(Digit(p[0]), Digit(q[0]), Pow10(|u|), Value(u), Value(v));
      }
    }
  }

  lemma LeadingDigit(d: nat, e: nat, power: nat, u: nat, v: nat)
    requires d != e && u < power && v < power
    ensures Sign(d * power + u - (e * power + v)) == Sign(d - e)
  {
    if d < e { SmallerDigit(d, e, power); } else { SmallerDigit(e, d, power); }
  }

  lemma SmallerDigit(d: nat, e: nat, power: nat)
    requires d < e
    ensures d * power + power <= e * power
  {
    var k := e - d - 1;
    assert k * power >= 0;
    assert e * power == (d + 1 + k) * power == d * power + power + k * power;
  }

  // ----- padding -----

  function ZeroDigits(n: nat): (s: string)
    ensures |s| == n && AllDigits(s)
  {
    if n == 0 then "" else "0" + ZeroDigits(n - 1)
  }

  function PadLeft(s: string): string {
    if |s| < PAD_WIDTH then ZeroDigits(PAD_WIDTH - |s|) + s else s
  }

  lemma {:induction false} ZerosKeepValue(n: nat, s: string)
    requires AllDigits(s)
    ensures AllDigits(ZeroDigits(n) + s) && Value(ZeroDigits(n) + s) == Value(s)
  {
    if n == 0 {
      assert ZeroDigits(n) + s == s;
    } else {
      ZerosKeepValue(n - 1, s);
      var t := ZeroDigits(n - 1) + s;
      assert ZeroDigits(n) + s == ['0'] + t;
      ValueFront('0', t);
    }
  }

  lemma PadLeftValue(s: string)
    requires AllDigits(s)
    ensures AllDigits(PadLeft(s)) && Value(PadLeft(s)) == Value(s)
  {
    if |s| < PAD_WIDTH { ZerosKeepValue(PAD_WIDTH - |s|, s); }
  }

  // ----- names as tokens: single symbols and maximal digit runs -----

  type Numeral = s: string | AllDigits(s) witness ""

  datatype Token = Sym(c: char) | Num(digits: Numeral)

  /** The length of the digit run at the front. */
  function DigitRun(s: string): (n: nat)
    ensures n <= |s| && AllDigits(s[..n])
    ensures n < |s| ==> !IsDigit(s[n])
    ensures n == 0 <==> s == "" || !IsDigit(s[0])
  {
    if s != "" && IsDigit(s[0]) then
      var n := 1 + DigitRun(s[1..]);
      assert s[..n] == [s[0]] + s[1..][..n - 1];
      n
    else 0
  }

  function Tokens(s: string): seq<Token> {
    if s == "" then []
    else
      var n := DigitRun(s);
      if n > 0 then [Num(s[..n])] + Tokens(s[n..]) else [Sym(s[0])] + Tokens(s[1..])
  }

  function PadToken(t: Token): string {
    match t
    case Sym(c) => [c]
    case Num(digits) => PadLeft(digits)
  }

  function PadTokens(ts: seq<Token>): string {
    if ts == [] then "" else PadToken(ts[0]) + PadTokens(ts[1..])
  }

  /** Every maximal digit run left-padded. */
  function Pad(s: string): string { PadTokens(Tokens(s)) }

  /** The same symbols in the same places, with numbers in the same gaps. */
  predicate SameSkeleton(a: seq<Token>, b: seq<Token>) {
    |a| == |b| && forall i :: 0 <= i < |a| ==> a[i] == b[i] || (a[i].Num? && b[i].Num?)
  }

  predicate RunsAtMost(ts: seq<Token>, k: nat) {
    forall i :: 0 <= i < |ts| && ts[i].Num? ==> |ts[i].digits| <= k
  }

  function Numbers(ts: seq<Token>): seq<nat> {
    if ts == [] then []
    else if ts[0].Num? then [Value(ts[0].digits)] + Numbers(ts[1..])
    else Numbers(ts[1..])
  }

  /** Lexicographic comparison of number tuples. */
  function CompareTuples(a: seq<nat>, b: seq<nat>): int {
    if a == [] || b == [] then Sign(|a| - |b|)
    else if a[0] != b[0] then Sign(a[0] as int - b[0])
    else CompareTuples(a[1..], b[1..])
  }

  lemma {:induction false} TokenOrdering(a: seq<Token>, b: seq<Token>)
    requires SameSkeleton(a, b) && RunsAtMost(a, PAD_WIDTH) && RunsAtMost(b, PAD_WIDTH)
    ensures Compare(PadTokens(a), PadTokens(b)) == CompareTuples(Numbers(a), Numbers(b))
  {
    if a != [] {
      TailShape(a, b);
      TokenOrdering(a[1..], b[1..]);
      if a[0].Num? { NumberTokenFirst(a, b); } else { SymbolFirst(a, b); }
    }
  }

  lemma TailShape(a: seq<Token>, b: seq<Token>)
    requires SameSkeleton(a, b) && RunsAtMost(a, PAD_WIDTH) && RunsAtMost(b, PAD_WIDTH) && a != []
    ensures SameSkeleton(a[1..], b[1..]) && RunsAtMost(a[1..], PAD_WIDTH) && RunsAtMost(b[1..], PAD_WIDTH)
    ensures a[0].Num? <==> b[0].Num?
    ensures !a[0].Num? ==> a[0] == b[0]
    ensures a[0].Num? ==> |a[0].digits| <= PAD_WIDTH && |b[0].digits| <= PAD_WIDTH
  {
  }

  lemma NumberTokenFirst(a: seq<Token>, b: seq<Token>)
    requires a != [] && b != [] && a[0].Num? && b[0].Num? && |a[0].digits| <= PAD_WIDTH && |b[0].digits| <= PAD_WIDTH
    requires Compare(PadTokens(a[1..]), PadTokens(b[1..])) == CompareTuples(Numbers(a[1..]), Numbers(b[1..]))
    ensures Compare(PadTokens(a), PadTokens(b)) == CompareTuples(Numbers(a), Numbers(b))
  {
    var x, y := a[0].digits, b[0].digits;
    NumberHead(a);
    NumberHead(b);
    NumeralOrdering(x, y);
    NumberFirst(PadLeft(x), PadLeft(y), PadTokens(a[1..]), PadTokens(b[1..]),
                Value(x), Value(y), Numbers(a[1..]), Numbers(b[1..]));
  }

  lemma NumberHead(a: seq<Token>)
    requires a != [] && a[0].Num?
    ensures PadTokens(a) == PadLeft(a[0].digits) + PadTokens(a[1..])
    ensures Numbers(a) == [Value(a[0].digits)] + Numbers(a[1..])
  {
  }

  lemma SymbolFirst(a: seq<Token>, b: seq<Token>)
    requires a != [] && b != [] && a[0] == b[0] && a[0].Sym?
    ensures Compare(PadTokens(a), PadTokens(b)) == Compare(PadTokens(a[1..]), PadTokens(b[1..]))
    ensures Numbers(a) == Numbers(a[1..]) && Numbers(b) == Numbers(b[1..])
  {
    CompareConcat([a[0].c], [b[0].c], PadTokens(a[1..]), PadTokens(b[1..]));
  }

  lemma NumberFirst(p: string, q: string, u: string, v: string, x: nat, y: nat, m: seq<nat>, n: seq<nat>)
    requires |p| == |q| && Compare(p, q) == Sign(x - y) && (p == q <==> x == y)
    requires Compare(u, v) == CompareTuples(m, n)
    ensures Compare(p + u, q + v) == CompareTuples([x] + m, [y] + n)
  {
    CompareConcat(p, q, u, v);
  }

  lemma NumeralOrdering(a: Numeral, b: Numeral)
    requires |a| <= PAD_WIDTH && |b| <= PAD_WIDTH
    ensures |PadLeft(a)| == |PadLeft(b)|
    ensures Compare(PadLeft(a), PadLeft(b)) == Sign(Value(a) - Value(b))
    ensures PadLeft(a) == PadLeft(b) <==> Value(a) == Value(b)
  {
    PadLeftValue(a);
    PadLeftValue(b);
    CompareNumerals(PadLeft(a), PadLeft(b));
    CompareSwap(PadLeft(a), PadLeft(b));
  }

  /** Names that differ only in their numbers, each of at most nine digits, are ordered as their
      number tuples. */
  lemma NaturalOrdering(a: string, b: string)
    requires SameSkeleton(Tokens(a), Tokens(b))
    requires RunsAtMost(Tokens(a), PAD_WIDTH) && RunsAtMost(Tokens(b), PAD_WIDTH)
    ensures Compare(Pad(a), Pad(b)) == CompareTuples(Numbers(Tokens(a)), Numbers(Tokens(b)))
  {
    TokenOrdering(Tokens(a), Tokens(b));
  }

  // ----- the bound of nine digits is exact -----

  const BILLION: nat := 1_000_000_000

  lemma BillionIsPow10()
    ensures 10 * Pow10(PAD_WIDTH - 1) == Pow10(PAD_WIDTH) == BILLION
    ensures Pow10(PAD_WIDTH + 1) == 10 * BILLION
  {
    assert Pow10(3) == 1000;
    assert Pow10(6) == 1000_000;
  }

  /** A number of at most nine digits against one of ten: the shorter is placed first exactly when
      it does not exceed the longer with its last digit dropped, whatever the two are worth. */
  lemma MixedLengths(k: nat, t: nat)
    requires k < BILLION <= t < 10 * BILLION
    ensures Compare(PadLeft(Decimal(k)), PadLeft(Decimal(t))) == if k <= t / 10 then -1 else 1
  {
    var p := PadLeft(Decimal(k));
    NineDigits(k);
    var q, d := LongDecimal(t);
    NineAgainstMore(p, q, d);
  }

  /** Nine digits against nine digits and one more. */
  lemma NineAgainstMore(p: string, q: string, d: char)
    requires |p| == |q| && AllDigits(p) && AllDigits(q)
    ensures Compare(p, q + [d]) == if Value(p) <= Value(q) then -1 else 1
  {
    CompareNumerals(p, q);
    assert p + "" == p;
    CompareConcat(p, q, "", [d]);
  }

  lemma TenDigits(k: nat)
    requires BILLION <= k < 10 * BILLION
    ensures var p := PadLeft(Decimal(k)); |p| == PAD_WIDTH + 1 && AllDigits(p) && Value(p) == k
  {
    BillionIsPow10();
    DecimalLength(k, PAD_WIDTH);
    DecimalLength(k, PAD_WIDTH + 1);
    DecimalValue(k);
  }

  /** A number of ten digits is not padded: nine digits and one more. */
  lemma LongDecimal(t: nat) returns (q: string, d: char)
    requires BILLION <= t < 10 * BILLION
    ensures |q| == PAD_WIDTH && AllDigits(q) && Value(q) == t / 10 && IsDigit(d) && PadLeft(Decimal(t)) == q + [d]
  {
    BillionIsPow10();
    q, d := Decimal(t / 10), ('0' as nat + t % 10) as char;
    DecimalLength(t / 10, PAD_WIDTH);
    DecimalLength(t / 10, PAD_WIDTH - 1);
    DecimalValue(t / 10);
  }

  lemma NineDigits(k: nat)
    requires k < BILLION
    ensures var p := PadLeft(Decimal(k)); |p| == PAD_WIDTH && AllDigits(p) && Value(p) == k
  {
    BillionIsPow10();
    DecimalLength(k, PAD_WIDTH);
    DecimalValue(k);
    PadLeftValue(Decimal(k));
  }

  ghost predicate AgreesUpTo(k: nat) {
    forall a: string, b: string ::
      SameSkeleton(Tokens(a), Tokens(b)) && RunsAtMost(Tokens(a), k) && RunsAtMost(Tokens(b), k) ==>
        Compare(Pad(a), Pad(b)) == CompareTuples(Numbers(Tokens(a)), Numbers(Tokens(b)))
  }

  /** Padding to nine places gives the natural order for all names with runs of at most `k` digits
      exactly when `k` is at most nine: 1000000000 is placed before 999999999. */
  lemma BoundIsExact(k: nat)
    ensures AgreesUpTo(k) <==> k <= PAD_WIDTH
  {
    if k <= PAD_WIDTH {
      forall a: string, b: string |
        SameSkeleton(Tokens(a), Tokens(b)) && RunsAtMost(Tokens(a), k) && RunsAtMost(Tokens(b), k)
        ensures Compare(Pad(a), Pad(b)) == CompareTuples(Numbers(Tokens(a)), Numbers(Tokens(b)))
      {
        NaturalOrdering(a, b);
      }
    } else {
      BillionMisplaced(k);
    }
  }

  lemma BillionMisplaced(k: nat)
    requires k > PAD_WIDTH
    ensures !AgreesUpTo(k)
  {
    var a, b := Decimal(BILLION - 1), Decimal(BILLION);
    MixedLengths(BILLION - 1, BILLION);
    NumeralTokens(a);
    NumeralTokens(b);
    DecimalValue(BILLION - 1);
    DecimalValue(BILLION);
    BillionIsPow10();
    DecimalLength(BILLION - 1, PAD_WIDTH);
    DecimalLength(BILLION, PAD_WIDTH + 1);
    assert Compare(Pad(a), Pad(b)) != CompareTuples(Numbers(Tokens(a)), Numbers(Tokens(b)));
  }

  // ----- names put together from parts -----

  lemma NumeralTokens(s: string)
    requires AllDigits(s) && s != ""
    ensures Tokens(s) == [Num(s)] && Pad(s) == PadLeft(s) && Numbers(Tokens(s)) == [Value(s)]
  {
    var n := DigitRun(s);
    assert n == |s| && s[..n] == s && s[n..] == "";
    assert PadTokens([Num(s)]) == PadLeft(s) + PadTokens([]);
  }

  /** A non-digit character separates a name into independent parts. */
  lemma {:induction false} SplitAtSymbol(u: string, c: char, v: string)
    requires !IsDigit(c)
    ensures Tokens(u + [c] + v) == Tokens(u) + [Sym(c)] + Tokens(v)
  {
    var s := u + [c] + v;
    if u == "" {
      assert s[1..] == v;
    } else {
      RunOfPrefix(u, c, v);
      var n := DigitRun(u);
      if n > 0 {
        SplitAtSymbol(u[n..], c, v);
        SplitAfterRun(u, c, v, n);
      } else {
        SplitAtSymbol(u[1..], c, v);
        SplitAfterSymbol(u, c, v);
      }
    }
  }

  lemma SplitAfterRun(u: string, c: char, v: string, n: nat)
    requires 0 < n == DigitRun(u) == DigitRun(u + [c] + v)
    requires Tokens(u[n..] + [c] + v) == Tokens(u[n..]) + [Sym(c)] + Tokens(v)
    ensures Tokens(u + [c] + v) == Tokens(u) + [Sym(c)] + Tokens(v)
  {
    var s := u + [c] + v;
    assert s[n..] == u[n..] + [c] + v && s[..n] == u[..n];
    Regroup(Num(u[..n]), Tokens(u[n..]), Sym(c), Tokens(v));
  }

  lemma SplitAfterSymbol(u: string, c: char, v: string)
    requires u != "" && DigitRun(u) == DigitRun(u + [c] + v) == 0
    requires Tokens(u[1..] + [c] + v) == Tokens(u[1..]) + [Sym(c)] + Tokens(v)
    ensures Tokens(u + [c] + v) == Tokens(u) + [Sym(c)] + Tokens(v)
  {
    var s := u + [c] + v;
    assert s[1..] == u[1..] + [c] + v;
    Regroup(Sym(u[0]), Tokens(u[1..]), Sym(c), Tokens(v));
  }

  lemma Regroup(t: Token, a: seq<Token>, c: Token, b: seq<Token>)
    ensures [t] + (a + [c] + b) == [t] + a + [c] + b
  {
  }

  lemma {:induction false} RunOfPrefix(u: string, c: char, v: string)
    requires !IsDigit(c)
    ensures DigitRun(u + [c] + v) == DigitRun(u)
  {
    if u != "" && IsDigit(u[0]) {
      assert (u + [c] + v)[1..] == u[1..] + [c] + v;
      RunOfPrefix(u[1..], c, v);
    }
  }

  lemma {:induction false} PadTokensConcat(a: seq<Token>, b: seq<Token>)
    ensures PadTokens(a + b) == PadTokens(a) + PadTokens(b)
  {
    if a == [] {
      assert a + b == b;
    } else {
      assert (a + b)[1..] == a[1..] + b;
      PadTokensConcat(a[1..], b);
    }
  }

  lemma {:induction false} NumbersConcat(a: seq<Token>, b: seq<Token>)
    ensures Numbers(a + b) == Numbers(a) + Numbers(b)
  {
    if a == [] {
      assert a + b == b;
    } else {
      assert (a + b)[1..] == a[1..] + b;
      NumbersConcat(a[1..], b);
    }
  }

  // ----- OrderBy(padded).Last() -----

  /** The index of the last element of the stable ascending order of `keys`. */
  function LastIndex(keys: seq<string>): (i: nat)
    requires keys != []
    ensures i < |keys|
  {
    var n := |keys| - 1;
    if n == 0 then 0
    else
      var i := LastIndex(keys[..n]);
      if Compare(keys[n], keys[i]) >= 0 then n else i
  }

  lemma {:induction false} LastIsGreatest(keys: seq<string>, j: nat)
    requires j < |keys|
    ensures Compare(keys[j], keys[LastIndex(keys)]) <= 0
  {
    var n := |keys| - 1;
    if n == 0 {
      CompareSwap(keys[j], keys[j]);
    } else {
      var i := LastIndex(keys[..n]);
      CompareSwap(keys[n], keys[i]);
      if j < n {
        LastIsGreatest(keys[..n], j);
        if Compare(keys[n], keys[i]) >= 0 {
          CompareTransitive(keys[j], keys[i], keys[n]);
        }
      } else {
        CompareSwap(keys[n], keys[n]);
      }
    }
  }

  function PadAll(names: seq<string>): (r: seq<string>)
    ensures |r| == |names| && forall i :: 0 <= i < |names| ==> r[i] == Pad(names[i])
  {
    if names == [] then [] else [Pad(names[0])] + PadAll(names[1..])
  }

  function LastByPadded(names: seq<string>): (r: string)
    requires names != []
    ensures r in names
  {
    names[LastIndex(PadAll(names))]
  }

  lemma LastByPaddedIsGreatest(names: seq<string>, x: string)
    requires x in names
    ensures Compare(Pad(x), Pad(LastByPadded(names))) <= 0
  {
    var j :| 0 <= j < |names| && names[j] == x;
    LastIsGreatest(PadAll(names), j);
  }

  // ----- int.Parse on unsigned numerals -----

  const INT32_LIMIT: nat := 0x8000_0000

  function ParseInt32(s: string): Option<nat> {
    if s != "" && AllDigits(s) && Value(s) < INT32_LIMIT then Some(Value(s)) else None
  }
}
