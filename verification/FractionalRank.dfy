/**
 * Fractional rank keys (src/core/fractional-rank.ts): base-62 digit strings
 * that leave room between any two neighbours, ordered by plain string
 * comparison.
 */
module FractionalRank {
  import opened Wrappers

  const BASE := 62
  const ZERO := '0'

  // ------------------------------------------------------------------ digits

  /** Digit value of a character, or -1; digits are in ASCII order. */
  function DigitOf(c: char): int {
    if '0' <= c <= '9' then c as int - '0' as int
    else if 'A' <= c <= 'Z' then c as int - 'A' as int + 10
    else if 'a' <= c <= 'z' then c as int - 'a' as int + 36
    else -1
  }

  function DigitChar(d: int): char
    requires 0 <= d < BASE
  {
    if d < 10 then '0' + d as char
    else if d < 36 then 'A' + (d - 10) as char
    else 'a' + (d - 36) as char
  }

  lemma DigitRoundTrip(d: int)
    requires 0 <= d < BASE
    ensures DigitOf(DigitChar(d)) == d
  {
  }

  /** Digit order is character order. */
  lemma DigitOrder(a: char, b: char)
    requires DigitOf(a) >= 0 && DigitOf(b) >= 0
    ensures a < b <==> DigitOf(a) < DigitOf(b)
    ensures DigitChar(DigitOf(a)) == a
  {
  }

  predicate Digits(s: string) {
    forall i :: 0 <= i < |s| ==> DigitOf(s[i]) >= 0
  }

  /** No trailing zero digit, which would alias a shorter key. */
  predicate Trimmed(s: string) {
    s != "" ==> s[|s| - 1] != ZERO
  }

  predicate IsValidRank(s: string) {
    s != "" && Digits(s) && Trimmed(s)
  }

  // ------------------------------------------------------------- string order

  /** String comparison, character by character. */
  predicate Less(a: string, b: string) {
    b != "" && (a == "" || a[0] < b[0] || (a[0] == b[0] && Less(a[1..], b[1..])))
  }

  lemma {:induction false} LessIrreflexive(a: string)
    ensures !Less(a, a)
  {
    if a != "" { LessIrreflexive(a[1..]); }
  }

  lemma {:induction false} LessTransitive(a: string, b: string, c: string)
    requires Less(a, b) && Less(b, c)
    ensures Less(a, c)
  {
    if a != "" && a[0] == b[0] == c[0] { LessTransitive(a[1..], b[1..], c[1..]); }
  }

  lemma {:induction false} LessTotal(a: string, b: string)
    ensures Less(a, b) || a == b || Less(b, a)
  {
    if a != "" && b != "" && a[0] == b[0] {
      LessTotal(a[1..], b[1..]);
      assert a == [a[0]] + a[1..] && b == [b[0]] + b[1..];
    }
  }

  /** A common prefix of length p, after which a ends or has the smaller character. */
  lemma {:induction false} LessAt(a: string, b: string, p: nat)
    requires p <= |a| && p < |b| && a[..p] == b[..p] && (p == |a| || a[p] < b[p])
    ensures Less(a, b)
  {
    if p > 0 {
      assert a[0] == a[..p][0] == b[..p][0] == b[0];
      assert a[1..][..p - 1] == a[..p][1..] == b[..p][1..] == b[1..][..p - 1];
      LessAt(a[1..], b[1..], p - 1);
    }
  }

  // ---------------------------------------------------------- fraction order

  /** The fraction 0.s in base 62. */
  function Fraction(s: string): real
    requires Digits(s)
  {
    if s == "" then 0.0 else (DigitOf(s[0]) as real + Fraction(s[1..])) / 62.0
  }

  lemma {:induction false} FractionBounds(s: string)
    requires Digits(s)
    ensures 0.0 <= Fraction(s) < 1.0
    ensures Trimmed(s) && s != "" ==> Fraction(s) > 0.0
  {
    if s != "" {
      FractionBounds(s[1..]);
      if |s| == 1 { assert s[1..] == ""; }
    }
  }

  /** For keys without trailing zeros, comparing strings is comparing fractions. */
  lemma {:induction false} StringOrderIsFractionOrder(a: string, b: string)
    requires Digits(a) && Digits(b) && Trimmed(a) && Trimmed(b)
    ensures Less(a, b) <==> Fraction(a) < Fraction(b)
  {
    FractionBounds(a);
    FractionBounds(b);
    if a != "" && b != "" {
      FractionBounds(a[1..]);
      FractionBounds(b[1..]);
      DigitOrder(a[0], b[0]);
      DigitOrder(b[0], a[0]);
      if a[0] == b[0] {
        StringOrderIsFractionOrder(a[1..], b[1..]);
      }
    }
  }

  // ------------------------------------------------------------------ midpoint

  /** A key's digit at a position; past its end a key reads as zeros. */
  function Pad(a: string, i: nat): char {
    if i < |a| then a[i] else ZERO
  }

  ghost predicate FollowsPadded(prefix: string, a: string) {
    forall i :: 0 <= i < |prefix| ==> prefix[i] == Pad(a, i)
  }

  /** Anything that copies a's padded digits and then exceeds the next one is above a. */
  lemma AbovePadded(a: string, prefix: string, c: char)
    requires FollowsPadded(prefix, a) && Pad(a, |prefix|) < c
    ensures Less(a, prefix + [c])
  {
    var p := if |prefix| < |a| then |prefix| else |a|;
    assert a[..p] == (prefix + [c])[..p];
    LessAt(a, prefix + [c], p);
  }

  /** While a's padded digits agree with b, b has not ended and the first difference is in b's favour. */
  lemma {:induction false} PaddedDifference(a: string, b: string, p: nat)
    requires Less(a, b) && Digits(b) && Trimmed(b) && p <= |b|
    requires forall i :: 0 <= i < p ==> Pad(a, i) == b[i]
    ensures p < |b|
    ensures Pad(a, p) != b[p] ==> Pad(a, p) < b[p]
  {
    if a != "" && p > 0 {
      assert forall i :: 0 <= i < p - 1 ==> Pad(a[1..], i) == Pad(a, i + 1) == b[i + 1] == b[1..][i];
      PaddedDifference(a[1..], b[1..], p - 1);
    }
  }

  /** What is known of the upper bound once the search has left it behind. */
  ghost predicate BelowForever(prefix: string, b: Option<string>) {
    b.Some? ==> exists p :: 0 <= p < |prefix| && p < |b.value| && prefix[..p] == b.value[..p] && prefix[p] < b.value[p]
  }

  lemma StaysBelow(prefix: string, b: Option<string>, c: char)
    requires BelowForever(prefix, b)
    ensures BelowForever(prefix + [c], b)
    ensures b.Some? ==> Less(prefix + [c], b.value)
  {
    if b.Some? {
      var p :| 0 <= p < |prefix| && p < |b.value| && prefix[..p] == b.value[..p] && prefix[p] < b.value[p];
      assert (prefix + [c])[..p] == prefix[..p];
      LessAt(prefix + [c], b.value, p);
    }
  }

  function MaxLength(a: string, b: Option<string>): nat {
    if b.Some? && |b.value| > |a| then |b.value| else |a|
  }

  /** The digit halfway between two digits at least two apart; halves round up. */
  function MiddleDigit(digitA: int, digitB: int): (d: int)
    requires 0 <= digitA && digitB <= BASE && digitB - digitA > 1
    ensures digitA < d < digitB
  {
    (digitA + digitB + 1) / 2
  }

  /** A key that ends by exceeding a's padded digit is a valid rank above a. */
  lemma ValidAbove(a: string, prefix: string, d: int)
    requires Digits(a) && Digits(prefix) && FollowsPadded(prefix, a)
    requires DigitOf(Pad(a, |prefix|)) < d < BASE
    ensures IsValidRank(prefix + [DigitChar(d)]) && Less(a, prefix + [DigitChar(d)])
  {
    DigitRoundTrip(d);
    DigitOrder(Pad(a, |prefix|), DigitChar(d));
    AbovePadded(a, prefix, DigitChar(d));
  }

  /** The first position where b's digit differs from a's padded one: the shared run is copied. */
  method SharedRun(a: string, b: string) returns (bi: nat)
    requires Less(a, b) && Digits(b) && Trimmed(b)
    ensures bi < |b| && FollowsPadded(b[..bi], a) && Pad(a, bi) < b[bi]
  {
    bi := 0;
    while bi < |b| && Pad(a, bi) == b[bi]
      invariant 0 <= bi <= |b| && forall i :: 0 <= i < bi ==> Pad(a, i) == b[i]
    {
      bi := bi + 1;
    }
    PaddedDifference(a, b, bi);
  }

  /** Keeping the digit of a where b has a larger one puts whatever follows below b. */
  lemma KeepLowerDigit(a: string, b: string, prefix: string, bi: nat)
    requires bi < |b| && prefix == b[..bi] && Digits(a) && Digits(b)
    requires Pad(a, bi) < b[bi]
    ensures BelowForever(prefix + [Pad(a, bi)], Some(b))
  {
    var next := prefix + [Pad(a, bi)];
    assert next[..bi] == b[..bi] && next[bi] < b[bi];
  }

  /** A smaller digit in place of b's next one stays below b. */
  lemma BetweenUpper(prefix: string, b: string, d: int)
    requires 0 <= d < BASE && |prefix| < |b| && prefix == b[..|prefix|] && d < DigitOf(b[|prefix|])
    ensures Less(prefix + [DigitChar(d)], b)
  {
    DigitRoundTrip(d);
    DigitOrder(DigitChar(d), b[|prefix|]);
    assert (prefix + [DigitChar(d)])[..|prefix|] == b[..|prefix|];
    LessAt(prefix + [DigitChar(d)], b, |prefix|);
  }

  /**
   * The rounds after the upper bound has been left behind: keep a's largest
   * digits and exceed the first smaller one. Each round consumes a digit of a.
   */
  method ClimbAbove(a: string, start: string, ghost b: Option<string>) returns (r: string)
    requires Digits(a) && Digits(start) && FollowsPadded(start, a) && BelowForever(start, b)
    ensures Between(Some(a), b, r)
    ensures |r| <= (if |start| > |a| then |start| else |a|) + 1
    ensures a == start == "" ==> r == FirstRank()
  {
    var prefix := start;
    while DigitOf(Pad(a, |prefix|)) + 1 >= BASE
      invariant |start| <= |prefix| && (prefix == start || |prefix| <= |a|)
      invariant Digits(prefix) && FollowsPadded(prefix, a) && BelowForever(prefix, b)
      decreases |a| - |prefix|
    {
      StaysBelow(prefix, b, Pad(a, |prefix|));
      prefix := prefix + [Pad(a, |prefix|)];
    }
    var mid := MiddleDigit(DigitOf(Pad(a, |prefix|)), BASE);
    ValidAbove(a, prefix, mid);
    StaysBelow(prefix, b, DigitChar(mid));
    r := prefix + [DigitChar(mid)];
  }

  /** The first round, against an upper bound: the key found, or the prefix the climb starts from. */
  method FirstRound(a: string, b: string) returns (done: bool, r: string)
    requires Digits(a) && Digits(b) && Trimmed(b) && Less(a, b)
    ensures done ==> Between(Some(a), Some(b), r)
    ensures !done ==> Digits(r) && FollowsPadded(r, a) && BelowForever(r, Some(b))
    ensures |r| <= |b|
  {
    var bi := SharedRun(a, b);
    var prefix := b[..bi];
    var digitA, digitB := DigitOf(Pad(a, bi)), DigitOf(b[bi]);
    DigitOrder(Pad(a, bi), b[bi]);
    DigitOrder(b[bi], b[bi]);
    if digitB - digitA > 1 {
      var mid := MiddleDigit(digitA, digitB);
      ValidAbove(a, prefix, mid);
      BetweenUpper(prefix, b, mid);
      return true, prefix + [DigitChar(mid)];
    }
    if bi + 1 < |b| {
      ValidAbove(a, prefix, digitB);
      LessAt(prefix + [b[bi]], b, bi + 1);
      return true, prefix + [b[bi]];
    }
    KeepLowerDigit(a, b, prefix, bi);
    return false, prefix + [Pad(a, bi)];
  }

  /**
   * A key strictly between 0.a and 0.b, at most one digit longer than the
   * longer bound; None where the bounds are out of order.
   */
  method Midpoint(a: string, b: Option<string>) returns (r: Option<string>)
    requires Digits(a) && Trimmed(a) && (b.Some? ==> Digits(b.value) && Trimmed(b.value))
    ensures r.Some? <==> (b.Some? ==> Less(a, b.value))
    ensures r.Some? ==> Between(Some(a), b, r.value) && |r.value| <= MaxLength(a, b) + 1
    ensures a == "" && b.None? ==> r == Some(FirstRank())
  {
    var prefix := "";
    if b.Some? {
      if !Less(a, b.value) {
        return None;
      }
      var done;
      done, prefix := FirstRound(a, b.value);
      if done {
        return Some(prefix);
      }
    }
    var key := ClimbAbove(a, prefix, b);
    return Some(key);
  }

  // ------------------------------------------------------------- public operations

  const HALF := 31

  /** A key after a: bump the last digit, or append an interior digit when it is the largest. */
  function RankAfter(a: string): (r: string)
    requires IsValidRank(a)
    ensures IsValidRank(r) && Less(a, r)
  {
    var n := |a| - 1;
    var d := DigitOf(a[n]);
    if d + 1 < BASE then
      DigitRoundTrip(d + 1);
      DigitOrder(a[n], DigitChar(d + 1));
      LessAt(a, a[..n] + [DigitChar(d + 1)], n);
      a[..n] + [DigitChar(d + 1)]
    else
      LessAt(a, a + [DigitChar(HALF)], n + 1);
      a + [DigitChar(HALF)]
  }

  /** A key before b: lower the last digit while it stays positive, else drop to zero and an interior digit. */
  function RankBefore(b: string): (r: string)
    requires IsValidRank(b)
    ensures IsValidRank(r) && Less(r, b)
  {
    var n := |b| - 1;
    var d := DigitOf(b[n]);
    if d - 1 >= 1 then
      DigitRoundTrip(d - 1);
      DigitOrder(DigitChar(d - 1), b[n]);
      LessAt(b[..n] + [DigitChar(d - 1)], b, n);
      b[..n] + [DigitChar(d - 1)]
    else
      DigitOrder(ZERO, b[n]);
      assert (b[..n] + [ZERO, DigitChar(HALF)])[..n] == b[..n];
      LessAt(b[..n] + [ZERO, DigitChar(HALF)], b, n);
      b[..n] + [ZERO, DigitChar(HALF)]
  }

  datatype RankResult = Ok(rank: string) | InvalidLower | InvalidUpper | OutOfOrder

  /** r is a usable key between two optional neighbours. */
  predicate Between(a: Option<string>, b: Option<string>, r: string) {
    IsValidRank(r) && (a.Some? ==> Less(a.value, r)) && (b.Some? ==> Less(r, b.value))
  }

  /** A key between two neighbours, either of which may be absent; it fails only on malformed or misordered neighbours. */
  method RankBetween(a: Option<string>, b: Option<string>) returns (r: RankResult)
    ensures r.InvalidLower? <==> a.Some? && !IsValidRank(a.value)
    ensures r.InvalidUpper? <==> !r.InvalidLower? && b.Some? && !IsValidRank(b.value)
    ensures r.OutOfOrder? <==> !r.InvalidLower? && !r.InvalidUpper? && a.Some? && b.Some? && !Less(a.value, b.value)
    ensures r.Ok? ==> Between(a, b, r.rank)
    ensures r.Ok? && a.None? && b.None? ==> r.rank == FirstRank()
    ensures r.Ok? && a.Some? && b.None? ==> r.rank == RankAfter(a.value)
    ensures r.Ok? && a.None? && b.Some? ==> r.rank == RankBefore(b.value)
    ensures r.Ok? ==> |r.rank| <= MaxLength(if a.Some? then a.value else "", b) + 1
  {
    if a.Some? && !IsValidRank(a.value) {
      return InvalidLower;
    }
    if b.Some? && !IsValidRank(b.value) {
      return InvalidUpper;
    }
    if a.Some? && b.Some? && !Less(a.value, b.value) {
      return OutOfOrder;
    }
    if b.None? {
      if a.None? {
        var first := Midpoint("", None);
        return Ok(first.value);
      }
      return Ok(RankAfter(a.value));
    }
    if a.None? {
      return Ok(RankBefore(b.value));
    }
    var mid := Midpoint(a.value, b);
    return Ok(mid.value);
  }

  // --------------------------------------------------------------- key growth

  /** The first key of an empty order. */
  function FirstRank(): string { [DigitChar(HALF)] }

  function Appended(n: nat): (r: string)
    ensures IsValidRank(r)
  {
    if n == 0 then FirstRank() else RankAfter(Appended(n - 1))
  }

  function Prepended(n: nat): (r: string)
    ensures IsValidRank(r)
  {
    if n == 0 then FirstRank() else RankBefore(Prepended(n - 1))
  }

  function LastDigit(s: string): int
    requires s != ""
  {
    DigitOf(s[|s| - 1])
  }

  lemma AfterStep(a: string)
    requires IsValidRank(a)
    ensures LastDigit(a) < BASE
    ensures |RankAfter(a)| == if LastDigit(a) + 1 < BASE then |a| else |a| + 1
    ensures LastDigit(RankAfter(a)) == if LastDigit(a) + 1 < BASE then LastDigit(a) + 1 else HALF
  {
    if LastDigit(a) + 1 < BASE { DigitRoundTrip(LastDigit(a) + 1); }
    DigitRoundTrip(HALF);
  }

  lemma BeforeStep(b: string)
    requires IsValidRank(b)
    ensures LastDigit(b) >= 1
    ensures |RankBefore(b)| == if LastDigit(b) > 1 then |b| else |b| + 1
    ensures LastDigit(RankBefore(b)) == if LastDigit(b) > 1 then LastDigit(b) - 1 else HALF
  {
    DigitOrder(b[|b| - 1], ZERO);
    if LastDigit(b) > 1 { DigitRoundTrip(LastDigit(b) - 1); }
    DigitRoundTrip(HALF);
  }

  lemma NextInCycle(n: nat)
    requires n > 0
    ensures (n - 1) % 31 == 30 ==> n % 31 == 0 && n / 31 == (n - 1) / 31 + 1
    ensures (n - 1) % 31 < 30 ==> n % 31 == (n - 1) % 31 + 1 && n / 31 == (n - 1) / 31
  {
  }

  /** Counting up in cycles of 31, one digit longer per cycle. */
  lemma NextAppend(n: nat, len: int, last: int, len': int, last': int)
    requires n > 0 && len == 1 + (n - 1) / 31 && last == HALF + (n - 1) % 31
    requires len' == (if last + 1 < BASE then len else len + 1) && last' == if last + 1 < BASE then last + 1 else HALF
    ensures len' == 1 + n / 31 && last' == HALF + n % 31
  {
    NextInCycle(n);
  }

  /** And counting down. */
  lemma NextPrepend(n: nat, len: int, last: int, len': int, last': int)
    requires n > 0 && len == 1 + (n - 1) / 31 && last == HALF - (n - 1) % 31
    requires len' == (if last > 1 then len else len + 1) && last' == if last > 1 then last - 1 else HALF
    ensures len' == 1 + n / 31 && last' == HALF - n % 31
  {
    NextInCycle(n);
  }

  /** n appends from the first key cost exactly one digit per 31: the last digit counts up from the middle. */
  lemma {:induction false} AppendGrowth(n: nat)
    ensures |Appended(n)| == 1 + n / 31
    ensures LastDigit(Appended(n)) == HALF + n % 31
  {
    if n == 0 {
      DigitRoundTrip(HALF);
    } else {
      AppendGrowth(n - 1);
      AppendedStep(n);
      NextAppend(n, |Appended(n - 1)|, LastDigit(Appended(n - 1)), |Appended(n)|, LastDigit(Appended(n)));
    }
  }

  lemma AppendedStep(n: nat)
    requires n > 0
    ensures var a, b := Appended(n - 1), Appended(n);
            && |b| == (if LastDigit(a) + 1 < BASE then |a| else |a| + 1)
            && LastDigit(b) == if LastDigit(a) + 1 < BASE then LastDigit(a) + 1 else HALF
  {
    AfterStep(Appended(n - 1));
  }

  /** The mirror image for prepends: the last digit counts down. */
  lemma {:induction false} PrependGrowth(n: nat)
    ensures |Prepended(n)| == 1 + n / 31
    ensures LastDigit(Prepended(n)) == HALF - n % 31
  {
    if n == 0 {
      DigitRoundTrip(HALF);
    } else {
      PrependGrowth(n - 1);
      PrependedStep(n);
      NextPrepend(n, |Prepended(n - 1)|, LastDigit(Prepended(n - 1)), |Prepended(n)|, LastDigit(Prepended(n)));
    }
  }

  lemma PrependedStep(n: nat)
    requires n > 0
    ensures var a, b := Prepended(n - 1), Prepended(n);
            && |b| == (if LastDigit(a) > 1 then |a| else |a| + 1)
            && LastDigit(b) == if LastDigit(a) > 1 then LastDigit(a) - 1 else HALF
  {
    BeforeStep(Prepended(n - 1));
  }
}
