/**
 * Capability advertisements (src/core/capability-ad.ts): two Bloom filters of
 * atom hashes, carried as hex text, decide whether a node may cover a turn.
 * The digest is a parameter: any function from a round and an atom to a number.
 */
module CapabilityAds {
  import opened Wrappers

  type Digest = (nat, string) -> nat

  datatype Bloom = Bloom(m: nat, k: nat, bits: string)

  // ----------------------------------------------------------------- bits and bytes

  /** Every element is a byte. */
  ghost predicate Octets(bytes: seq<nat>) {
    forall i :: 0 <= i < |bytes| ==> bytes[i] < 256
  }

  /** Bit `j` of a number: what `b & (1 << j)` tests. */
  predicate Bit(b: nat, j: nat)
    decreases j
  {
    if j == 0 then b % 2 == 1 else Bit(b / 2, j - 1)
  }

  /** The number with bit `j` set: `b | (1 << j)`, bit by bit. */
  function WithBit(b: nat, j: nat): nat
    decreases j
  {
    if j == 0 then b / 2 * 2 + 1 else 2 * WithBit(b / 2, j - 1) + b % 2
  }

  lemma {:induction false} WithBitSets(b: nat, i: nat, j: nat)
    ensures Bit(WithBit(b, i), j) <==> i == j || Bit(b, j)
    decreases i
  {
    HalfOfWith(b, i);
    if i > 0 && j > 0 { WithBitSets(b / 2, i - 1, j - 1); }
  }

  lemma {:induction false} ZeroHasNoBits(j: nat)
    ensures !Bit(0, j)
  {
    if j > 0 { ZeroHasNoBits(j - 1); }
  }

  lemma HalfOfWith(b: nat, i: nat)
    ensures WithBit(b, i) / 2 == if i == 0 then b / 2 else WithBit(b / 2, i - 1)
    ensures WithBit(b, i) % 2 == if i == 0 then 1 else b % 2
  {
  }

  /** A power of two bounds a number that a low bit is set in. */
  lemma {:induction false} WithBitBound(b: nat, i: nat, limit: nat)
    requires b < limit && Doubles(limit, i + 1)
    ensures WithBit(b, i) < limit
    decreases i
  {
    if i > 0 { WithBitBound(b / 2, i - 1, limit / 2); }
  }

  /** `n` can be halved `k` times. */
  predicate Doubles(n: nat, k: nat)
    decreases k
  {
    k > 0 ==> n % 2 == 0 && Doubles(n / 2, k - 1)
  }

  lemma ByteStaysByte(b: nat, i: nat)
    requires b < 256 && i < 8
    ensures WithBit(b, i) < 256
  {
    assert Doubles(1, 0) && Doubles(2, 1) && Doubles(4, 2) && Doubles(8, 3) && Doubles(16, 4);
    assert Doubles(32, 5) && Doubles(64, 6) && Doubles(128, 7) && Doubles(256, 8);
    DoublesLess(256, 8, i + 1);
    WithBitBound(b, i, 256);
  }

  lemma {:induction false} DoublesLess(n: nat, k: nat, l: nat)
    requires Doubles(n, k) && l <= k
    ensures Doubles(n, l)
    decreases k
  {
    if l > 0 { DoublesLess(n / 2, k - 1, l - 1); }
  }

  /** A bit beyond the last byte reads as unset. */
  predicate BitAt(bytes: seq<nat>, i: nat) {
    i / 8 < |bytes| && Bit(bytes[i / 8], i % 8)
  }

  function SetBit(bytes: seq<nat>, i: nat): seq<nat>
    requires i / 8 < |bytes|
  {
    bytes[i / 8 := WithBit(bytes[i / 8], i % 8)]
  }

  lemma SamePlace(i: nat, j: nat)
    ensures i == j <==> i / 8 == j / 8 && i % 8 == j % 8
  {
  }

  /** Setting one bit sets that bit and no other. */
  lemma SetBitAt(bytes: seq<nat>, i: nat, j: nat)
    requires i / 8 < |bytes|
    ensures BitAt(SetBit(bytes, i), j) <==> i == j || BitAt(bytes, j)
    ensures Octets(bytes) ==> Octets(SetBit(bytes, i))
  {
    SamePlace(i, j);
    WithBitSets(bytes[i / 8], i % 8, j % 8);
    if Octets(bytes) { ByteStaysByte(bytes[i / 8], i % 8); }
  }

  // ---------------------------------------------------------------------- hex text

  function HexDigit(n: nat): char {
    if n == 0 then '0' else if n == 1 then '1' else if n == 2 then '2' else if n == 3 then '3'
    else if n == 4 then '4' else if n == 5 then '5' else if n == 6 then '6' else if n == 7 then '7'
    else if n == 8 then '8' else if n == 9 then '9' else if n == 10 then 'a' else if n == 11 then 'b'
    else if n == 12 then 'c' else if n == 13 then 'd' else if n == 14 then 'e' else 'f'
  }

  function HexValue(c: char): Option<nat> {
    match c
    case '0' => Some(0) case '1' => Some(1) case '2' => Some(2) case '3' => Some(3)
    case '4' => Some(4) case '5' => Some(5) case '6' => Some(6) case '7' => Some(7)
    case '8' => Some(8) case '9' => Some(9) case 'a' => Some(10) case 'b' => Some(11)
    case 'c' => Some(12) case 'd' => Some(13) case 'e' => Some(14) case 'f' => Some(15)
    case 'A' => Some(10) case 'B' => Some(11) case 'C' => Some(12) case 'D' => Some(13)
    case 'E' => Some(14) case 'F' => Some(15)
    case _ => None
  }

  function ByteToHex(b: nat): string {
    [HexDigit(b / 16), HexDigit(b % 16)]
  }

  /** The byte a pair stands for; a pair that is no number reads as zero. */
  function HexToByte(high: char, low: char): nat {
    var h, l := HexValue(high), HexValue(low);
    if h.None? then 0 else if l.None? then h.value else h.value * 16 + l.value
  }

  function BytesToHex(bytes: seq<nat>): string {
    if bytes == [] then [] else BytesToHex(bytes[..|bytes| - 1]) + ByteToHex(bytes[|bytes| - 1])
  }

  /** A trailing single digit stands for a byte of its own. */
  function HexToBytes(hex: string): seq<nat> {
    seq((|hex| + 1) / 2, i requires 0 <= i < (|hex| + 1) / 2 =>
      HexToByte(hex[2 * i], if 2 * i + 1 < |hex| then hex[2 * i + 1] else ' '))
  }

  lemma HexDigitRoundTrip(n: nat)
    requires n < 16
    ensures HexValue(HexDigit(n)) == Some(n)
  {
  }

  lemma ByteRoundTrip(b: nat)
    requires b < 256
    ensures HexToByte(ByteToHex(b)[0], ByteToHex(b)[1]) == b
  {
    HexDigitRoundTrip(b / 16);
    HexDigitRoundTrip(b % 16);
  }

  lemma {:induction false} BytesToHexAt(bytes: seq<nat>, i: nat)
    requires i < |bytes|
    ensures |BytesToHex(bytes)| == 2 * |bytes|
    ensures BytesToHex(bytes)[2 * i] == ByteToHex(bytes[i])[0] && BytesToHex(bytes)[2 * i + 1] == ByteToHex(bytes[i])[1]
  {
    var init := bytes[..|bytes| - 1];
    if init != [] {
      BytesToHexAt(init, if i < |init| then i else 0);
    }
  }

  /** Bytes survive the trip through hex text. */
  lemma HexRoundTrip(bytes: seq<nat>)
    requires Octets(bytes)
    ensures HexToBytes(BytesToHex(bytes)) == bytes
  {
    var hex := BytesToHex(bytes);
    if bytes != [] { BytesToHexAt(bytes, 0); }
    forall i | 0 <= i < |bytes| ensures HexToBytes(hex)[i] == bytes[i] {
      BytesToHexAt(bytes, i);
      ByteRoundTrip(bytes[i]);
    }
  }

  // ------------------------------------------------------------------------ filters

  function Index(digest: Digest, m: nat, round: nat, atom: string): nat
    requires m > 0
  {
    digest(round, atom) % m
  }

  function Width(m: nat): nat {
    (m + 7) / 8
  }

  function SetRounds(digest: Digest, bytes: seq<nat>, m: nat, k: nat, atom: string): seq<nat>
    requires m > 0 && |bytes| == Width(m)
    ensures |SetRounds(digest, bytes, m, k, atom)| == |bytes|
    decreases k
  {
    if k == 0 then bytes else SetBit(SetRounds(digest, bytes, m, k - 1, atom), Index(digest, m, k - 1, atom))
  }

  function SetAtoms(digest: Digest, m: nat, k: nat, atoms: seq<string>): seq<nat>
    requires m > 0
    ensures |SetAtoms(digest, m, k, atoms)| == Width(m)
  {
    if atoms == [] then seq(Width(m), _ => 0)
    else SetRounds(digest, SetAtoms(digest, m, k, atoms[..|atoms| - 1]), m, k, atoms[|atoms| - 1])
  }

  function BloomOf(digest: Digest, atoms: seq<string>, m: nat, k: nat): Bloom
    requires m > 0
  {
    Bloom(m, k, BytesToHex(SetAtoms(digest, m, k, atoms)))
  }

  /** Build a filter in a byte buffer, bit by bit. */
  method BuildBloom(digest: Digest, atoms: seq<string>, m: nat, k: nat) returns (filter: Bloom)
    requires m > 0
    ensures filter == BloomOf(digest, atoms, m, k)
  {
    var bytes := new nat[Width(m)](_ => 0);
    for a := 0 to |atoms|
      invariant bytes[..] == SetAtoms(digest, m, k, atoms[..a])
    {
      ghost var before := bytes[..];
      for round := 0 to k
        invariant bytes[..] == SetRounds(digest, before, m, round, atoms[a])
      {
        var index := Index(digest, m, round, atoms[a]);
        bytes[index / 8] := WithBit(bytes[index / 8], index % 8);
      }
      assert atoms[..a + 1][..a] == atoms[..a];
    }
    assert atoms[..|atoms|] == atoms;
    filter := Bloom(m, k, BytesToHex(bytes[..]));
  }

  predicate ContainsAll(digest: Digest, f: Bloom, atoms: seq<string>)
    requires f.m > 0
  {
    var bytes := HexToBytes(f.bits);
    forall atom :: atom in atoms ==> forall round: nat :: round < f.k ==> BitAt(bytes, Index(digest, f.m, round, atom))
  }

  /** Some atom of the list sets the bit in some round. */
  ghost predicate Hit(digest: Digest, m: nat, k: nat, atoms: seq<string>, i: nat)
    requires m > 0
  {
    exists atom, round: nat :: atom in atoms && round < k && Index(digest, m, round, atom) == i
  }

  lemma {:induction false} RoundsSet(digest: Digest, bytes: seq<nat>, m: nat, k: nat, atom: string, i: nat)
    requires m > 0 && |bytes| == Width(m)
    ensures BitAt(SetRounds(digest, bytes, m, k, atom), i) <==>
            BitAt(bytes, i) || exists round: nat :: round < k && Index(digest, m, round, atom) == i
    ensures Octets(bytes) ==> Octets(SetRounds(digest, bytes, m, k, atom))
    decreases k
  {
    if k > 0 {
      RoundsSet(digest, bytes, m, k - 1, atom, i);
      SetBitAt(SetRounds(digest, bytes, m, k - 1, atom), Index(digest, m, k - 1, atom), i);
      if Index(digest, m, k - 1, atom) != i && BitAt(SetRounds(digest, bytes, m, k, atom), i) && !BitAt(bytes, i) {
        var round: nat :| round < k - 1 && Index(digest, m, round, atom) == i;
        assert round < k;
      }
    }
  }

  /** A bit of a built filter is set exactly when some atom hits it. */
  lemma {:induction false} AtomsSet(digest: Digest, m: nat, k: nat, atoms: seq<string>, i: nat)
    requires m > 0
    ensures BitAt(SetAtoms(digest, m, k, atoms), i) <==> Hit(digest, m, k, atoms, i)
    ensures Octets(SetAtoms(digest, m, k, atoms))
  {
    if atoms != [] {
      var init, last := atoms[..|atoms| - 1], atoms[|atoms| - 1];
      assert atoms == init + [last];
      AtomsSet(digest, m, k, init, i);
      RoundsSet(digest, SetAtoms(digest, m, k, init), m, k, last, i);
      HitSnoc(digest, m, k, init, last, i);
    } else {
      ZeroHasNoBits(i % 8);
      assert !Hit(digest, m, k, atoms, i);
    }
  }

  lemma HitSnoc(digest: Digest, m: nat, k: nat, init: seq<string>, last: string, i: nat)
    requires m > 0
    ensures Hit(digest, m, k, init + [last], i) <==>
            Hit(digest, m, k, init, i) || exists round: nat :: round < k && Index(digest, m, round, last) == i
  {
    if Hit(digest, m, k, init, i) {
      var atom, round: nat :| atom in init && round < k && Index(digest, m, round, atom) == i;
      assert atom in init + [last];
    }
    if round: nat :| round < k && Index(digest, m, round, last) == i {
      assert last in init + [last];
    }
  }

  /**
   * A filter answers yes exactly to the lists all of whose bits its own atoms
   * set, through byte packing and hex text.
   */
  lemma FilterAnswers(digest: Digest, m: nat, k: nat, atoms: seq<string>, asked: seq<string>)
    requires m > 0
    ensures ContainsAll(digest, BloomOf(digest, atoms, m, k), asked) <==>
            forall atom, round: nat :: atom in asked && round < k ==> Hit(digest, m, k, atoms, Index(digest, m, round, atom))
  {
    var bytes := SetAtoms(digest, m, k, atoms);
    AtomsSet(digest, m, k, atoms, 0);
    HexRoundTrip(bytes);
    forall atom, round: nat | atom in asked && round < k
      ensures BitAt(bytes, Index(digest, m, round, atom)) <==> Hit(digest, m, k, atoms, Index(digest, m, round, atom))
    {
      AtomsSet(digest, m, k, atoms, Index(digest, m, round, atom));
    }
  }

  lemma FilterHoldsItsAtoms(digest: Digest, m: nat, k: nat, atoms: seq<string>, asked: seq<string>)
    requires m > 0 && forall atom :: atom in asked ==> atom in atoms
    ensures ContainsAll(digest, BloomOf(digest, atoms, m, k), asked)
  {
    FilterAnswers(digest, m, k, atoms, asked);
  }

  // ---------------------------------------------------------------- advertisements

  const EPOCH_WILDCARD: string := "shadow"

  datatype Ad = Ad(
    node: string, scope: string, epoch: string,
    covers: Bloom, accepts: Bloom, effects: bv32,
    factor: real, latency: Option<real>, transfer: Option<real>, penalty: Option<real>,
    issued: Option<int>, ttl: Option<int>)

  datatype TurnKey = TurnKey(scope: string, epoch: string, effects: bv32, atoms: seq<string>, accepts: seq<string>)

  predicate EpochMatches(ad: string, key: string) {
    ad == EPOCH_WILDCARD || key == EPOCH_WILDCARD || ad == key
  }

  predicate WellSized(ad: Ad) {
    ad.covers.m > 0 && ad.accepts.m > 0
  }

  predicate ProbablyCovers(digest: Digest, ad: Ad, key: TurnKey)
    requires WellSized(ad)
  {
    && ad.scope == key.scope
    && EpochMatches(ad.epoch, key.epoch)
    && key.effects & !ad.effects == 0
    && ContainsAll(digest, ad.covers, key.atoms)
    && ContainsAll(digest, ad.accepts, key.accepts)
  }

  /** No false negatives: an ad covers every turn it may run whose atoms it was built from. */
  lemma NoFalseNegatives(digest: Digest, ad: Ad, key: TurnKey, covered: seq<string>, accepted: seq<string>, m: nat, k: nat)
    requires m > 0
    requires ad.covers == BloomOf(digest, covered, m, k) && ad.accepts == BloomOf(digest, accepted, m, k)
    requires ad.scope == key.scope && EpochMatches(ad.epoch, key.epoch) && key.effects & !ad.effects == 0
    requires forall atom :: atom in key.atoms ==> atom in covered
    requires forall atom :: atom in key.accepts ==> atom in accepted
    ensures ProbablyCovers(digest, ad, key)
  {
    FilterHoldsItsAtoms(digest, m, k, covered, key.atoms);
    FilterHoldsItsAtoms(digest, m, k, accepted, key.accepts);
  }

  // ------------------------------------------------------------------------ ranking

  function OrZero(x: Option<real>): real {
    if x.Some? then x.value else 0.0
  }

  function Score(ad: Ad): real {
    OrZero(ad.latency) + ad.factor + OrZero(ad.transfer) + OrZero(ad.penalty)
  }

  predicate Expired(ad: Ad, now: Option<int>) {
    now.Some? && ad.issued.Some? && ad.ttl.Some? && ad.issued.value + ad.ttl.value < now.value
  }

  /** How node names compare; any total preorder. */
  type NameOrder = (string, string) -> bool

  ghost predicate TotalPreorder(leq: NameOrder) {
    && (forall a, b :: leq(a, b) || leq(b, a))
    && (forall a, b, c :: leq(a, b) && leq(b, c) ==> leq(a, c))
  }

  predicate Before(leq: NameOrder, a: Ad, b: Ad) {
    Score(a) < Score(b) || (Score(a) == Score(b) && leq(a.node, b.node))
  }

  ghost predicate Ranked(leq: NameOrder, ads: seq<Ad>) {
    forall i, j :: 0 <= i < j < |ads| ==> Before(leq, ads[i], ads[j])
  }

  /** Place an ad after all that come before it, keeping arrival order among equals. */
  function Insert(leq: NameOrder, ranked: seq<Ad>, ad: Ad): seq<Ad> {
    if ranked == [] || Before(leq, ranked[|ranked| - 1], ad) then ranked + [ad]
    else Insert(leq, ranked[..|ranked| - 1], ad) + [ranked[|ranked| - 1]]
  }

  function Candidates(digest: Digest, ads: seq<Ad>, key: TurnKey, now: Option<int>): seq<Ad>
    requires forall ad :: ad in ads ==> WellSized(ad)
  {
    if ads == [] then []
    else
      assert ads[|ads| - 1] in ads;
      var init, last := Candidates(digest, ads[..|ads| - 1], key, now), ads[|ads| - 1];
      if !Expired(last, now) && ProbablyCovers(digest, last, key) then init + [last] else init
  }

  function Sort(leq: NameOrder, ads: seq<Ad>): seq<Ad> {
    if ads == [] then [] else Insert(leq, Sort(leq, ads[..|ads| - 1]), ads[|ads| - 1])
  }

  function RankForTurn(digest: Digest, leq: NameOrder, ads: seq<Ad>, key: TurnKey, now: Option<int>): seq<Ad>
    requires forall ad :: ad in ads ==> WellSized(ad)
  {
    Sort(leq, Candidates(digest, ads, key, now))
  }

  lemma {:induction false} InsertRanks(leq: NameOrder, ranked: seq<Ad>, ad: Ad)
    requires TotalPreorder(leq) && Ranked(leq, ranked)
    ensures Ranked(leq, Insert(leq, ranked, ad)) && multiset(Insert(leq, ranked, ad)) == multiset(ranked) + multiset{ad}
    decreases |ranked|
  {
    if ranked == [] {
    } else {
      var init, last := ranked[..|ranked| - 1], ranked[|ranked| - 1];
      assert ranked == init + [last];
      if Before(leq, last, ad) {
        LastIsGreatest(leq, init, last, ad);
      } else {
        InsertRanks(leq, init, ad);
        forall x | x in Insert(leq, init, ad) ensures Before(leq, x, last) {
          assert x in multiset(init) + multiset{ad};
        }
      }
    }
  }

  lemma LastIsGreatest(leq: NameOrder, init: seq<Ad>, last: Ad, ad: Ad)
    requires TotalPreorder(leq) && Ranked(leq, init + [last]) && Before(leq, last, ad)
    ensures Ranked(leq, init + [last] + [ad])
  {
    var all := init + [last];
    forall i | 0 <= i < |all| ensures Before(leq, all[i], ad) {
      assert i < |init| ==> Before(leq, all[i], all[|init|]);
    }
  }

  lemma {:induction false} SortRanks(leq: NameOrder, ads: seq<Ad>)
    requires TotalPreorder(leq)
    ensures Ranked(leq, Sort(leq, ads)) && multiset(Sort(leq, ads)) == multiset(ads)
  {
    if ads != [] {
      SortRanks(leq, ads[..|ads| - 1]);
      InsertRanks(leq, Sort(leq, ads[..|ads| - 1]), ads[|ads| - 1]);
      assert ads == ads[..|ads| - 1] + [ads[|ads| - 1]];
    }
  }

  lemma {:induction false} CandidateCount(digest: Digest, ads: seq<Ad>, key: TurnKey, now: Option<int>, ad: Ad)
    requires forall x :: x in ads ==> WellSized(x)
    ensures multiset(Candidates(digest, ads, key, now))[ad] ==
            if ad in ads && !Expired(ad, now) && ProbablyCovers(digest, ad, key) then multiset(ads)[ad] else 0
  {
    if ads != [] {
      var init, last := ads[..|ads| - 1], ads[|ads| - 1];
      assert ads == init + [last];
      CandidateCount(digest, init, key, now, ad);
      assert last in ads;
    }
  }

  /**
   * Ranking returns exactly the unexpired covering ads, each as often as it was
   * offered, cheapest first and by node name among equals.
   */
  lemma RankingIsExact(digest: Digest, leq: NameOrder, ads: seq<Ad>, key: TurnKey, now: Option<int>, ad: Ad)
    requires TotalPreorder(leq) && forall x :: x in ads ==> WellSized(x)
    ensures var ranked := RankForTurn(digest, leq, ads, key, now);
            && Ranked(leq, ranked)
            && multiset(ranked)[ad] == if ad in ads && !Expired(ad, now) && ProbablyCovers(digest, ad, key) then multiset(ads)[ad] else 0
  {
    SortRanks(leq, Candidates(digest, ads, key, now));
    CandidateCount(digest, ads, key, now, ad);
  }

  // ------------------------------------------------- ranking, for ads built from atoms

  /** The ad's two filters were built from these lists of atoms. */
  predicate BuiltFrom(digest: Digest, ad: Ad, covered: seq<string>, accepted: seq<string>, m: nat, k: nat)
    requires m > 0
  {
    ad.covers == BloomOf(digest, covered, m, k) && ad.accepts == BloomOf(digest, accepted, m, k)
  }

  /** Every bit position of the asked atoms is one that the built-in atoms set. */
  ghost predicate AllHit(digest: Digest, m: nat, k: nat, atoms: seq<string>, asked: seq<string>)
    requires m > 0
  {
    forall atom, round: nat :: atom in asked && round < k ==> Hit(digest, m, k, atoms, Index(digest, m, round, atom))
  }

  lemma EffectsWithin(asked: bv32, accepted: bv32)
    ensures asked & !accepted == 0 <==> asked | accepted == accepted
  {
  }

  /** Which turns an ad covers: its scope, a generation that is equal or open, no effect of its own, and filters that answer yes. */
  lemma CoversExactly(digest: Digest, ad: Ad, key: TurnKey, covered: seq<string>, accepted: seq<string>, m: nat, k: nat)
    requires m > 0 && BuiltFrom(digest, ad, covered, accepted, m, k)
    ensures ProbablyCovers(digest, ad, key) <==>
            && ad.scope == key.scope
            && (ad.epoch == key.epoch || ad.epoch == "shadow" || key.epoch == "shadow")
            && key.effects | ad.effects == ad.effects
            && AllHit(digest, m, k, covered, key.atoms) && AllHit(digest, m, k, accepted, key.accepts)
  {
    EffectsWithin(key.effects, ad.effects);
    FilterAnswers(digest, m, k, covered, key.atoms);
    FilterAnswers(digest, m, k, accepted, key.accepts);
  }

  /** What b costs beyond a, part by part; a part that is not stated costs nothing. */
  function Excess(a: Ad, b: Ad): real {
    Beyond(a.latency, b.latency) + (b.factor - a.factor) + Beyond(a.transfer, b.transfer) + Beyond(a.penalty, b.penalty)
  }

  function Beyond(a: Option<real>, b: Option<real>): real {
    match (a, b)
    case (None, None) => 0.0
    case (Some(x), None) => 0.0 - x
    case (None, Some(y)) => y
    case (Some(x), Some(y)) => y - x
  }

  /** Of two ranked ads the first is cheaper over all its parts, or as cheap and no later by name. */
  lemma RankedByCost(digest: Digest, leq: NameOrder, ads: seq<Ad>, key: TurnKey, now: Option<int>, i: nat, j: nat)
    requires TotalPreorder(leq) && forall x :: x in ads ==> WellSized(x)
    requires i < j < |RankForTurn(digest, leq, ads, key, now)|
    ensures var ranked := RankForTurn(digest, leq, ads, key, now);
            Excess(ranked[i], ranked[j]) > 0.0 || (Excess(ranked[i], ranked[j]) == 0.0 && leq(ranked[i].node, ranked[j].node))
  {
    SortRanks(leq, Candidates(digest, ads, key, now));
  }

  /**
   * An ad built from atoms is ranked as often as it was offered exactly if its
   * lifetime is not over and its scope, generation, effects and filters admit
   * the turn; otherwise it is not ranked at all.
   */
  lemma RankedExactly(
    digest: Digest, leq: NameOrder, ads: seq<Ad>, key: TurnKey, now: Option<int>, ad: Ad,
    covered: seq<string>, accepted: seq<string>, m: nat, k: nat)
    requires TotalPreorder(leq) && forall x :: x in ads ==> WellSized(x)
    requires m > 0 && BuiltFrom(digest, ad, covered, accepted, m, k)
    ensures var admitted :=
              && ad.scope == key.scope
              && (ad.epoch == key.epoch || ad.epoch == "shadow" || key.epoch == "shadow")
              && key.effects | ad.effects == ad.effects
              && AllHit(digest, m, k, covered, key.atoms) && AllHit(digest, m, k, accepted, key.accepts)
              && (now.None? || ad.issued.None? || ad.ttl.None? || now.value <= ad.issued.value + ad.ttl.value);
            multiset(RankForTurn(digest, leq, ads, key, now))[ad] == if admitted then multiset(ads)[ad] else 0
  {
    RankingIsExact(digest, leq, ads, key, now, ad);
    CoversExactly(digest, ad, key, covered, accepted, m, k);
    assert ad !in ads ==> multiset(ads)[ad] == 0;
  }
}
