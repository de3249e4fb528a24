// Choosing the node that runs a new VM.
module Placement {
  import opened Wrappers

  const DEFAULT_VM_VCPUS := 2
  const DEFAULT_VM_MEMORY_MIB := 2048
  const SCALE := 10_000

  // `healthy` is the comparison of the last heartbeat with the clock.
  datatype Node = Node(name: string, vcpusTotal: U32, memoryMibTotal: U64, vmCount: U64, healthy: bool)

  datatype Request = Request(vcpus: U32, memoryMib: U64)

  const I64_LIMIT := 0x8000_0000_0000_0000

  function Min(a: int, b: int): int {
    if a < b then a else b
  }

  function SaturatingSub(a: nat, b: nat): nat {
    if a < b then 0 else a - b
  }

  // `vm_count as u32` keeps the low 32 bits.
  function FreeVcpus(n: Node): nat {
    SaturatingSub(n.vcpusTotal, Min(n.vmCount % 0x1_0000_0000 * DEFAULT_VM_VCPUS, MAX_U32))
  }

  function FreeMemoryMib(n: Node): nat {
    SaturatingSub(n.memoryMibTotal, Min(n.vmCount * DEFAULT_VM_MEMORY_MIB, MAX_USIZE))
  }

  // A cast or an operation on i64 whose result wraps.
  function Wrap64(x: int): int {
    (x + I64_LIMIT) % (2 * I64_LIMIT) - I64_LIMIT
  }

  // Division that truncates toward zero.
  function TruncDiv(a: int, b: int): int
    requires b != 0
  {
    if a >= 0 then a / b else -(-a / b)
  }

  function Fraction(free: nat, total: U64): int {
    if Wrap64(total) == 0 then 0 else Wrap64(TruncDiv(Wrap64(Wrap64(free) * SCALE), Wrap64(total)))
  }

  function Residual(n: Node): int {
    Min(Fraction(FreeVcpus(n), n.vcpusTotal), Fraction(FreeMemoryMib(n), n.memoryMibTotal))
  }

  datatype Score = Score(residual: int, fewness: int, name: string)

  function CapacityScore(n: Node, r: Request): Option<Score> {
    if !n.healthy then None
    else if (FreeVcpus(n) < r.vcpus || FreeMemoryMib(n) < r.memoryMib)
            && (n.vcpusTotal < r.vcpus || n.memoryMibTotal < r.memoryMib) then None
    else Some(Score(Residual(n), Wrap64(-Wrap64(n.vmCount)), n.name))
  }

  predicate Precedes(a: string, b: string) {
    if a == [] then b != []
    else b != [] && (a[0] < b[0] || (a[0] == b[0] && Precedes(a[1..], b[1..])))
  }

  // The comparison of max_by: `Greater`
  predicate Beats(a: Score, b: Score) {
    if a.residual != b.residual then a.residual > b.residual
    else if a.fewness != b.fewness then a.fewness > b.fewness
    else Precedes(a.name, b.name)
  }

  // `max_by` over the values in the order the hash map yields them: of two that compare equal
  // the later one stays.
  function Best(order: seq<Node>, r: Request): Option<Node> {
    if order == [] then None
    else
      var before, n := Best(order[..|order| - 1], r), order[|order| - 1];
      match (before, CapacityScore(n, r))
      case (_, None) => before
      case (None, Some(_)) => Some(n)
      case (Some(b), Some(score)) =>
        match CapacityScore(b, r)
        case Some(best) => if Beats(best, score) then before else Some(n)
        case None => Some(n)
  }

  /* The direct reading: the total capacity fits and the node is alive. */

  predicate Qualifies(n: Node, r: Request) {
    n.healthy && n.vcpusTotal >= r.vcpus && n.memoryMibTotal >= r.memoryMib
  }

  // The registry is a map by name, so its values have distinct names.
  ghost predicate DistinctNames(order: seq<Node>) {
    forall i, j :: 0 <= i < j < |order| ==> order[i].name != order[j].name
  }

  ghost predicate IsBest(order: seq<Node>, r: Request, b: Node) {
    && b in order
    && Qualifies(b, r)
    && forall n :: n in order && n != b && Qualifies(n, r) ==> Beats(ScoreOf(b), ScoreOf(n))
  }

  function ScoreOf(n: Node): Score {
    Score(Residual(n), Wrap64(-Wrap64(n.vmCount)), n.name)
  }

  lemma ScoredIffQualifies(n: Node, r: Request)
    ensures CapacityScore(n, r) == if Qualifies(n, r) then Some(ScoreOf(n)) else None
  {
  }

  lemma {:induction false} PrecedesIsStrictTotal(a: string, b: string, c: string)
    ensures !(Precedes(a, b) && Precedes(b, a)) && (a == b || Precedes(a, b) || Precedes(b, a))
    ensures Precedes(a, b) && Precedes(b, c) ==> Precedes(a, c)
  {
    if a != [] && b != [] {
      PrecedesIsStrictTotal(a[1..], b[1..], if c == [] then [] else c[1..]);
      assert a == [a[0]] + a[1..] && b == [b[0]] + b[1..];
    }
  }

  lemma BeatsIsStrictTotal(a: Score, b: Score, c: Score)
    ensures !(Beats(a, b) && Beats(b, a)) && (a == b || Beats(a, b) || Beats(b, a))
    ensures Beats(a, b) && Beats(b, c) ==> Beats(a, c)
  {
    PrecedesIsStrictTotal(a.name, b.name, c.name);
  }

  // The choice qualifies and beats every other qualifying node; there is none only when no
  // node qualifies.
  lemma {:induction false} BestIsBest(order: seq<Node>, r: Request)
    requires DistinctNames(order)
    ensures Best(order, r).None? <==> forall n :: n in order ==> !Qualifies(n, r)
    ensures Best(order, r).Some? ==> IsBest(order, r, Best(order, r).value)
  {
    if order != [] {
      var front, n := order[..|order| - 1], order[|order| - 1];
      BestIsBest(front, r);
      ScoredIffQualifies(n, r);
      assert order == front + [n];
      if Best(front, r).Some? && Qualifies(n, r) {
        var b := Best(front, r).value;
        ScoredIffQualifies(b, r);
        BeatsIsStrictTotal(ScoreOf(b), ScoreOf(n), ScoreOf(n));
        forall m | m in front && m != b && Qualifies(m, r) && !Beats(ScoreOf(b), ScoreOf(n))
          ensures Beats(ScoreOf(n), ScoreOf(m))
        {
          BeatsIsStrictTotal(ScoreOf(n), ScoreOf(b), ScoreOf(m));
        }
      }
    }
  }

  // The choice does not depend on the order the hash map is read in.
  lemma ChoiceIgnoresOrder(order: seq<Node>, other: seq<Node>, r: Request)
    requires DistinctNames(order) && DistinctNames(other)
    requires forall n :: n in order <==> n in other
    ensures Best(order, r) == Best(other, r)
  {
    BestIsBest(order, r);
    BestIsBest(other, r);
    if Best(order, r).Some? && Best(other, r).Some? {
      var a, b := Best(order, r).value, Best(other, r).value;
      BeatsIsStrictTotal(ScoreOf(a), ScoreOf(b), ScoreOf(a));
    }
  }

  /* The arithmetic: i64 wraps. */

  // The fraction in ten-thousandths, without a machine word.
  function TrueFraction(free: nat, total: nat): nat {
    if total == 0 then 0 else free * SCALE / total
  }

  lemma WrapIsExact(x: int)
    requires -I64_LIMIT <= x < I64_LIMIT
    ensures Wrap64(x) == x
  {
  }

  lemma QuotientBound(a: nat, b: nat, k: nat)
    requires b > 0 && a <= k * b
    ensures 0 <= a / b <= k
  {
    var q := a / b;
    assert q * b <= a;
    assert q > k ==> q * b >= (k + 1) * b;
  }

  // A numerator that is larger by at least the divisor has a larger quotient.
  lemma QuotientGap(n: nat, a: nat, b: nat)
    requires b > 0 && n >= a + b
    ensures n / b > a / b
  {
    var q := a / b;
    assert q * b <= a;
    var p := n / b;
    assert n == p * b + n % b;
    assert p <= q ==> p * b <= q * b;
  }

  lemma WrappedNumerator(n: nat) returns (m: nat)
    requires n >= I64_LIMIT
    ensures m >= 1 && n == m * (2 * I64_LIMIT) + Wrap64(n)
  {
    m := (n + I64_LIMIT) / (2 * I64_LIMIT);
  }

  // The computed fraction is the true one if and only if the scaled numerator fits i64.
  lemma FractionIsExactIff(free: nat, total: U64)
    requires free <= total < I64_LIMIT
    ensures Fraction(free, total) == TrueFraction(free, total) <==> free * SCALE < I64_LIMIT
    ensures free * SCALE < I64_LIMIT ==> 0 <= Fraction(free, total) <= SCALE
  {
    WrapIsExact(total);
    WrapIsExact(free);
    if total > 0 {
      QuotientBound(free * SCALE, total, SCALE);
      if free * SCALE < I64_LIMIT {
        WrapIsExact(free * SCALE);
        WrapIsExact(free * SCALE / total);
      } else {
        OverflowChangesFraction(free, total);
      }
    }
  }

  lemma QuotientAtMost(a: nat, b: nat)
    requires b > 0
    ensures 0 <= a / b <= a
  {
    assert a <= a * b;
    QuotientBound(a, b, a);
  }

  lemma WrappedQuotientDiffers(n: nat, a: int, total: int, limit: int)
    requires 0 < total < limit && -limit <= a < limit && n >= limit && n >= a + limit
    ensures -limit <= TruncDiv(a, total) < limit && TruncDiv(a, total) < n / total
  {
    if a >= 0 {
      QuotientGap(n, a, total);
      QuotientAtMost(a, total);
    } else {
      QuotientGap(n, 0, total);
      QuotientAtMost(-a, total);
      assert TruncDiv(a, total) == 0 - (0 - a) / total;
    }
  }

  lemma OverflowChangesFraction(free: nat, total: U64)
    requires 0 < free <= total < I64_LIMIT && free * SCALE >= I64_LIMIT
    ensures Fraction(free, total) != TrueFraction(free, total)
  {
    WrappedFraction(free, total);
  }

  // What decides after an overflow: how the wrapped numerator a compares with the vCPU fraction v
  // scaled by the total memory.
  predicate StillBelow(v: nat, a: int, total: nat) {
    v * total <= a || (v == 0 && -a < total)
  }

  lemma BelowQuotient(v: nat, a: nat, total: nat)
    requires total > 0
    ensures v <= a / total <==> v * total <= a
  {
    var q, r := a / total, a % total;
    assert a == q * total + r && r < total;
    if v <= q {
      ProductsAreMonotone(v, q, total);
    } else {
      ProductsAreMonotone(q + 1, v, total);
      assert (q + 1) * total == q * total + total;
    }
  }

  lemma ProductsAreMonotone(x: nat, y: nat, t: nat)
    requires x <= y
    ensures x * t <= y * t
  {
  }

  lemma SmallQuotient(a: nat, total: nat)
    requires total > 0
    ensures a / total == 0 <==> a < total
  {
    BelowQuotient(1, a, total);
  }

  lemma BelowQuotientIff(v: nat, a: int, total: nat)
    requires total > 0
    ensures v <= TruncDiv(a, total) <==> StillBelow(v, a, total)
  {
    if a >= 0 {
      BelowQuotient(v, a, total);
    } else {
      SmallQuotient(-a, total);
      assert v * total >= 0;
    }
  }

  // The score's residual is the smaller true fraction, between 0 and ten thousand, if and only
  // if the free memory fits i64 after scaling, or the vCPU fraction stays below the numerator it
  // wraps to.
  lemma ResidualIsExactIff(n: Node)
    requires n.memoryMibTotal < I64_LIMIT
    ensures var v, m := TrueFraction(FreeVcpus(n), n.vcpusTotal), TrueFraction(FreeMemoryMib(n), n.memoryMibTotal);
            var scaled := FreeMemoryMib(n) * SCALE;
            && (Residual(n) == Min(v, m) <==>
                  scaled < I64_LIMIT || StillBelow(v, Wrap64(scaled), n.memoryMibTotal))
            && (Residual(n) == Min(v, m) ==> 0 <= Residual(n) <= SCALE)
  {
    var v, free, total := TrueFraction(FreeVcpus(n), n.vcpusTotal), FreeMemoryMib(n), n.memoryMibTotal;
    FractionIsExactIff(FreeVcpus(n), n.vcpusTotal);
    FractionIsExactIff(free, total);
    if free * SCALE >= I64_LIMIT {
      WrappedFraction(free, total);
      BelowQuotientIff(v, Wrap64(free * SCALE), total);
    }
  }

  lemma WrappedFraction(free: nat, total: U64)
    requires 0 < free <= total < I64_LIMIT && free * SCALE >= I64_LIMIT
    ensures Fraction(free, total) == TruncDiv(Wrap64(free * SCALE), total) < TrueFraction(free, total)
  {
    WrapIsExact(total);
    WrapIsExact(free);
    var n := free * SCALE;
    var _ := WrappedNumerator(n);
    WrappedQuotientDiffers(n, Wrap64(n), total, I64_LIMIT);
    WrapIsExact(TruncDiv(Wrap64(n), total));
  }

  // Past the bound an idle node with more memory can lose to a full one.
  lemma HugeMemoryLoses(r: Request)
    requires r.vcpus <= 2 && r.memoryMib <= 2048
    ensures var idle := Node("a", 2, 922337203685478, 0, true);
            var full := Node("b", 2, 2048, 1, true);
            && FreeMemoryMib(idle) * SCALE >= I64_LIMIT
            && Best([idle, full], r) == Some(full)
  {
    var idle := Node("a", 2, 922337203685478, 0, true);
    var full := Node("b", 2, 2048, 1, true);
    OverflownResidual(idle, full);
    BestIsBest([idle, full], r);
    assert idle in [idle, full] && full in [idle, full];
  }

  lemma OverflownFraction()
    ensures Fraction(922337203685478, 922337203685478) == -9999
  {
    WrapIsExact(922337203685478);
    assert Wrap64(922337203685478 * SCALE) == -9223372036854771616;
    assert 9223372036854771616 / 922337203685478 == 9999;
    WrapIsExact(-9999);
  }

  lemma OverflownResidual(idle: Node, full: Node)
    requires idle == Node("a", 2, 922337203685478, 0, true) && full == Node("b", 2, 2048, 1, true)
    ensures Residual(idle) < Residual(full) && FreeMemoryMib(idle) * SCALE >= I64_LIMIT
  {
    assert FreeMemoryMib(idle) == 922337203685478;
    OverflownFraction();
    assert FreeVcpus(full) == 0 && FreeMemoryMib(full) == 0;
    FractionIsExactIff(0, 2);
    FractionIsExactIff(0, 2048);
    assert Residual(full) == 0;
  }

  /* The choice in plain terms. */

  // Lexicographic order: a proper prefix comes first, and otherwise the first difference decides.
  ghost predicate ComesBefore(a: string, b: string) {
    exists k :: 0 <= k <= |a| && k < |b| && a[..k] == b[..k] && (k == |a| || a[k] < b[k])
  }

  lemma {:induction false} PrecedesIff(a: string, b: string)
    ensures Precedes(a, b) <==> ComesBefore(a, b)
  {
    if a != [] && b != [] {
      PrecedesIff(a[1..], b[1..]);
      if Precedes(a, b) {
        if a[0] < b[0] {
          assert a[..0] == b[..0];
        } else {
          var k :| && 0 <= k <= |a[1..]| && k < |b[1..]| && a[1..][..k] == b[1..][..k]
                   && (k == |a[1..]| || a[1..][k] < b[1..][k]);
          assert a[..k + 1] == [a[0]] + a[1..][..k] && b[..k + 1] == [b[0]] + b[1..][..k];
        }
      }
      if ComesBefore(a, b) {
        var k :| 0 <= k <= |a| && k < |b| && a[..k] == b[..k] && (k == |a| || a[k] < b[k]);
        if k > 0 {
          assert a[0] == a[..k][0] == b[..k][0] == b[0];
          assert a[1..][..k - 1] == a[..k][1..] && b[1..][..k - 1] == b[..k][1..];
        }
      }
    } else if a == [] && b != [] {
      assert a[..0] == b[..0];
    }
  }

  // Of all qualifying nodes the chosen one has the largest free fraction; of those the fewest
  // VMs; of those the first name.
  lemma ChosenByFractionCountName(order: seq<Node>, r: Request, b: Node, n: Node)
    requires DistinctNames(order) && Best(order, r) == Some(b)
    requires n in order && n != b && Qualifies(n, r) && n.vmCount < I64_LIMIT && b.vmCount < I64_LIMIT
    ensures Residual(n) <= Residual(b)
    ensures Residual(n) == Residual(b) ==> b.vmCount <= n.vmCount
    ensures Residual(n) == Residual(b) && b.vmCount == n.vmCount ==> ComesBefore(b.name, n.name)
  {
    BestIsBest(order, r);
    BeatsMeans(b, n);
  }

  lemma BeatsMeans(b: Node, n: Node)
    requires Beats(ScoreOf(b), ScoreOf(n)) && n.vmCount < I64_LIMIT && b.vmCount < I64_LIMIT
    ensures Residual(n) <= Residual(b)
    ensures Residual(n) == Residual(b) ==> b.vmCount <= n.vmCount
    ensures Residual(n) == Residual(b) && b.vmCount == n.vmCount ==> ComesBefore(b.name, n.name)
  {
    FewnessIsExact(b);
    FewnessIsExact(n);
    PrecedesIff(b.name, n.name);
  }

  lemma FewnessIsExact(n: Node)
    requires n.vmCount < I64_LIMIT
    ensures ScoreOf(n).fewness == -(n.vmCount as int)
  {
    WrapIsExact(n.vmCount);
    WrapIsExact(-(n.vmCount as int));
  }

  // A node is taken to have what two vCPUs and 2048 MiB for each VM leave of its totals. For the
  // vCPUs that is so if and only if the count fits 32 bits or its low 32 bits already use them up.
  lemma FreeIsWhatVmsLeave(n: Node)
    ensures FreeMemoryMib(n) == if n.memoryMibTotal >= 2048 * n.vmCount then n.memoryMibTotal - 2048 * n.vmCount else 0
    ensures FreeVcpus(n) == (if n.vcpusTotal >= 2 * n.vmCount then n.vcpusTotal - 2 * n.vmCount else 0)
            <==> n.vmCount < 0x1_0000_0000 || n.vcpusTotal <= 2 * (n.vmCount % 0x1_0000_0000)
  {
    var low := n.vmCount % 0x1_0000_0000;
    assert FreeVcpus(n) == if n.vcpusTotal >= 2 * low then n.vcpusTotal - 2 * low else 0;
  }
}
