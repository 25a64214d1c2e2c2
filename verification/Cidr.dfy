/** The overlap check between the machine, service and pod networks, on IPv4 blocks as section 3.1
    of RFC 4632 defines them: addresses are 32-bit numbers, and a block is all addresses that agree
    with its base address in the leading `length` bits. */
module Cidr {
  import opened Options

  type Address = n: nat | n < 0x1_0000_0000

  function Power2(k: nat): (p: nat)
    ensures p > 0
  {
    if k == 0 then 1 else 2 * Power2(k - 1)
  }

  lemma {:induction false} Power2Sum(j: nat, k: nat)
    ensures Power2(j + k) == Power2(j) * Power2(k)
  {
    if j > 0 { Power2Sum(j - 1, k); }
  }

  type Length = n: nat | n <= 32

  /** How many addresses share a prefix of the given length. */
  function Size(length: Length): (s: nat)
    ensures s > 0
  {
    Power2(32 - length)
  }

  /** An address with the bits behind the prefix cleared. */
  function Network(address: Address, length: Length): (n: Address) {
    MultipleBelow(address, Size(length));
    address / Size(length) * Size(length)
  }

  datatype Block = Block(base: Address, length: Length)

  /** Parsing clears the bits of the address behind the prefix. */
  predicate Parsed(b: Block) { Network(b.base, b.length) == b.base }

  /** `net.ParseCIDR`'s network for an address and a prefix length. */
  function Parse(address: Address, length: Length): (b: Block)
    ensures Parsed(b)
  {
    NetworkIdempotent(address, length);
    Block(Network(address, length), length)
  }

  predicate Contains(b: Block, address: Address) { Network(address, b.length) == b.base }

  /** The test in the source: one block holds the other's base address. A text that does not parse
      overlaps nothing. */
  predicate Intersect(x: Option<Block>, y: Option<Block>) {
    x.Some? && y.Some? && (Contains(y.value, x.value.base) || Contains(x.value, y.value.base))
  }

  ghost predicate ShareAddress(a: Block, b: Block) {
    exists address: Address :: Contains(a, address) && Contains(b, address)
  }

  // ---------- division ----------

  lemma MulMonotone(a: int, b: int, d: nat)
    requires a <= b
    ensures a * d <= b * d
  {
  }

  lemma MultipleBelow(n: nat, d: nat)
    requires d > 0
    ensures 0 <= n / d * d <= n < n / d * d + d
  {
  }

  lemma QuotientIs(n: nat, d: nat, k: nat)
    requires d > 0 && k * d <= n < k * d + d
    ensures n / d == k
  {
    MultipleBelow(n, d);
    var q := n / d;
    if q < k { MulMonotone(q + 1, k, d); }
    if k < q { MulMonotone(k + 1, q, d); }
  }

  lemma NetworkIdempotent(address: Address, length: Length)
    ensures Network(Network(address, length), length) == Network(address, length)
  {
    var s := Size(length);
    RoundedQuotient(address, s);
  }

  lemma RoundedQuotient(n: nat, d: nat)
    requires d > 0
    ensures n / d * d / d == n / d
  {
    QuotientIs(n / d * d, d, n / d);
  }

  lemma QuotientAtLeast(n: nat, d: nat, a: nat)
    requires d > 0 && a * d <= n
    ensures a <= n / d
  {
    MultipleBelow(n, d);
    if n / d < a { MulMonotone(n / d + 1, a, d); }
  }

  lemma Regroup(k: nat, s: nat, q: nat)
    ensures k * (s * q) == (k * q) * s
  {
  }

  /** Rounding down to a multiple first does not change rounding down to a multiple of that. */
  lemma RoundTwice(n: nat, s: nat, q: nat)
    requires s > 0 && q > 0 && s * q > 0
    ensures n / s * s / (s * q) == n / (s * q)
  {
    var wide := s * q;
    var k, inner := n / wide, n / s * s;
    MultipleBelow(n, wide);
    MultipleBelow(n, s);
    Regroup(k, s, q);
    QuotientAtLeast(n, s, k * q);
    MulMonotone(k * q, n / s, s);
    QuotientIs(inner, wide, k);
  }

  /** Clearing more bits than were cleared already gives the same as clearing them at once. */
  lemma NetworkOfNetwork(address: Address, shorter: Length, longer: Length)
    requires shorter <= longer
    ensures Network(Network(address, longer), shorter) == Network(address, shorter)
  {
    Power2Sum(32 - longer, longer - shorter);
    RoundTwice(address, Size(longer), Power2(longer - shorter));
  }

  // ---------- the test is exact ----------

  /** A block holds exactly the addresses from its base on, as many as its size. */
  lemma ContainsIsRange(b: Block, address: Address)
    requires Parsed(b)
    ensures Contains(b, address) <==> b.base <= address < b.base + Size(b.length)
  {
    var s := Size(b.length);
    MultipleBelow(address, s);
    if b.base <= address < b.base + s {
      QuotientIs(address, s, b.base / s);
    }
  }

  /** Blocks that share an address are nested: the one with the longer prefix has its base in the other. */
  lemma Nested(a: Block, b: Block, address: Address)
    requires a.length <= b.length && Contains(a, address) && Contains(b, address)
    ensures Contains(a, b.base)
  {
    NetworkOfNetwork(address, a.length, b.length);
  }

  /** The base-in-other test holds if and only if some address lies in both blocks. */
  lemma IntersectExactlyWhen(a: Block, b: Block)
    requires Parsed(a) && Parsed(b)
    ensures Intersect(Some(a), Some(b)) <==> ShareAddress(a, b)
  {
    assert Contains(a, a.base) && Contains(b, b.base);
    if ShareAddress(a, b) {
      var address: Address :| Contains(a, address) && Contains(b, address);
      if a.length <= b.length { Nested(a, b, address); } else { Nested(b, a, address); }
    }
  }

  predicate ParsedIfAny(b: Option<Block>) { b.Some? ==> Parsed(b.value) }

  ghost predicate Overlapping(x: Option<Block>, y: Option<Block>) {
    x.Some? && y.Some? && ShareAddress(x.value, y.value)
  }

  lemma IntersectIsOverlapping(x: Option<Block>, y: Option<Block>)
    requires ParsedIfAny(x) && ParsedIfAny(y)
    ensures Intersect(x, y) <==> Overlapping(x, y)
  {
    if x.Some? && y.Some? { IntersectExactlyWhen(x.value, y.value); }
  }

  datatype Overlap = MachineService | MachinePod | ServicePod

  /** The three comparisons of the network profile: an error for exactly the pairs that overlap. */
  method OverlapErrors(machine: Option<Block>, service: Option<Block>, pod: Option<Block>) returns (errs: seq<Overlap>)
    requires ParsedIfAny(machine) && ParsedIfAny(service) && ParsedIfAny(pod)
    ensures MachineService in errs <==> Overlapping(machine, service)
    ensures MachinePod in errs <==> Overlapping(machine, pod)
    ensures ServicePod in errs <==> Overlapping(service, pod)
  {
    IntersectIsOverlapping(machine, service);
    IntersectIsOverlapping(machine, pod);
    IntersectIsOverlapping(service, pod);
    errs := [];
    if Intersect(machine, service) { errs := errs + [MachineService]; }
    if Intersect(machine, pod) { errs := errs + [MachinePod]; }
    if Intersect(service, pod) { errs := errs + [ServicePod]; }
  }

  /** With three parsed blocks and no overlap error, no address is in two of the networks, and
      otherwise some address is. */
  lemma NoErrorExactlyWhenDisjoint(machine: Block, service: Block, pod: Block)
    requires Parsed(machine) && Parsed(service) && Parsed(pod)
    ensures !Intersect(Some(machine), Some(service)) && !Intersect(Some(machine), Some(pod)) &&
            !Intersect(Some(service), Some(pod)) <==>
            forall address: Address :: !(Contains(machine, address) && Contains(service, address)) &&
                                       !(Contains(machine, address) && Contains(pod, address)) &&
                                       !(Contains(service, address) && Contains(pod, address))
  {
    IntersectExactlyWhen(machine, service);
    IntersectExactlyWhen(machine, pod);
    IntersectExactlyWhen(service, pod);
  }
}
