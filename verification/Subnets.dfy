/** CIDR subnets of both families, as the address manager parses and compares them. */
module Subnets {
  import opened Common
  import opened Bits

  /** An address family: how wide its addresses are, and which of the two host-mask formulas it uses. */
  datatype Family = Family(v4: bool, width: nat) {
    function Width(): nat { width }
    /** The longest prefix that leaves host addresses: /30 and /126. */
    function LongestPrefix(): int { width - 2 }
  }

  const V4 := Family(true, 32)
  const V6 := Family(false, 128)

  /** An address of the family's width. */
  ghost predicate IsAddress(f: Family, a: nat) {
    a < Pow2(f.Width())
  }

  /** A masked network address and its prefix length. */
  datatype Subnet = Subnet(network: nat, prefix: nat)

  datatype ParseError = PrefixTooLong

  function PrefixMask(f: Family, prefix: nat): nat
    requires prefix <= f.Width()
  {
    if prefix == 0 then 0 else Shl(f.Width(), MaxWord(f.Width()), f.Width() - prefix)
  }

  /** `Subnet::parse` once the address and the prefix have been read: host bits are masked off. */
  function Parse(f: Family, ip: nat, prefix: nat): Result<Subnet, ParseError> {
    if prefix > f.LongestPrefix() then Err(PrefixTooLong)
    else Ok(Subnet(BitAnd(ip, PrefixMask(f, prefix)), prefix))
  }

  function BlockSize(f: Family, s: Subnet): nat
    requires s.prefix <= f.Width()
  {
    Pow2(f.Width() - s.prefix)
  }

  /** A subnet as parsing builds it: aligned to its size and inside the address space. */
  ghost predicate Valid(f: Family, s: Subnet) {
    && s.prefix <= f.LongestPrefix()
    && Aligned(s.network, f.Width() - s.prefix)
    && s.network + BlockSize(f, s) <= Pow2(f.Width())
  }

  /** The whole CIDR block. */
  ghost predicate InBlock(f: Family, s: Subnet, a: nat)
    requires s.prefix <= f.Width()
  {
    s.network <= a < s.network + BlockSize(f, s)
  }

  lemma PrefixMaskIs(f: Family, prefix: nat)
    requires prefix <= f.Width()
    ensures Pow2(f.Width()) >= Pow2(f.Width() - prefix)
    ensures PrefixMask(f, prefix) == Pow2(f.Width()) - Pow2(f.Width() - prefix)
  {
    PowMonotone(f.Width() - prefix, f.Width());
    if prefix > 0 { ShiftMask(f.Width(), 0, f.Width() - prefix); }
  }

  /**
   * The host bits. v4 computes `(1u32 << (32 - prefix)) - 1`, whose shift amount wraps
   * to 0 for a /0; v6 complements the prefix mask.
   */
  function HostMask(f: Family, prefix: nat): nat
    requires prefix <= f.LongestPrefix()
  {
    var w := f.Width();
    if f.v4 then
      var k := if prefix == 0 then 0 else w - prefix;
      ShiftOne(w, 0, k);
      Shl(w, 1, k) - 1
    else
      PrefixMaskIs(f, prefix);
      MaxWord(w) - PrefixMask(f, prefix)
  }

  lemma HostMaskIs(f: Family, prefix: nat)
    requires prefix <= f.LongestPrefix()
    ensures HostMask(f, prefix) == if f.v4 && prefix == 0 then 0 else Pow2(f.Width() - prefix) - 1
  {
    if f.v4 {
      ShiftOne(f.Width(), 0, if prefix == 0 then 0 else f.Width() - prefix);
    } else {
      PrefixMaskIs(f, prefix);
    }
  }

  /** One step past either end of the word range comes back at the other. */
  function Wrap(width: nat, x: int): nat
    requires 0 <= x + Pow2(width) && x <= Pow2(width)
  {
    if x < 0 then x + Pow2(width) else if x == Pow2(width) then 0 else x
  }

  /** First and last usable address, in wrapping arithmetic. */
  function UsableRange(f: Family, s: Subnet): (nat, nat)
    requires Valid(f, s)
  {
    LastAddress(f, s);
    (Wrap(f.Width(), s.network + 1), Wrap(f.Width(), BitOr(s.network, HostMask(f, s.prefix)) - 1))
  }

  /** The last address of the block, which a v4 /0 misses. */
  lemma LastAddress(f: Family, s: Subnet)
    requires Valid(f, s)
    ensures BitOr(s.network, HostMask(f, s.prefix)) ==
            if f.v4 && s.prefix == 0 then s.network else s.network + BlockSize(f, s) - 1
  {
    HostMaskIs(f, s.prefix);
    OrLow(s.network, HostMask(f, s.prefix), f.Width() - s.prefix);
  }

  /** The last usable address: one short of the block's last, except that a v4 /0 keeps it. */
  function LastUsable(f: Family, s: Subnet): int
    requires s.prefix <= f.LongestPrefix()
  {
    s.network + BlockSize(f, s) - (if f.v4 && s.prefix == 0 then 1 else 2)
  }

  /** The usable addresses; UsableRangeIs ties them to the range the source computes. */
  function Contains(f: Family, s: Subnet, ip: nat): bool
    requires s.prefix <= f.LongestPrefix()
  {
    s.network + 1 <= ip <= LastUsable(f, s)
  }

  function Overlaps(f: Family, a: Subnet, b: Subnet): bool
    requires a.prefix <= f.LongestPrefix() && b.prefix <= f.LongestPrefix()
  {
    a.network + 1 <= LastUsable(f, b) && b.network + 1 <= LastUsable(f, a)
  }

  /** The default gateway: the first usable address. */
  function DefaultGateway(f: Family, s: Subnet): nat {
    s.network + 1
  }

  // --- what the bit arithmetic means --------------------------------------

  /** Parsing yields the aligned block of the requested size that holds the address. */
  lemma ParseIs(f: Family, ip: nat, prefix: nat)
    requires IsAddress(f, ip)
    ensures Parse(f, ip, prefix).Ok? <==> prefix <= f.LongestPrefix()
    ensures Parse(f, ip, prefix).Ok? ==>
              var s := Parse(f, ip, prefix).value;
              s.prefix == prefix && Valid(f, s) && InBlock(f, s, ip)
  {
    if prefix <= f.LongestPrefix() {
      var w, k := f.Width(), f.Width() - prefix;
      PrefixMaskIs(f, prefix);
      AndMask(w, ip, k);
      ClearIs(ip, k, w);
    }
  }

  lemma BlockHoldsFour(f: Family, s: Subnet)
    requires s.prefix <= f.LongestPrefix()
    ensures BlockSize(f, s) >= 4
  {
    PowMonotone(2, f.Width() - s.prefix);
  }

  /**
   * The range the bit arithmetic computes is the block without its first and last
   * address (a v4 /0 keeps its last), and it decides membership, overlap and gateway.
   */
  lemma UsableRangeIs(f: Family, s: Subnet)
    requires Valid(f, s)
    ensures UsableRange(f, s) == (s.network + 1, LastUsable(f, s))
    ensures BlockSize(f, s) >= 4 && DefaultGateway(f, s) == UsableRange(f, s).0
    ensures forall ip: nat :: Contains(f, s, ip) <==> UsableRange(f, s).0 <= ip <= UsableRange(f, s).1
  {
    BlockHoldsFour(f, s);
    LastAddress(f, s);
  }

  /** The source's overlap test on the computed ranges. */
  lemma OverlapsByRanges(f: Family, a: Subnet, b: Subnet)
    requires Valid(f, a) && Valid(f, b)
    ensures Overlaps(f, a, b) <==>
            UsableRange(f, a).0 <= UsableRange(f, b).1 && UsableRange(f, b).0 <= UsableRange(f, a).1
  {
    UsableRangeIs(f, a);
    UsableRangeIs(f, b);
  }

  /** A gateway derived from a subnet is a usable address of it. */
  lemma DefaultGatewayUsable(f: Family, s: Subnet)
    requires Valid(f, s)
    ensures Contains(f, s, DefaultGateway(f, s))
  {
    BlockHoldsFour(f, s);
  }

  lemma UsableInBlock(f: Family, s: Subnet, a: nat)
    requires Valid(f, s) && Contains(f, s, a)
    ensures InBlock(f, s, a) && a != s.network
  {
  }

  // --- overlap is exact ----------------------------------------------------

  ghost predicate BlockWithin(f: Family, a: Subnet, b: Subnet)
    requires a.prefix <= f.Width() && b.prefix <= f.Width()
  {
    b.network <= a.network && a.network + BlockSize(f, a) <= b.network + BlockSize(f, b)
  }

  ghost predicate Share(f: Family, a: Subnet, b: Subnet)
    requires a.prefix <= f.Width() && b.prefix <= f.Width()
  {
    exists x :: InBlock(f, a, x) && InBlock(f, b, x)
  }

  /** For blocks that nest or lie apart, usable ranges meet exactly when the blocks do. */
  lemma RangesMeetIffNested(a: nat, m: nat, lastA: int, b: nat, n: nat, lastB: int)
    requires m >= 4 && n >= 4 && a + m - 2 <= lastA < a + m && b + n - 2 <= lastB < b + n
    requires a + m <= b || b + n <= a || (b <= a && a + m <= b + n)
    ensures a + 1 <= lastB && b + 1 <= lastA <==> b <= a && a + m <= b + n
  {
  }

  lemma OverlapsIffWithin(f: Family, a: Subnet, b: Subnet)
    requires Valid(f, a) && Valid(f, b) && b.prefix <= a.prefix
    ensures Overlaps(f, a, b) <==> BlockWithin(f, a, b)
  {
    BlockHoldsFour(f, a);
    BlockHoldsFour(f, b);
    NestOrApart(a.network, f.Width() - a.prefix, b.network, f.Width() - b.prefix);
    RangesMeetIffNested(a.network, BlockSize(f, a), LastUsable(f, a), b.network, BlockSize(f, b), LastUsable(f, b));
  }

  lemma ShareIffWithin(f: Family, a: Subnet, b: Subnet)
    requires Valid(f, a) && Valid(f, b) && b.prefix <= a.prefix
    ensures Share(f, a, b) <==> BlockWithin(f, a, b)
    ensures BlockWithin(f, b, a) ==> BlockWithin(f, a, b)
  {
    NestOrApart(a.network, f.Width() - a.prefix, b.network, f.Width() - b.prefix);
    if BlockWithin(f, a, b) { assert InBlock(f, a, a.network) && InBlock(f, b, a.network); }
  }

  /**
   * The usable-range test is exact: it holds iff the two whole blocks share an
   * address, iff one block contains the other.
   */
  lemma OverlapsExact(f: Family, a: Subnet, b: Subnet)
    requires Valid(f, a) && Valid(f, b)
    ensures Overlaps(f, a, b) <==> Share(f, a, b)
    ensures Share(f, a, b) <==> BlockWithin(f, a, b) || BlockWithin(f, b, a)
  {
    if a.prefix < b.prefix {
      OverlapsIffWithin(f, b, a);
      ShareIffWithin(f, b, a);
      assert Overlaps(f, a, b) == Overlaps(f, b, a);
      assert Share(f, a, b) == Share(f, b, a);
    } else {
      OverlapsIffWithin(f, a, b);
      ShareIffWithin(f, a, b);
    }
  }
}
