/** IP networks as Python's ipaddress module sees them (CIDR blocks, section 3.1 of RFC 4632). */
module Cidr {
  import opened Basics

  datatype Address = Address(v6: bool, value: nat)

  /** A block of `size` addresses from `base` up. */
  datatype Block = Block(v6: bool, base: nat, size: nat)

  /** A cidr field as written: an address and a prefix length, or something that does not parse. */
  datatype CidrText = CidrText(v6: bool, address: nat, prefix: nat) | Malformed

  function Pow2(n: nat): (p: nat)
    ensures p >= 1
  {
    if n == 0 then 1 else 2 * Pow2(n - 1)
  }

  function Width(v6: bool): nat {
    if v6 then 128 else 32
  }

  predicate InRange(text: CidrText) {
    text.CidrText? && text.prefix <= Width(text.v6) && text.address < Pow2(Width(text.v6))
  }

  function SizeOf(text: CidrText): (size: nat)
    requires InRange(text)
    ensures size >= 1
  {
    Pow2(Width(text.v6) - text.prefix)
  }

  /** `ip_network(text, strict=True)`: host bits must be zero. */
  function ParseStrict(text: CidrText): (block: Option<Block>)
    ensures block.Some? ==> block.value.size >= 1
  {
    if InRange(text) && text.address % SizeOf(text) == 0
    then Some(Block(text.v6, text.address, SizeOf(text)))
    else None
  }

  function Masked(address: nat, size: nat): nat
    requires size >= 1
  {
    address - address % size
  }

  /** `ip_network(text, strict=False)`: host bits are masked off. */
  function ParseLoose(text: CidrText): (block: Option<Block>)
    ensures block.Some? ==> block.value.size >= 1
  {
    if InRange(text)
    then Some(Block(text.v6, Masked(text.address, SizeOf(text)), SizeOf(text)))
    else None
  }

  /** `address in network`; an address of the other family is in no block of this one. */
  predicate Member(a: Address, b: Block) {
    a.v6 == b.v6 && b.base <= a.value < b.base + b.size
  }

  function First(b: Block): Address {
    Address(b.v6, b.base)
  }

  function Last(b: Block): Address
    requires b.size >= 1
  {
    Address(b.v6, b.base + b.size - 1)
  }

  /** `x.overlaps(y)`: one of the four end addresses lies in the other network. */
  predicate Overlaps(x: Block, y: Block)
    requires x.size >= 1 && y.size >= 1
  {
    Member(First(y), x) || Member(Last(y), x) || Member(First(x), y) || Member(Last(x), y)
  }

  ghost predicate Share(x: Block, y: Block) {
    exists a :: Member(a, x) && Member(a, y)
  }

  /** The four-point test says exactly whether two networks share an address. */
  lemma OverlapsIsSharing(x: Block, y: Block)
    requires x.size >= 1 && y.size >= 1
    ensures Overlaps(x, y) <==> Share(x, y)
  {
    if Overlaps(x, y) {
      var a := if Member(First(y), x) then First(y) else if Member(Last(y), x) then Last(y)
               else if Member(First(x), y) then First(x) else Last(x);
      assert Member(a, x) && Member(a, y);
    }
  }

  function Times(k: nat, unit: nat): nat {
    k * unit
  }

  /** A block as CIDR notation can write it: a power of two in size, and aligned to it. */
  ghost predicate Aligned(b: Block) {
    exists i: nat, k: nat :: b.size == Pow2(i) && b.base == Times(k, b.size)
  }

  lemma {:induction false} Pow2Adds(i: nat, j: nat)
    ensures Pow2(i + j) == Pow2(i) * Pow2(j)
  {
    if i > 0 {
      Pow2Adds(i - 1, j);
      assert Pow2(i + j) == 2 * (Pow2(i - 1) * Pow2(j));
      assert 2 * (Pow2(i - 1) * Pow2(j)) == (2 * Pow2(i - 1)) * Pow2(j);
    }
  }

  /** In units of the smaller block's size, the smaller block fits between the larger one's ends. */
  lemma UnitsInside(k: nat, lo: nat, hi: nat, unit: nat, v: nat)
    requires k * unit <= v < k * unit + unit
    requires lo * unit <= v < hi * unit
    ensures lo * unit <= k * unit && k * unit + unit <= hi * unit
  {
    MulMonotone(k, k, unit);
    MulMonotone(k + 1, lo, unit);
    MulMonotone(hi, k, unit);
    MulMonotone(lo, k, unit);
    MulMonotone(k + 1, hi, unit);
  }

  lemma {:induction false} Pow2Order(i: nat, j: nat)
    ensures i > j ==> Pow2(i) > Pow2(j)
  {
    if i > j {
      Pow2Adds(i - j, j);
      assert Pow2(i - j) == 2 * Pow2(i - j - 1);
      MulMonotone(2, Pow2(i - j), Pow2(j));
    }
  }

  lemma NestInUnits(k: nat, m: nat, n: nat, small: nat, large: nat, v: nat)
    requires large == n * small
    requires k * small <= v < k * small + small
    requires m * large <= v < m * large + large
    ensures m * large <= k * small && k * small + small <= m * large + large
  {
    assert m * (n * small) == (m * n) * small;
    assert (m * n + n) * small == (m * n) * small + n * small;
    UnitsInside(k, m * n, m * n + n, small, v);
  }

  /** Blocks in CIDR notation never straddle: sharing an address means one holds the other. */
  lemma AlignedNest(x: Block, y: Block)
    requires Aligned(x) && Aligned(y) && x.size <= y.size && Share(x, y)
    ensures forall a :: Member(a, x) ==> Member(a, y)
  {
    var i: nat, k: nat :| x.size == Pow2(i) && x.base == Times(k, x.size);
    var j: nat, m: nat :| y.size == Pow2(j) && y.base == Times(m, y.size);
    var a :| Member(a, x) && Member(a, y);
    Pow2Order(i, j);
    Pow2Adds(j - i, i);
    NestInUnits(k, m, Pow2(j - i), x.size, y.size, a.value);
  }

  lemma MaskedIsMultiple(address: nat, size: nat)
    requires size >= 1
    ensures Masked(address, size) == Times(address / size, size)
    ensures address % size == 0 ==> Masked(address, size) == address
  {
  }

  /** What both parsers return is aligned, so the nesting law covers them; strict parsing refines loose. */
  lemma ParsedIsAligned(text: CidrText)
    ensures ParseStrict(text).Some? ==> Aligned(ParseStrict(text).value)
    ensures ParseLoose(text).Some? ==> Aligned(ParseLoose(text).value)
    ensures ParseStrict(text).Some? ==> ParseLoose(text) == ParseStrict(text)
  {
    if InRange(text) {
      MaskedIsMultiple(text.address, SizeOf(text));
      var i: nat := Width(text.v6) - text.prefix;
      assert ParseLoose(text).value.size == Pow2(i);
    }
  }

  /** How many addresses there are: 2 to the 32 and 2 to the 128. */
  function AllOf(v6: bool): nat {
    if v6 then 0x1_0000_0000_0000_0000_0000_0000_0000_0000 else 0x1_0000_0000
  }

  /** Doubling the exponent squares the power. */
  lemma Squared(n: nat, half: nat, whole: nat, square: nat)
    requires Pow2(n) == half && whole == n + n && square == half * half
    ensures Pow2(whole) == square
  {
    Pow2Adds(n, n);
  }

  lemma WidthsSpelled(v6: bool)
    ensures Pow2(Width(v6)) == AllOf(v6)
  {
    assert Pow2(4) == 16;
    Squared(4, 16, 8, 0x100);
    Squared(8, 0x100, 16, 0x1_0000);
    Squared(16, 0x1_0000, 32, 0x1_0000_0000);
    Squared(32, 0x1_0000_0000, 64, 0x1_0000_0000_0000_0000);
    Squared(64, 0x1_0000_0000_0000_0000, 128, 0x1_0000_0000_0000_0000_0000_0000_0000_0000);
  }

  /**
   What a cidr field stands for: the block of its family that holds the address written, starts at a multiple
   of its size, and is one of 2 to the prefix equal parts of all addresses. Strict parsing wants its first address.
   */
  lemma ParsedSpelled(text: CidrText)
    ensures ParseLoose(text).Some? <==>
      text.CidrText? && text.prefix <= (if text.v6 then 128 else 32) && text.address < AllOf(text.v6)
    ensures ParseLoose(text).Some? ==>
      var block := ParseLoose(text).value;
      && block.v6 == text.v6 && block.size * Pow2(text.prefix) == AllOf(text.v6)
      && Member(Address(text.v6, text.address), block) && exists k: nat :: block.base == Times(k, block.size)
    ensures ParseStrict(text).Some? <==> ParseLoose(text).Some? && ParseLoose(text).value.base == text.address
  {
    if text.CidrText? {
      WidthsSpelled(text.v6);
    }
    if InRange(text) {
      Pow2Adds(Width(text.v6) - text.prefix, text.prefix);
      ParsedIsAligned(text);
    }
  }
}
