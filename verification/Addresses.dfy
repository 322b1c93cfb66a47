/** Virtual addresses of 4-level paging: 48 bits, nine per table index and twelve within the page. */
module Addresses {
  import opened Common
  import opened Paging

  const HUGE_SIZE: nat := 0x20_0000
  const SPACE_SIZE: nat := 0x1_0000_0000_0000

  function Pml4Index(a: nat): nat { a / 0x80_0000_0000 % 512 }
  function PdptIndex(a: nat): nat { a / 0x4000_0000 % 512 }
  function PdIndex(a: nat): nat { a / 0x20_0000 % 512 }
  function PtIndex(a: nat): nat { a / 0x1000 % 512 }

  function VaOf(a: nat): (va: Va)
    ensures ValidVa(va)
  {
    Va(Pml4Index(a), PdptIndex(a), PdIndex(a), PtIndex(a))
  }

  /** The number of a virtual page. */
  function PageNo(va: Va): nat {
    va.i * 0x800_0000 + va.j * 0x4_0000 + va.k * 0x200 + va.l
  }

  /** The indices of an address below 2^48 name its page, and its 2 MiB chunk. */
  lemma PageOfAddress(a: nat)
    requires a < SPACE_SIZE
    ensures PageNo(VaOf(a)) == a / PAGE_SIZE
  {
    var p := a / 0x1000;
    assert a / 0x20_0000 == p / 512;
    assert a / 0x4000_0000 == p / 512 / 512;
    assert a / 0x80_0000_0000 == p / 512 / 512 / 512;
    DigitsOf(p);
  }

  /** The four digits of a page number in base 512. */
  lemma DigitsOf(p: nat)
    requires p < 0x10_0000_0000
    ensures p == p / 512 / 512 / 512 % 512 * 0x800_0000 + p / 512 / 512 % 512 * 0x4_0000 + p / 512 % 512 * 0x200 +
                 p % 512
  {
    var q := p / 512;
    var r := q / 512;
    assert p == q * 512 + p % 512 && q == r * 512 + q % 512 && r == r / 512 * 512 + r % 512;
  }

  /** Page numbers name pages uniquely, and equal chunk numbers mean equal upper indices. */
  lemma PageUnique(va: Va, vb: Va)
    requires ValidVa(va) && ValidVa(vb)
    ensures PageNo(va) == PageNo(vb) <==> va == vb
    ensures PageNo(va) / 512 == PageNo(vb) / 512 <==> va.i == vb.i && va.j == vb.j && va.k == vb.k
    ensures PageNo(va) % 512 == va.l
  {
    assert PageNo(va) / 512 == va.i * 0x4_0000 + va.j * 0x200 + va.k;
    assert PageNo(vb) / 512 == vb.i * 0x4_0000 + vb.j * 0x200 + vb.k;
  }

  lemma SamePage(a: nat)
    ensures VaOf(a / PAGE_SIZE * PAGE_SIZE) == VaOf(a)
  {
    var p := a / 0x1000;
    assert p * 0x1000 / 0x1000 == p;
    assert a / 0x20_0000 == p / 512 && p * 0x1000 / 0x20_0000 == p / 512;
    assert a / 0x4000_0000 == p / 512 / 512 && p * 0x1000 / 0x4000_0000 == p / 512 / 512;
    assert a / 0x80_0000_0000 == p / 512 / 512 / 512 && p * 0x1000 / 0x80_0000_0000 == p / 512 / 512 / 512;
  }
}
