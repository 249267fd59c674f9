/**
 The entry formats of the Xe-LPG page tables, as plain arithmetic. Every entry is a
 page-aligned DMA address below 2^46 plus flag bits that do not meet the address field,
 so a sum is the same word as the bitwise or in Drivers/PortedXe.
 */
module PteFormat {
  import opened Arithmetic

  const PAGE: nat := 4096
  const VA_LIMIT: nat := 0x1_0000_0000_0000
  const DMA_LIMIT: nat := 0x4000_0000_0000

  lemma PagePower()
    ensures PowerOfTwo(PAGE)
  {
    assert PowerOfTwo(8) && PowerOfTwo(64) && PowerOfTwo(512);
  }

  predicate DmaPage(address: nat) {
    address % PAGE == 0 && address < DMA_LIMIT
  }

  /** `weight` when the low bit of `n` is set. */
  function Bit(n: nat, weight: nat): nat {
    if n % 2 == 1 then weight else 0
  }

  /** The address field: bits 12..45. */
  function AddressOf(entry: nat): (r: nat) {
    entry % DMA_LIMIT / PAGE * PAGE
  }

  /** An entry with flags `low` in bits 0..11 and flags `high` above bit 45. */
  function Entry(dma: nat, low: nat, high: nat): (r: nat)
    requires DmaPage(dma) && low < PAGE
  {
    dma + low + high * DMA_LIMIT
  }

  /** The flags never meet the address field, so the address can be read back. */
  lemma EntryRoundTrip(dma: nat, low: nat, high: nat)
    requires DmaPage(dma) && low < PAGE
    ensures AddressOf(Entry(dma, low, high)) == dma
  {
    DivMod(high, dma + low, DMA_LIMIT);
    DivMod(dma / PAGE, low, PAGE);
  }

  /** A directory entry: present, writable, PAT0 and PAT1 in bits 3 and 4. */
  function EncodePde(dma: nat, pat: nat): (r: Option<nat>)
    ensures r.Some? <==> DmaPage(dma) && pat <= 3
    ensures r.Some? ==> r.value > 0
  {
    if DmaPage(dma) && pat <= 3
    then Some(Entry(dma, 3 + Bit(pat, 8) + Bit(pat / 2, 16), 0))
    else None
  }

  /** A 4 KiB leaf entry: PAT0..PAT3 in bits 3, 4, 7 and 62. */
  function EncodePte4K(dma: nat, pat: nat, writable: bool): (r: Option<nat>)
    ensures r.Some? <==> DmaPage(dma) && pat <= 15
    ensures r.Some? ==> r.value > 0
  {
    if DmaPage(dma) && pat <= 15
    then Some(Entry(dma, (if writable then 3 else 1) + Bit(pat, 8) + Bit(pat / 2, 16) + Bit(pat / 4, 128),
                    Bit(pat / 8, 0x1_0000)))
    else None
  }

  /** A GGTT entry: present, the two PAT bits in 52 and 53. */
  function EncodeGgtt(dma: nat, pat: nat): (r: Option<nat>)
    ensures r.Some? <==> DmaPage(dma) && pat <= 3
    ensures r.Some? ==> r.value > 0
  {
    if DmaPage(dma) && pat <= 3
    then Some(Entry(dma, 1, Bit(pat, 0x40) + Bit(pat / 2, 0x80)))
    else None
  }

  /** What a directory entry says: address, PAT index, present and writable. */
  function DecodePde(entry: nat): (nat, nat, bool, bool) {
    var low := entry % PAGE;
    (AddressOf(entry), low / 8 % 2 + 2 * (low / 16 % 2), low % 2 == 1, low / 2 % 2 == 1)
  }

  /** What a leaf entry says: address, PAT index, present and writable. */
  function DecodePte4K(entry: nat): (nat, nat, bool, bool) {
    var low, high := entry % PAGE, entry / DMA_LIMIT;
    (AddressOf(entry), low / 8 % 2 + 2 * (low / 16 % 2) + 4 * (low / 128 % 2) + 8 * (high / 0x1_0000 % 2),
     low % 2 == 1, low / 2 % 2 == 1)
  }

  /** What a global entry says: address, PAT index and present. */
  function DecodeGgtt(entry: nat): (nat, nat, bool) {
    var low, high := entry % PAGE, entry / DMA_LIMIT;
    (AddressOf(entry), high / 0x40 % 2 + 2 * (high / 0x80 % 2), low % 2 == 1)
  }

  lemma Fields(dma: nat, low: nat, high: nat)
    requires DmaPage(dma) && low < PAGE
    ensures Entry(dma, low, high) % PAGE == low && Entry(dma, low, high) / DMA_LIMIT == high
  {
    DivMod(high, dma + low, DMA_LIMIT);
    DivMod(dma / PAGE + high * (DMA_LIMIT / PAGE), low, PAGE);
  }

  lemma LowFlags(writable: bool, a: nat, b: nat, c: nat)
    requires a < 2 && b < 2 && c < 2
    ensures var low := (if writable then 3 else 1) + 8 * a + 16 * b + 128 * c;
            low % 2 == 1 && low / 2 % 2 == (if writable then 1 else 0) && low / 8 % 2 == a && low / 16 % 2 == b &&
            low / 128 % 2 == c
  {
  }

  /** Nothing encoded in a leaf entry is lost or confused. */
  lemma PteRoundTrip(dma: nat, pat: nat, writable: bool)
    ensures EncodePte4K(dma, pat, writable).Some? <==> DmaPage(dma) && pat <= 15
    ensures DmaPage(dma) && pat <= 15 ==>
              DecodePte4K(EncodePte4K(dma, pat, writable).value) == (dma, pat, true, writable)
  {
    if DmaPage(dma) && pat <= 15 { PteFlags(dma, pat, writable); }
  }

  lemma PteFlags(dma: nat, pat: nat, writable: bool)
    requires DmaPage(dma) && pat <= 15
    ensures DecodePte4K(EncodePte4K(dma, pat, writable).value) == (dma, pat, true, writable)
  {
    hide AddressOf, Entry;
    var low := (if writable then 3 else 1) + Bit(pat, 8) + Bit(pat / 2, 16) + Bit(pat / 4, 128);
    var high := Bit(pat / 8, 0x1_0000);
    LowFlags(writable, pat % 2, pat / 2 % 2, pat / 4 % 2);
    Fields(dma, low, high);
    EntryRoundTrip(dma, low, high);
  }

  /** Nothing encoded in a directory entry is lost or confused, and no bit above the address is set. */
  lemma PdeRoundTrip(dma: nat, pat: nat)
    ensures EncodePde(dma, pat).Some? <==> DmaPage(dma) && pat <= 3
    ensures DmaPage(dma) && pat <= 3 ==> AddressOf(EncodePde(dma, pat).value) == dma
    ensures DmaPage(dma) && pat <= 3 ==>
              DecodePde(EncodePde(dma, pat).value) == (dma, pat, true, true) && EncodePde(dma, pat).value < DMA_LIMIT
  {
    hide AddressOf;
    if DmaPage(dma) && pat <= 3 {
      var low := 3 + Bit(pat, 8) + Bit(pat / 2, 16);
      LowFlags(true, pat % 2, pat / 2 % 2, 0);
      Fields(dma, low, 0);
      EntryRoundTrip(dma, low, 0);
    }
  }

  /** Nothing encoded in a global entry is lost or confused. */
  lemma GgttRoundTrip(dma: nat, pat: nat)
    ensures EncodeGgtt(dma, pat).Some? <==> DmaPage(dma) && pat <= 3
    ensures DmaPage(dma) && pat <= 3 ==> DecodeGgtt(EncodeGgtt(dma, pat).value) == (dma, pat, true)
  {
    hide AddressOf, Entry;
    if DmaPage(dma) && pat <= 3 {
      var high := Bit(pat, 0x40) + Bit(pat / 2, 0x80);
      Fields(dma, 1, high);
      EntryRoundTrip(dma, 1, high);
    }
  }

  /** A leaf entry is its address and its named bits, and nothing else. */
  lemma PteBits(dma: nat, w: nat, p0: nat, p1: nat, p2: nat, p3: nat)
    requires DmaPage(dma) && w < 2 && p0 < 2 && p1 < 2 && p2 < 2 && p3 < 2
    ensures EncodePte4K(dma, p0 + 2 * p1 + 4 * p2 + 8 * p3, w == 1) ==
              Some(dma + 1 + 2 * w + 8 * p0 + 16 * p1 + 128 * p2 + 0x4000_0000_0000_0000 * p3)
  {
    var pat := p0 + 2 * p1 + 4 * p2 + 8 * p3;
    assert pat % 2 == p0 && pat / 2 % 2 == p1 && pat / 4 % 2 == p2 && pat / 8 % 2 == p3;
  }

  /** A directory entry is its address, present, writable and two PAT bits, and nothing else. */
  lemma PdeBits(dma: nat, p0: nat, p1: nat)
    requires DmaPage(dma) && p0 < 2 && p1 < 2
    ensures EncodePde(dma, p0 + 2 * p1) == Some(dma + 1 + 2 + 8 * p0 + 16 * p1)
  {
    var pat := p0 + 2 * p1;
    assert pat % 2 == p0 && pat / 2 % 2 == p1;
  }

  /** A global entry is its address, present and two PAT bits, and nothing else. */
  lemma GgttBits(dma: nat, p0: nat, p1: nat)
    requires DmaPage(dma) && p0 < 2 && p1 < 2
    ensures EncodeGgtt(dma, p0 + 2 * p1) ==
              Some(dma + 1 + 0x10_0000_0000_0000 * p0 + 0x20_0000_0000_0000 * p1)
  {
    var pat := p0 + 2 * p1;
    assert pat % 2 == p0 && pat / 2 % 2 == p1;
  }

  lemma PresentBit(dma: nat, low: nat, high: nat)
    requires DmaPage(dma) && low < PAGE && low % 2 == 1
    ensures Entry(dma, low, high) % 2 == 1
  {
    DivMod(dma / PAGE * (PAGE / 2) + low / 2 + high * (DMA_LIMIT / 2), 1, 2);
  }

  lemma PtePresent(dma: nat, pat: nat, writable: bool)
    requires DmaPage(dma) && pat <= 15
    ensures EncodePte4K(dma, pat, writable).value % 2 == 1
  {
    PresentBit(dma, (if writable then 3 else 1) + Bit(pat, 8) + Bit(pat / 2, 16) + Bit(pat / 4, 128),
               Bit(pat / 8, 0x1_0000));
  }
}
