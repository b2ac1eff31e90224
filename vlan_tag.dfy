/** VLAN identifier extraction from a raw 802.1Q-tagged Ethernet frame
    (the bit manipulation at the top of the capture callback). */
module VlanTag {

  /** An `unsigned short`: the element type of the per-interface VLAN sets. */
  type u16 = x: int | 0 <= x < 0x1_0000

  /** Offset of the Tag Control Information in a tagged frame: 6 bytes of
      destination, 6 of source, 2 of TPID. */
  const TciOffset := 14

  /** Largest 12-bit VLAN identifier. */
  const MaxVid := 4095

  /** The VID as the capture callback computes it: byte 15, OR-ed with the
      low nibble of byte 14 shifted left by 8. In C++ the operands are
      promoted to `int` and only the assignment narrows to 16 bits; no bit
      above bit 11 is ever set, so computing in `bv16` gives the same value.
      The callback never checks the captured length, so the frame must
      hold at least the bytes it reads. */
  function ExtractVid(frame: seq<bv8>): (vid: u16)
    requires |frame| >= 16
    ensures vid == (frame[14] as int % 16) * 256 + frame[15] as int
    ensures 0 <= vid <= MaxVid
  {
    TciBits(frame[14], frame[15]);
    VidBits(frame[14], frame[15]) as int
  }

  /** `vlan_id = b15; vlan_id |= (((uint16_t) b14) & 15u) << 8u;` */
  function VidBits(hi: bv8, lo: bv8): bv16 {
    lo as bv16 | (((hi as bv16) & 15) << 8)
  }

  /** The OR of the callback is the arithmetic sum of the two parts,
      because their bits do not overlap. */
  lemma TciBits(hi: bv8, lo: bv8)
    ensures VidBits(hi, lo) as int == (hi as int % 16) * 256 + lo as int
  {
    var nibble := hi & 15;
    assert lo as bv16 | (((hi as bv16) & 15) << 8) == (nibble as bv16) * 256 + lo as bv16;
    assert ((nibble as bv16) * 256 + lo as bv16) as int == nibble as int * 256 + lo as int;
    NibbleIsMod(hi);
  }

  /** Two frames carry the same VID exactly when they agree on the low
      nibble of byte 14 and on byte 15: the priority (PCP) and drop
      eligible (DEI) bits and every other byte are ignored. */
  lemma SameVidIff(a: seq<bv8>, b: seq<bv8>)
    requires |a| >= 16 && |b| >= 16
    ensures ExtractVid(a) == ExtractVid(b)
            <==> (a[14] & 15 == b[14] & 15 && a[15] == b[15])
  {
    var p, q := a[14] as int % 16, b[14] as int % 16;
    var x, y := a[15] as int, b[15] as int;
    SplitTci(p, x);
    SplitTci(q, y);
    SameNibbleIff(a[14], b[14]);
    ByteEqIff(a[15], b[15]);
  }

  lemma SplitTci(nibble: int, lo: int)
    requires 0 <= nibble < 16 && 0 <= lo < 256
    ensures (nibble * 256 + lo) / 256 == nibble && (nibble * 256 + lo) % 256 == lo
  {
  }

  lemma SameNibbleIff(x: bv8, y: bv8)
    ensures x & 15 == y & 15 <==> x as int % 16 == y as int % 16
  {
    NibbleIsMod(x);
    NibbleIsMod(y);
    ByteEqIff(x & 15, y & 15);
  }

  lemma ByteEqIff(x: bv8, y: bv8)
    ensures x == y <==> x as int == y as int
  {
  }

  lemma NibbleIsMod(x: bv8)
    ensures (x & 15) as int == x as int % 16
  {
  }

  /** The Tag Control Information of clause 9.6 of IEEE 802.1Q: the 3-bit
      priority code point, the drop eligible indicator, the 12-bit VID. */
  function TagControl(pcp: bv3, dei: bool, vid: bv12): bv16 {
    ((pcp as bv16) << 13) | (if dei then 0x1000 else 0) | (vid as bv16)
  }

  /** An 802.1Q tagged frame built from its fields: addresses, TPID 0x8100,
      then the TCI, most significant byte first. */
  function TaggedFrame(addresses: seq<bv8>, pcp: bv3, dei: bool, vid: bv12, rest: seq<bv8>): (frame: seq<bv8>)
    requires |addresses| == 12
    ensures |frame| == 16 + |rest|
    ensures frame[..12] == addresses && frame[12] == 0x81 && frame[13] == 0x00
    ensures frame[16..] == rest
  {
    var tci := TagControl(pcp, dei, vid);
    addresses + [0x81, 0x00] + [(tci >> 8) as bv8, (tci & 0xFF) as bv8] + rest
  }

  /** The callback's bits of the two TCI bytes are exactly the VID field. */
  lemma VidBitsOfTagControl(pcp: bv3, dei: bool, vid: bv12)
    ensures var tci := TagControl(pcp, dei, vid);
            VidBits((tci >> 8) as bv8, (tci & 0xFF) as bv8) == vid as bv16
  {
  }

  lemma Widen12(v: bv12)
    ensures (v as bv16) as int == v as int
  {
  }

  /** Extraction inverts tagging, whatever the priority bits, the drop
      eligible bit, the addresses and the payload. */
  lemma ExtractTaggedFrame(addresses: seq<bv8>, pcp: bv3, dei: bool, vid: bv12, rest: seq<bv8>)
    requires |addresses| == 12
    ensures ExtractVid(TaggedFrame(addresses, pcp, dei, vid, rest)) == vid as int
  {
    var frame := TaggedFrame(addresses, pcp, dei, vid, rest);
    var tci := TagControl(pcp, dei, vid);
    assert frame[14] == (tci >> 8) as bv8 && frame[15] == (tci & 0xFF) as bv8;
    VidBitsOfTagControl(pcp, dei, vid);
    Widen12(vid);
  }

  /** Both ends of the 12-bit range are produced. */
  lemma VidBoundsReachable(addresses: seq<bv8>)
    requires |addresses| == 12
    ensures ExtractVid(addresses + [0x81, 0x00, 0x00, 0x00]) == 0
    ensures ExtractVid(addresses + [0x81, 0x00, 0xFF, 0xFF]) == MaxVid
  {
  }
}
