/** Packets as the receive hook sees them: the outer Ethernet destination and the bytes from the
    IP header on, with the fixed offsets of an IPv4/UDP/VXLAN encapsulation. */
module Packets {
  import opened Wrappers
  import opened Integers

  /** Byte order of the machine that runs the kernel module and the command-line tool. */
  datatype Host = LittleEndian | BigEndian

  const ETH_ALEN := 6
  type Mac = s: seq<U8> | |s| == 6 witness [U8(0), U8(0), U8(0), U8(0), U8(0), U8(0)]
  const ZERO_MAC: Mac := [U8(0), U8(0), U8(0), U8(0), U8(0), U8(0)]

  /** IP header (20), UDP header (8), VXLAN header (8) and the inner destination address (6). */
  const HEADERS := 42
  datatype RawPacket = Packet(ethDst: Mac, net: seq<U8>)
  type Packet = p: RawPacket | |p.net| >= HEADERS
    witness Packet(ZERO_MAC, seq(42, _ => U8(0)))

  function Tos(p: Packet): bv8 { p.net[1].bits }
  function InnerDst(p: Packet): Mac { p.net[36..42] }

  /** The first byte in memory of a 32-bit integer. */
  function FirstByte(host: Host, v: U32): U8 {
    match host
    case LittleEndian => U8((v.bits & 0xff) as bv8)
    case BigEndian => U8((v.bits >> 24) as bv8)
  }

  /** That byte is the low one on a little-endian host and the high one on a big-endian host. */
  lemma {:induction false} FirstByteInMemory(v: bv32)
    ensures FirstByte(LittleEndian, U32(v)).bits as bv32 == v % 0x100
    ensures FirstByte(BigEndian, U32(v)).bits as bv32 == v / 0x100_0000
  {
  }

  /** The extraction on a little-endian host: load four bytes, mask, swap (htonl), shift. */
  function LittleEndianVni(b0: bv8, b1: bv8, b2: bv8, b3: bv8): bv32 {
    var loaded := b0 as bv32 | (b1 as bv32 << 8) | (b2 as bv32 << 16) | (b3 as bv32 << 24);
    var w := loaded & 0xfffffff0;
    var swapped := ((w & 0xff) << 24) | ((w & 0xff00) << 8) | ((w >> 8) & 0xff00) | (w >> 24);
    swapped >> 8
  }

  /** The extraction on a big-endian host, where htonl does nothing. */
  function BigEndianVni(b0: bv8, b1: bv8, b2: bv8, b3: bv8): bv32 {
    var loaded := (b0 as bv32 << 24) | (b1 as bv32 << 16) | (b2 as bv32 << 8) | b3 as bv32;
    (loaded & 0xfffffff0) >> 8
  }

  /** The network identifier as the matcher extracts it. */
  function ExtractVni(host: Host, p: Packet): bv32 {
    match host
    case LittleEndian => LittleEndianVni(p.net[32].bits, p.net[33].bits, p.net[34].bits, p.net[35].bits)
    case BigEndian => BigEndianVni(p.net[32].bits, p.net[33].bits, p.net[34].bits, p.net[35].bits)
  }

  /** The VXLAN header of section 5 of RFC 7348: flags with the I bit set, 24 reserved bits, the
      24-bit network identifier, 8 reserved bits. */
  function VxlanHeader(vni: bv32, reserved: bv8): seq<U8>
    requires vni < 0x100_0000
  {
    [U8(0x08), U8(0), U8(0), U8(0),
     U8((vni >> 16) as bv8), U8(((vni >> 8) & 0xff) as bv8), U8((vni & 0xff) as bv8), U8(reserved)]
  }

  predicate Encapsulates(p: Packet, vni: bv32, reserved: bv8)
    requires vni < 0x100_0000
  {
    p.net[28..36] == VxlanHeader(vni, reserved)
  }

  /** What extraction returns for a well-formed header: the identifier itself on a big-endian
      host, the identifier without bits 16 to 19 on a little-endian one. The reserved byte is
      ignored on both. */
  lemma {:induction false} VniDecoding(host: Host, p: Packet, vni: bv32, reserved: bv8)
    requires vni < 0x100_0000 && Encapsulates(p, vni, reserved)
    ensures ExtractVni(host, p) == if host.BigEndian? then vni else vni & 0xf0_ffff
    ensures ExtractVni(host, p) == vni <==> InVniImage(host, vni)
  {
    var h := p.net[28..36];
    assert p.net[32] == h[4] && p.net[33] == h[5] && p.net[34] == h[6] && p.net[35] == h[7];
    LittleEndianBytes(vni, h[4].bits, h[5].bits, h[6].bits, reserved);
    BigEndianBytes(vni, h[4].bits, h[5].bits, h[6].bits, reserved);
    MaskedIsSame(vni);
  }

  /** On a little-endian machine identifier 0x10000 is taken for 0. */
  lemma {:induction false} VniBit16IsLost(p: Packet, reserved: bv8)
    requires Encapsulates(p, 0x1_0000, reserved)
    ensures ExtractVni(LittleEndian, p) == 0
  {
    VniDecoding(LittleEndian, p, 0x1_0000, reserved);
  }

  /** Three bytes in network order, on a little-endian host without bits 16 to 19. */
  function VniFromWire(host: Host, b0: bv8, b1: bv8, b2: bv8): bv32 {
    var vni := (b0 as bv32 << 16) | (b1 as bv32 << 8) | b2 as bv32;
    if host.BigEndian? then vni else vni & 0xf0_ffff
  }

  /** What extraction returns for any bytes whatever: bytes 32 to 34 so read. The other bytes of
      the VXLAN header are not looked at. */
  lemma {:induction false} ExtractedBytes(host: Host, p: Packet)
    ensures ExtractVni(host, p) == VniFromWire(host, p.net[32].bits, p.net[33].bits, p.net[34].bits)
  {
    if host.BigEndian? {
      AnyBytesBig(p.net[32].bits, p.net[33].bits, p.net[34].bits, p.net[35].bits);
    } else {
      AnyBytesLittle(p.net[32].bits, p.net[33].bits, p.net[34].bits, p.net[35].bits);
    }
  }

  lemma {:induction false} AnyBytesBig(b0: bv8, b1: bv8, b2: bv8, b3: bv8)
    ensures BigEndianVni(b0, b1, b2, b3) == (b0 as bv32 << 16) | (b1 as bv32 << 8) | b2 as bv32
  {
  }

  lemma {:induction false} AnyBytesLittle(b0: bv8, b1: bv8, b2: bv8, b3: bv8)
    ensures LittleEndianVni(b0, b1, b2, b3) == ((b0 as bv32 << 16) | (b1 as bv32 << 8) | b2 as bv32) & 0xf0_ffff
  {
  }

  /** Where the matched values are in a packet made of an IP header of 20 bytes, a UDP header of 8, a VXLAN
      header of 8, and an inner frame that begins with its destination and goes on in any way. */
  lemma {:induction false} Layout(p: Packet, ip: seq<U8>, udp: seq<U8>, vxlan: seq<U8>, dst: Mac, rest: seq<U8>)
    requires |ip| == 20 && |udp| == 8 && |vxlan| == 8 && p.net == ip + udp + vxlan + dst + rest
    ensures Tos(p) == ip[1].bits && InnerDst(p) == dst
    ensures p.net[32] == vxlan[4] && p.net[33] == vxlan[5] && p.net[34] == vxlan[6]
  {
    assert (ip + udp + vxlan + dst + rest)[36..42] == dst;
  }

  lemma {:induction false} LittleEndianBytes(vni: bv32, b0: bv8, b1: bv8, b2: bv8, b3: bv8)
    requires vni < 0x100_0000
    requires b0 as bv32 == vni >> 16 && b1 as bv32 == (vni >> 8) & 0xff && b2 as bv32 == vni & 0xff
    ensures LittleEndianVni(b0, b1, b2, b3) == vni & 0xf0_ffff
  {
  }

  lemma {:induction false} BigEndianBytes(vni: bv32, b0: bv8, b1: bv8, b2: bv8, b3: bv8)
    requires vni < 0x100_0000
    requires b0 as bv32 == vni >> 16 && b1 as bv32 == (vni >> 8) & 0xff && b2 as bv32 == vni & 0xff
    ensures BigEndianVni(b0, b1, b2, b3) == vni
  {
  }

  lemma {:induction false} MaskedIsSame(vni: bv32)
    requires vni < 0x100_0000
    ensures vni & 0xf0_ffff == vni <==> vni & 0x0f_0000 == 0
  {
  }

  /** The identifiers that extraction can return. */
  predicate InVniImage(host: Host, v: bv32) {
    v < 0x100_0000 && (host.LittleEndian? ==> v & 0x0f_0000 == 0)
  }

  lemma {:induction false} ExtractedVniInImage(host: Host, p: Packet)
    ensures InVniImage(host, ExtractVni(host, p))
  {
  }

  /** A frame with the given values in the four matched places. */
  function Frame(ethDst: Mac, tos: bv8, vni: bv32, indst: Mac): (p: Packet)
    requires vni < 0x100_0000
    ensures p.ethDst == ethDst && Tos(p) == tos && InnerDst(p) == indst && Encapsulates(p, vni, 0)
  {
    var front, header := [U8(0x45), U8(tos)] + seq(26, _ => U8(0)), VxlanHeader(vni, 0);
    assert (front + header + indst)[28..36] == header && (front + header + indst)[36..42] == indst;
    Packet(ethDst, front + header + indst)
  }

  /** The socket buffer of a received packet. Offsets count from the start of the buffer. */
  class SkBuff {
    const head: seq<U8>
    const data: nat
    const rxQueue: Option<bv16>
    var macHeader: Option<nat>
    var networkHeader: nat
    var rxhash: bv32

    constructor (head: seq<U8>, data: nat, rxQueue: Option<bv16>, macHeader: Option<nat>)
      ensures this.head == head && this.data == data && this.rxQueue == rxQueue
      ensures this.macHeader == macHeader && networkHeader == 0 && rxhash == 0
    {
      this.head, this.data, this.rxQueue, this.macHeader := head, data, rxQueue, macHeader;
      networkHeader, rxhash := 0, 0;
    }

    /** Enough bytes for every fixed offset the matcher uses. */
    ghost predicate Valid()
      reads `macHeader
    {
      data + HEADERS <= |head| && (macHeader.Some? ==> macHeader.value + ETH_ALEN <= |head|)
    }

    function MacOffset(): nat
      reads `macHeader
    {
      if macHeader.Some? then macHeader.value else data
    }

    /** skb_mac_header_was_set and skb_reset_mac_header: the MAC header defaults to the data. */
    method SettleMacHeader()
      requires Valid()
      modifies `macHeader
      ensures Valid() && View() == old(View())
      ensures macHeader == if old(macHeader).Some? then old(macHeader) else Some(data)
    {
      if macHeader.None? {
        macHeader := Some(data);
      }
    }

    function View(): Packet
      requires Valid()
      reads `macHeader
    {
      Packet(head[MacOffset()..MacOffset() + ETH_ALEN], head[data..])
    }

    /** The packet in the buffer: the outer destination is the six bytes at the MAC header if that is set,
        and at the data if not; the rest is what follows the data. */
    lemma {:induction false} ViewOfBytes()
      requires Valid()
      ensures macHeader.Some? ==> View().ethDst == head[macHeader.value..macHeader.value + 6]
      ensures macHeader.None? ==> View().ethDst == head[data..data + 6]
      ensures View().net == head[data..]
      ensures Tos(View()) == head[data + 1].bits && InnerDst(View()) == head[data + 36..data + 42]
    {
    }
  }
}
