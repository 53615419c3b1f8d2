/** Layer 4 of the decoder: a raw stream of IPv4 packets carrying UDP is
    scanned for well-formed packets, and the UDP payloads of those sent
    from 10.1.1.10 to 10.1.1.200, port 42069, are concatenated.

    The IPv4 header layout is that of section 3.1 of RFC 791: the version
    in the top four bits of byte 0, the header length in 32-bit words in
    the low four, the protocol in byte 9, the header checksum in bytes
    10-11 and the addresses in bytes 12-19. The UDP header (RFC 768) holds
    source port, destination port, length and checksum as big-endian
    16-bit words, and its checksum covers a pseudo-header of the two
    addresses, a zero byte, the protocol and the UDP length. */
module Layer4Packets {
  import opened Bytes
  import Helpers

  /** The filter: source and destination address as their four bytes, and
      the destination port. */
  const SRC_IP: seq<byte> := [10, 1, 1, 10]
  const DST_IP: seq<byte> := [10, 1, 1, 200]
  const DST_PORT: int := 42069

  /** The IP protocol number of UDP. */
  const PROTO_UDP: int := 17

  /** A big-endian 16-bit field (`struct` format `!H`). */
  function Word16(blob: seq<byte>, at: nat): (w: int)
    requires at + 2 <= |blob|
    ensures 0 <= w < 0x1_0000
  {
    blob[at] as int * 256 + blob[at + 1]
  }

  /** The header length field, in bytes. */
  function HeaderLength(blob: seq<byte>, offset: nat): nat
    requires offset < |blob|
  {
    (blob[offset] % 16) * 4
  }

  /** An IPv4 header at `offset`: version 4, a length of at least 20 bytes
      that fits in the blob, and a header checksum equal to the checksum
      of the header with its checksum field zeroed. */
  predicate HeaderOk(blob: seq<byte>, offset: nat)
    requires offset + 20 <= |blob|
  {
    var ihl := HeaderLength(blob, offset);
    && blob[offset] / 16 == 4 && ihl >= 20 && offset + ihl <= |blob|
    && Helpers.ChecksumOf(blob[offset..offset + 10] + [0, 0] + blob[offset + 12..offset + ihl])
       == Word16(blob, offset + 10)
  }

  /** What one turn of the scan decides at an offset. */
  datatype Verdict =
    | Skip(next: nat)                      // resume scanning at `next`
    | Accept(payload: seq<byte>, next: nat) // keep `payload`, resume at `next`
    | Stop                                 // the UDP header is cut off: end the scan

  /** The pseudo-header, UDP header with zeroed checksum and zero-padded
      payload over which the UDP checksum is computed. */
  function PseudoHeader(src: seq<byte>, dst: seq<byte>, udpLen: int, udpHdr: seq<byte>, data: seq<byte>): seq<byte>
    requires 0 <= udpLen < 0x1_0000 && |udpHdr| == 8
  {
    src + dst + [0, PROTO_UDP, udpLen / 256, udpLen % 256] + udpHdr[..6] + [0, 0] + Helpers.Padded(data)
  }

  /** The UDP length field of the header at `udpStart`. */
  function UdpLength(blob: seq<byte>, udpStart: nat): int
    requires udpStart + 8 <= |blob|
  {
    Word16(blob, udpStart + 4)
  }

  /** `blob[udp_start + 8 : udp_start + udp_len]`, empty when the UDP
      length is below the header size. */
  function UdpPayload(blob: seq<byte>, udpStart: nat): seq<byte>
    requires udpStart + 8 <= |blob| && udpStart + UdpLength(blob, udpStart) <= |blob|
  {
    var udpLen := UdpLength(blob, udpStart);
    if udpLen >= 8 then blob[udpStart + 8..udpStart + udpLen] else []
  }

  /** The packet goes from the configured source to the configured
      destination address and port. */
  predicate Addressed(blob: seq<byte>, offset: nat, udpStart: nat)
    requires offset + 20 <= udpStart && udpStart + 8 <= |blob|
  {
    && blob[offset + 12..offset + 16] == SRC_IP && blob[offset + 16..offset + 20] == DST_IP
    && Word16(blob, udpStart + 2) == DST_PORT
  }

  /** A zero UDP checksum means none was sent; any other value must equal
      the checksum over the pseudo-header, the UDP header with a zero
      checksum field, and the payload. */
  predicate UdpChecksumOk(blob: seq<byte>, offset: nat, udpStart: nat)
    requires offset + 20 <= udpStart && udpStart + 8 <= |blob| && udpStart + UdpLength(blob, udpStart) <= |blob|
  {
    var udpCksum := Word16(blob, udpStart + 6);
    udpCksum == 0
    || Helpers.ChecksumOf(PseudoHeader(blob[offset + 12..offset + 16], blob[offset + 16..offset + 20],
                                       UdpLength(blob, udpStart), blob[udpStart..udpStart + 8],
                                       UdpPayload(blob, udpStart))) == udpCksum
  }

  /** The UDP part of one turn of the scan, once a valid IPv4 header of
      protocol UDP has been found at `offset` and the UDP header would
      start at `udpStart`. */
  function ExamineUdp(blob: seq<byte>, offset: nat, udpStart: nat): (v: Verdict)
    requires offset + 20 <= udpStart <= |blob|
    ensures !v.Stop? ==> offset < v.next <= |blob|
    ensures v.Stop? <==> udpStart + 8 > |blob|
    ensures v.Accept? ==>
      && udpStart + 8 <= |blob| && v.next == udpStart + UdpLength(blob, udpStart)
      && Addressed(blob, offset, udpStart) && UdpChecksumOk(blob, offset, udpStart)
      && v.payload == UdpPayload(blob, udpStart)
      && |v.payload| < v.next - offset
  {
    if udpStart + 8 > |blob| then Stop
    else
      var udpLen := UdpLength(blob, udpStart);
      var packetLen := udpStart - offset + udpLen;
      if udpLen == 0 || offset + packetLen > |blob| then Skip(offset + 1)
      else if !Addressed(blob, offset, udpStart) then Skip(offset + packetLen)
      else if !UdpChecksumOk(blob, offset, udpStart) then Skip(offset + packetLen)
      else Accept(UdpPayload(blob, udpStart), offset + packetLen)
  }

  /** One turn of the scan at `offset`. A bad header moves on by one byte;
      a valid header of another protocol is skipped whole. */
  function Examine(blob: seq<byte>, offset: nat): (v: Verdict)
    requires offset + 20 <= |blob|
    ensures !v.Stop? ==> offset < v.next <= |blob|
    ensures !HeaderOk(blob, offset) ==> v == Skip(offset + 1)
    ensures HeaderOk(blob, offset) && blob[offset + 9] != PROTO_UDP ==>
      v == Skip(offset + HeaderLength(blob, offset))
    ensures v.Accept? ==>
      var udpStart := offset + HeaderLength(blob, offset);
      && HeaderOk(blob, offset) && blob[offset + 9] == PROTO_UDP
      && udpStart + 8 <= |blob| && v.next == udpStart + UdpLength(blob, udpStart)
      && Addressed(blob, offset, udpStart) && UdpChecksumOk(blob, offset, udpStart)
      && v.payload == UdpPayload(blob, udpStart)
      && |v.payload| < v.next - offset
  {
    if !HeaderOk(blob, offset) then Skip(offset + 1)
    else if blob[offset + 9] != PROTO_UDP then Skip(offset + HeaderLength(blob, offset))
    else ExamineUdp(blob, offset, offset + HeaderLength(blob, offset))
  }

  /** The output of the scan from `offset` on. */
  function Parse(blob: seq<byte>, offset: nat): seq<byte>
    requires offset <= |blob|
    decreases |blob| - offset
  {
    if offset + 20 > |blob| then []
    else
      match Examine(blob, offset)
      case Stop => []
      case Skip(next) => Parse(blob, next)
      case Accept(payload, next) => payload + Parse(blob, next)
  }

  /** The header as the source slices it out, with its checksum field
      zeroed, is the header the validity predicate checksums. */
  lemma HeaderSlices(blob: seq<byte>, offset: nat, ihl: nat)
    requires 20 <= ihl && offset + ihl <= |blob|
    ensures var ipHdr := blob[offset..offset + ihl];
      ipHdr[..10] + [0, 0] + ipHdr[12..] == blob[offset..offset + 10] + [0, 0] + blob[offset + 12..offset + ihl]
  {
    var ipHdr := blob[offset..offset + ihl];
    assert ipHdr[..10] == blob[offset..offset + 10];
    assert ipHdr[12..] == blob[offset + 12..offset + ihl];
  }

  /** Once the version and length fields have passed, the header is valid
      exactly when the checksum `c` of the zeroed header `chkHdr` matches
      the checksum field. */
  lemma HeaderOkWhen(blob: seq<byte>, offset: nat, chkHdr: seq<byte>, c: int)
    requires offset + 20 <= |blob| && blob[offset] / 16 == 4
    requires 20 <= HeaderLength(blob, offset) && offset + HeaderLength(blob, offset) <= |blob|
    requires chkHdr == blob[offset..offset + 10] + [0, 0] + blob[offset + 12..offset + HeaderLength(blob, offset)]
    requires c == Helpers.ChecksumOf(chkHdr)
    ensures HeaderOk(blob, offset) <==> c == Word16(blob, offset + 10)
  {
  }

  /** The header checks of one turn of the loop, in the order the source
      makes them: version and length first, then the header checksum and
      the protocol. */
  method CheckHeader(blob: seq<byte>, offset: nat) returns (v: Verdict)
    requires offset + 20 <= |blob|
    ensures v == Examine(blob, offset)
  {
    var blobLen := |blob|;
    var firstByte := blob[offset];
    var version := firstByte / 16;
    var ihl := (firstByte % 16) * 4;
    if version != 4 || ihl < 20 || offset + ihl > blobLen {
      assert !HeaderOk(blob, offset);
      return Skip(offset + 1);
    }
    assert ihl == HeaderLength(blob, offset);
    v := CheckChecksum(blob, offset, ihl);
  }

  /** The header sliced out at `offset`, with its checksum field zeroed,
      and the checksum field's value. */
  method ZeroedHeader(blob: seq<byte>, offset: nat, ihl: nat) returns (chkHdr: seq<byte>, hdrCksum: int)
    requires 20 <= ihl && offset + ihl <= |blob|
    ensures chkHdr == blob[offset..offset + 10] + [0, 0] + blob[offset + 12..offset + ihl]
    ensures hdrCksum == Word16(blob, offset + 10)
  {
    var ipHdr := blob[offset..offset + ihl];
    hdrCksum := ipHdr[10] as int * 256 + ipHdr[11];
    chkHdr := ipHdr[..10] + [0, 0] + ipHdr[12..];
    HeaderSlices(blob, offset, ihl);
  }

  /** The checksum and protocol checks, once the version and length
      fields have passed. */
  method CheckChecksum(blob: seq<byte>, offset: nat, ihl: nat) returns (v: Verdict)
    requires offset + 20 <= |blob| && blob[offset] / 16 == 4
    requires ihl == HeaderLength(blob, offset) && 20 <= ihl && offset + ihl <= |blob|
    ensures v == Examine(blob, offset)
  {
    var chkHdr, hdrCksum := ZeroedHeader(blob, offset, ihl);
    var c := Helpers.Checksum(chkHdr);
    HeaderOkWhen(blob, offset, chkHdr, c);
    if c != hdrCksum {
      return Skip(offset + 1);
    }
    v := CheckProtocol(blob, offset, ihl);
  }

  /** The protocol check of a valid header: other protocols are skipped
      whole, UDP goes on to the UDP checks. */
  method CheckProtocol(blob: seq<byte>, offset: nat, ihl: nat) returns (v: Verdict)
    requires offset + 20 <= |blob| && HeaderOk(blob, offset) && ihl == HeaderLength(blob, offset)
    ensures v == Examine(blob, offset)
  {
    var ipHdr := blob[offset..offset + ihl];
    var proto := ipHdr[9];
    assert proto == blob[offset + 9];
    if proto != PROTO_UDP {
      return Skip(offset + ihl);
    }
    v := CheckUdp(blob, offset, offset + ihl);
  }

  /** The UDP checks of one turn of the loop, in the order the source
      makes them. */
  method CheckUdp(blob: seq<byte>, offset: nat, udpStart: nat) returns (v: Verdict)
    requires offset + 20 <= udpStart <= |blob|
    ensures v == ExamineUdp(blob, offset, udpStart)
  {
    var blobLen := |blob|;
    var ihl := udpStart - offset;
    if udpStart + 8 > blobLen {
      return Stop;
    }
    var src, dst := blob[offset + 12..offset + 16], blob[offset + 16..offset + 20];
    var udpHdr := blob[udpStart..udpStart + 8];
    var dstPort := udpHdr[2] as int * 256 + udpHdr[3];
    var udpLen := udpHdr[4] as int * 256 + udpHdr[5];
    var udpCksum := udpHdr[6] as int * 256 + udpHdr[7];
    assert dstPort == Word16(blob, udpStart + 2) && udpLen == Word16(blob, udpStart + 4);
    assert udpCksum == Word16(blob, udpStart + 6);
    var packetLen := ihl + udpLen;
    if packetLen <= ihl || offset + packetLen > blobLen {
      return Skip(offset + 1);
    }
    var data := if udpLen >= 8 then blob[udpStart + 8..udpStart + udpLen] else [];
    assert data == UdpPayload(blob, udpStart);
    if src != SRC_IP || dst != DST_IP || dstPort != DST_PORT {
      assert !Addressed(blob, offset, udpStart);
      return Skip(offset + packetLen);
    }
    assert Addressed(blob, offset, udpStart);
    var udpData := if |data| % 2 == 0 then data else data + [0];
    var pseudoHdr := src + dst + [0, PROTO_UDP, udpLen / 256, udpLen % 256] + udpHdr[..6] + [0, 0] + udpData;
    assert pseudoHdr == PseudoHeader(src, dst, udpLen, udpHdr, data);
    if udpCksum != 0 {
      var u := Helpers.Checksum(pseudoHdr);
      if u != udpCksum {
        assert !UdpChecksumOk(blob, offset, udpStart);
        return Skip(offset + packetLen);
      }
    }
    assert UdpChecksumOk(blob, offset, udpStart);
    return Accept(data, offset + packetLen);
  }

  /** `parse_packets`: the scan loop. A rejected header moves the offset on,
      a kept payload is appended, and a cut-off UDP header ends the scan. */
  method ParsePackets(blob: seq<byte>) returns (output: seq<byte>)
    ensures output == Parse(blob, 0)
  {
    var offset := 0;
    output := [];
    var blobLen := |blob|;
    while offset + 20 <= blobLen
      invariant offset <= |blob|
      invariant output + Parse(blob, offset) == Parse(blob, 0)
      decreases |blob| - offset
    {
      var v := CheckHeader(blob, offset);
      match v
      case Stop =>
        assert output == Parse(blob, 0);
        return;
      case Skip(next) =>
        offset := next;
      case Accept(data, next) =>
        output := output + data;
        offset := next;
    }
  }

  // ---------------------------------------------------------------------
  // Properties of the scan
  // ---------------------------------------------------------------------

  /** The output is never longer than what is left of the blob: each kept
      payload lies inside its packet, and the scan resumes past it. */
  lemma {:induction false} ParseLength(blob: seq<byte>, offset: nat)
    requires offset <= |blob|
    ensures |Parse(blob, offset)| <= |blob| - offset
    decreases |blob| - offset
  {
    if offset + 20 <= |blob| {
      match Examine(blob, offset)
      case Stop =>
      case Skip(next) => ParseLength(blob, next);
      case Accept(payload, next) => ParseLength(blob, next);
    }
  }

  /** A stream of zero bytes holds no packet: version 0 is rejected
      everywhere. */
  lemma {:induction false} ZerosGiveNothing(n: nat, offset: nat)
    requires offset <= n
    ensures Parse(seq(n, _ => 0), offset) == []
    decreases n - offset
  {
    if offset + 20 <= n {
      assert Examine(seq(n, _ => 0), offset) == Skip(offset + 1);
      ZerosGiveNothing(n, offset + 1);
    }
  }

  lemma EmptyAndZeros()
    ensures Parse([], 0) == []
    ensures Parse(seq(100, _ => 0), 0) == []
  {
    ZerosGiveNothing(100, 0);
  }

  // ---------------------------------------------------------------------
  // A packet built to match the filter
  // ---------------------------------------------------------------------

  /** An IPv4 header of 20 bytes (identification 0x1234, TTL 64, UDP)
      whose checksum field is still zero. */
  function RawHeader(ipLen: int): (h: seq<byte>)
    requires 0 <= ipLen < 0x1_0000
    ensures |h| == 20
  {
    [0x45, 0, ipLen / 256, ipLen % 256, 0x12, 0x34, 0, 0, 64, PROTO_UDP, 0, 0] + SRC_IP + DST_IP
  }

  /** The 20-byte IPv4 header of a matching packet, its checksum computed
      over the header with a zero checksum field and stored in bytes
      10-11. */
  function IpHeader(ipLen: int): (h: seq<byte>)
    requires 0 <= ipLen < 0x1_0000
    ensures |h| == 20
  {
    var raw := RawHeader(ipLen);
    Helpers.ChecksumIsComplement(raw);
    var ck := Helpers.ChecksumOf(raw);
    raw[..10] + [ck / 256, ck % 256] + raw[12..]
  }

  /** The fields of the built IPv4 header at their RFC 791 positions:
      version 4 with length 20, protocol UDP, the configured addresses,
      and a checksum that matches the header with the field zeroed. */
  lemma IpHeaderFields(ipLen: int)
    requires 0 <= ipLen < 0x1_0000
    ensures var h := IpHeader(ipLen);
      && h[0] == 0x45 && h[9] == PROTO_UDP
      && h[..10] + [0, 0] + h[12..] == RawHeader(ipLen)
      && Word16(h, 10) == Helpers.ChecksumOf(RawHeader(ipLen))
      && h[12..16] == SRC_IP && h[16..20] == DST_IP
  {
    IpHeaderChecksum(ipLen);
    IpHeaderAddresses(ipLen);
  }

  lemma IpHeaderChecksum(ipLen: int)
    requires 0 <= ipLen < 0x1_0000
    ensures var h := IpHeader(ipLen);
      && h[0] == 0x45 && h[9] == PROTO_UDP
      && h[..10] + [0, 0] + h[12..] == RawHeader(ipLen)
      && Word16(h, 10) == Helpers.ChecksumOf(RawHeader(ipLen))
  {
    var raw := RawHeader(ipLen);
    var h := IpHeader(ipLen);
    Helpers.ChecksumIsComplement(raw);
    assert h[..10] == raw[..10] && h[12..] == raw[12..];
    assert raw[..10] + [0, 0] + raw[12..] == raw;
  }

  lemma IpHeaderAddresses(ipLen: int)
    requires 0 <= ipLen < 0x1_0000
    ensures var h := IpHeader(ipLen);
      h[12..16] == SRC_IP && h[16..20] == DST_IP
  {
    var raw := RawHeader(ipLen);
    var h := IpHeader(ipLen);
    assert h[12..] == raw[12..];
    assert raw[12..16] == SRC_IP && raw[16..20] == DST_IP;
    assert h[12..16] == raw[12..16] && h[16..20] == raw[16..20];
  }

  /** The 8-byte UDP header of a matching packet: any source port, the
      configured destination port, the given length and no checksum. */
  function UdpHeader(srcPort: int, udpLen: int): (h: seq<byte>)
    requires 0 <= srcPort < 0x1_0000 && 0 <= udpLen < 0x1_0000
    ensures |h| == 8 && Word16(h, 2) == DST_PORT && Word16(h, 4) == udpLen && Word16(h, 6) == 0
  {
    [srcPort / 256, srcPort % 256, DST_PORT / 256, DST_PORT % 256, udpLen / 256, udpLen % 256, 0, 0]
  }

  /** A matching packet with UDP checksum 0, as a sender would write it. */
  function BuildPacket(payload: seq<byte>, srcPort: int): (p: seq<byte>)
    requires |payload| + 28 < 0x1_0000 && 0 <= srcPort < 0x1_0000
    ensures |p| == 28 + |payload|
    ensures p[..20] == IpHeader(28 + |payload|) && p[20..28] == UdpHeader(srcPort, 8 + |payload|)
    ensures p[28..] == payload
  {
    IpHeader(28 + |payload|) + UdpHeader(srcPort, 8 + |payload|) + payload
  }

  /** A window of the blob that holds `p` reads like `p`. */
  lemma WindowSlice(blob: seq<byte>, o: nat, p: seq<byte>, a: nat, b: nat)
    requires o + |p| <= |blob| && blob[o..o + |p|] == p && a <= b <= |p|
    ensures blob[o + a..o + b] == p[a..b]
  {
    forall i | 0 <= i < b - a
      ensures blob[o + a..o + b][i] == p[a..b][i]
    {
      assert blob[o + a + i] == blob[o..o + |p|][a + i];
    }
  }

  /** The IPv4 fields read at `o` are those of the header `h` held there. */
  lemma IpHeaderAt(blob: seq<byte>, o: nat, h: seq<byte>)
    requires |h| == 20 && o + 20 <= |blob| && blob[o..o + 20] == h
    ensures blob[o] == h[0] && blob[o + 9] == h[9] && Word16(blob, o + 10) == Word16(h, 10)
    ensures blob[o..o + 10] == h[..10] && blob[o + 12..o + 20] == h[12..]
    ensures blob[o + 12..o + 16] == h[12..16] && blob[o + 16..o + 20] == h[16..20]
  {
    assert blob[o] == h[0] && blob[o + 9] == h[9] && blob[o + 10] == h[10] && blob[o + 11] == h[11];
    WindowSlice(blob, o, h, 0, 10);
    WindowSlice(blob, o, h, 12, 20);
    WindowSlice(blob, o, h, 12, 16);
    WindowSlice(blob, o, h, 16, 20);
  }

  /** The UDP fields read at `u` are those of the header `h` held there. */
  lemma UdpHeaderAt(blob: seq<byte>, u: nat, h: seq<byte>)
    requires |h| == 8 && u + 8 <= |blob| && blob[u..u + 8] == h
    ensures Word16(blob, u + 2) == Word16(h, 2) && Word16(blob, u + 4) == Word16(h, 4)
    ensures Word16(blob, u + 6) == Word16(h, 6)
  {
    assert blob[u + 2] == h[2] && blob[u + 3] == h[3] && blob[u + 4] == h[4];
    assert blob[u + 5] == h[5] && blob[u + 6] == h[6] && blob[u + 7] == h[7];
  }

  /** A 20-byte header with version 4, length 20 and a matching checksum
      passes the header checks wherever it sits in the stream. */
  lemma HeaderOkAt(blob: seq<byte>, o: nat, h: seq<byte>)
    requires |h| == 20 && o + 20 <= |blob| && blob[o..o + 20] == h && h[0] == 0x45
    requires Word16(h, 10) == Helpers.ChecksumOf(h[..10] + [0, 0] + h[12..])
    ensures HeaderLength(blob, o) == 20 && HeaderOk(blob, o) && blob[o + 9] == h[9]
  {
    IpHeaderAt(blob, o, h);
    assert blob[o..o + 10] + [0, 0] + blob[o + 12..o + 20] == h[..10] + [0, 0] + h[12..];
  }

  /** The IPv4 header of a built packet passes the header checks wherever
      the packet sits in the stream. */
  lemma BuiltHeaderOk(blob: seq<byte>, o: nat, payload: seq<byte>, srcPort: int)
    requires |payload| + 28 < 0x1_0000 && 0 <= srcPort < 0x1_0000
    requires o + 28 + |payload| <= |blob| && blob[o..o + 28 + |payload|] == BuildPacket(payload, srcPort)
    ensures HeaderLength(blob, o) == 20 && HeaderOk(blob, o) && blob[o + 9] == PROTO_UDP
  {
    var p := BuildPacket(payload, srcPort);
    var h := IpHeader(28 + |payload|);
    IpHeaderFields(28 + |payload|);
    WindowSlice(blob, o, p, 0, 20);
    HeaderOkAt(blob, o, h);
  }

  /** The UDP part of a built packet is kept whole wherever the packet sits
      in the stream. */
  lemma BuiltUdpAccepted(blob: seq<byte>, o: nat, payload: seq<byte>, srcPort: int)
    requires |payload| + 28 < 0x1_0000 && 0 <= srcPort < 0x1_0000
    requires o + 28 + |payload| <= |blob| && blob[o..o + 28 + |payload|] == BuildPacket(payload, srcPort)
    ensures ExamineUdp(blob, o, o + 20) == Accept(payload, o + 28 + |payload|)
  {
    var p := BuildPacket(payload, srcPort);
    var h := IpHeader(28 + |payload|);
    var u := UdpHeader(srcPort, 8 + |payload|);
    IpHeaderFields(28 + |payload|);
    WindowSlice(blob, o, p, 0, 20);
    WindowSlice(blob, o, p, 20, 28);
    WindowSlice(blob, o, p, 28, |p|);
    IpHeaderAt(blob, o, h);
    UdpHeaderAt(blob, o + 20, u);
    assert Addressed(blob, o, o + 20);
    assert UdpLength(blob, o + 20) == 8 + |payload|;
    assert UdpPayload(blob, o + 20) == payload;
    assert UdpChecksumOk(blob, o, o + 20);
  }

  /** Wherever such a packet sits in the stream, the scan keeps its
      payload and resumes right after it. */
  lemma BuiltPacketAccepted(blob: seq<byte>, o: nat, payload: seq<byte>, srcPort: int)
    requires |payload| + 28 < 0x1_0000 && 0 <= srcPort < 0x1_0000
    requires o + 28 + |payload| <= |blob| && blob[o..o + 28 + |payload|] == BuildPacket(payload, srcPort)
    ensures Examine(blob, o) == Accept(payload, o + 28 + |payload|)
  {
    BuiltHeaderOk(blob, o, payload, srcPort);
    BuiltUdpAccepted(blob, o, payload, srcPort);
    assert Examine(blob, o) == ExamineUdp(blob, o, o + 20);
  }

  /** A kept payload comes first in the output of the scan from there. */
  lemma ParseAccepted(blob: seq<byte>, o: nat, payload: seq<byte>, next: nat)
    requires o + 20 <= |blob| && Examine(blob, o) == Accept(payload, next)
    ensures next <= |blob| && Parse(blob, o) == payload + Parse(blob, next)
  {
  }

  /** Both parts of a concatenation are windows of it. */
  lemma ConcatWindows(x: seq<byte>, y: seq<byte>)
    ensures (x + y)[0..|x|] == x && (x + y)[|x|..|x| + |y|] == y
  {
  }

  /** Two matching packets in a row give their payloads in order. */
  lemma TwoPackets(a: seq<byte>, portA: int, b: seq<byte>, portB: int)
    requires |a| + 28 < 0x1_0000 && 0 <= portA < 0x1_0000
    requires |b| + 28 < 0x1_0000 && 0 <= portB < 0x1_0000
    ensures Parse(BuildPacket(a, portA) + BuildPacket(b, portB), 0) == a + b
  {
    var pa, pb := BuildPacket(a, portA), BuildPacket(b, portB);
    var blob := pa + pb;
    ConcatWindows(pa, pb);
    BuiltPacketAccepted(blob, 0, a, portA);
    ParseAccepted(blob, 0, a, |pa|);
    BuiltPacketAccepted(blob, |pa|, b, portB);
    ParseAccepted(blob, |pa|, b, |blob|);
    assert Parse(blob, |blob|) == [];
    assert b + [] == b;
  }
}
