/** The IPv4/UDP parser on the capture path (src/capture.rs), paired with a
    builder: the header of section 3.1 of RFC 791 and that of RFC 768. */
module Capture {
  import opened Prelude
  import opened Whirlpool

  const UDP_PROTOCOL: byte := 17

  datatype Addr = Addr(a: byte, b: byte, c: byte, d: byte)

  datatype Filter4 = Filter4(group: Addr, ports: set<nat>)

  datatype Parsed = Parsed(payload: seq<byte>, source: Addr, sourcePort: nat, port: nat)

  function Be16(hi: byte, lo: byte): nat { hi * 256 + lo }

  /** The UDP payload, its sender and its port, if the packet is one we want. */
  function ParseUdp(buf: seq<byte>, filter: Filter4): Option<Parsed> {
    if |buf| < 20 then None
    else if buf[0] / 16 != 4 then None
    else if buf[9] != UDP_PROTOCOL then None
    else if Be16(buf[6], buf[7]) % 0x2000 != 0 then None
    else if Addr(buf[16], buf[17], buf[18], buf[19]) != filter.group then None
    else
      var ihl := (buf[0] % 16) * 4;
      if ihl < 20 || |buf| < ihl + 8 then None else
        var totalLen := Be16(buf[2], buf[3]);
        var end := Min(totalLen, |buf|);
        if end < ihl + 8 then None else
          var sourcePort := Be16(buf[ihl], buf[ihl + 1]);
          var port := Be16(buf[ihl + 2], buf[ihl + 3]);
          if port !in filter.ports then None else
            Some(Parsed(buf[ihl + 8..end], Addr(buf[12], buf[13], buf[14], buf[15]), sourcePort, port))
  }

  // ----- the builder -----

  /** Every field of the two headers the parser does not compute. `flags` is the
      top three bits beside the fragment offset, so "more fragments" is in it. */
  datatype Header = Header(
    words: nat, tos: byte, ident: (byte, byte), flags: nat, fragment: nat, ttl: byte, protocol: byte,
    checksum: (byte, byte), source: Addr, target: Addr, options: seq<byte>,
    sourcePort: nat, port: nat, udpLength: (byte, byte), udpChecksum: (byte, byte))

  predicate WellFormed(h: Header, payload: seq<byte>) {
    && 5 <= h.words <= 15 && |h.options| == h.words * 4 - 20
    && h.flags < 8 && h.fragment < 0x2000 && h.sourcePort < 0x1_0000 && h.port < 0x1_0000
    && TotalLen(h, payload) < 0x1_0000
  }

  function TotalLen(h: Header, payload: seq<byte>): nat { h.words * 4 + 8 + |payload| }

  function Hi(n: nat): byte
    requires n < 0x1_0000
  {
    n / 256
  }

  function Lo(n: nat): byte { n % 256 }

  function FixedBytes(h: Header, total: nat, fragment: nat): (r: seq<byte>)
    requires h.words < 16 && total < 0x1_0000 && fragment < 0x1_0000
    ensures |r| == 20
  {
    [64 + h.words, h.tos, Hi(total), Lo(total),
     h.ident.0, h.ident.1, Hi(fragment), Lo(fragment),
     h.ttl, h.protocol, h.checksum.0, h.checksum.1,
     h.source.a, h.source.b, h.source.c, h.source.d,
     h.target.a, h.target.b, h.target.c, h.target.d]
  }

  function FixedHeader(h: Header, payload: seq<byte>): (r: seq<byte>)
    requires WellFormed(h, payload)
    ensures |r| == 20
  {
    FixedBytes(h, TotalLen(h, payload), h.flags * 0x2000 + h.fragment)
  }

  function UdpHeader(h: Header): (r: seq<byte>)
    requires h.sourcePort < 0x1_0000 && h.port < 0x1_0000
    ensures |r| == 8
  {
    [Hi(h.sourcePort), Lo(h.sourcePort), Hi(h.port), Lo(h.port),
     h.udpLength.0, h.udpLength.1, h.udpChecksum.0, h.udpChecksum.1]
  }

  function Build(h: Header, payload: seq<byte>): (r: seq<byte>)
    requires WellFormed(h, payload)
    ensures |r| == TotalLen(h, payload)
  {
    FixedHeader(h, payload) + h.options + UdpHeader(h) + payload
  }

  lemma BytesOf16(n: nat)
    requires n < 0x1_0000
    ensures Be16(Hi(n), Lo(n)) == n
  {
  }

  lemma FragmentField(h: Header)
    requires h.flags < 8 && h.fragment < 0x2000
    ensures h.flags * 0x2000 + h.fragment < 0x1_0000
    ensures (h.flags * 0x2000 + h.fragment) % 0x2000 == h.fragment
  {
  }

  /** Where each part of a built packet, padded or not, is found. */
  lemma BuiltParts(h: Header, payload: seq<byte>, pad: seq<byte>)
    requires WellFormed(h, payload)
    ensures var (buf, ihl) := (Build(h, payload) + pad, h.words * 4);
            && |buf| == ihl + 8 + |payload| + |pad|
            && buf[..20] == FixedHeader(h, payload)
            && buf[ihl..ihl + 8] == UdpHeader(h)
            && buf[ihl + 8..ihl + 8 + |payload|] == payload
  {
  }

  /** Round trip, for every header length, option bytes, flags, payload up to
      the 16-bit total length, and trailing padding: a built packet parses to
      exactly what was put in when it is unfragmented UDP for the group and a
      port of the filter, and to nothing otherwise. The flags do not matter: a
      first fragment passes. */
  lemma ParseOfBuilt(h: Header, payload: seq<byte>, pad: seq<byte>, filter: Filter4)
    requires WellFormed(h, payload)
    ensures ParseUdp(Build(h, payload) + pad, filter)
         == if h.protocol == UDP_PROTOCOL && h.fragment == 0 && h.target == filter.group && h.port in filter.ports
            then Some(Parsed(payload, h.source, h.sourcePort, h.port)) else None
  {
    var (buf, ihl) := (Build(h, payload) + pad, h.words * 4);
    BuiltParts(h, payload, pad);
    FragmentField(h);
    BytesOf16(TotalLen(h, payload));
    BytesOf16(h.flags * 0x2000 + h.fragment);
    BytesOf16(h.sourcePort);
    BytesOf16(h.port);
    var fixed := FixedHeader(h, payload);
    assert forall i :: 0 <= i < 20 ==> buf[i] == fixed[i] by {
      assert forall i :: 0 <= i < 20 ==> buf[i] == buf[..20][i];
    }
    var udp := UdpHeader(h);
    assert buf[ihl] == udp[0] && buf[ihl + 1] == udp[1] && buf[ihl + 2] == udp[2] && buf[ihl + 3] == udp[3] by {
      var slice := buf[ihl..ihl + 8];
      assert slice[0] == buf[ihl] && slice[1] == buf[ihl + 1] && slice[2] == buf[ihl + 2] && slice[3] == buf[ihl + 3];
    }
    assert (64 + h.words) / 16 == 4 && (64 + h.words) % 16 == h.words;
  }

  /** A first fragment: offset zero, and the "more fragments" bit set. */
  const FIRST_FRAGMENT: Header :=
    Header(5, 0, (0, 1), 1, 0, 64, UDP_PROTOCOL, (0, 0), Addr(10, 0, 0, 1), Addr(239, 0, 0, 1), [],
           8_000, 8_001, (0, 100), (0, 0))

  /** It is accepted, though the rest of its datagram is still to come. */
  lemma FirstFragmentPasses()
    ensures ParseUdp(Build(FIRST_FRAGMENT, [1, 2, 3, 4]), Filter4(Addr(239, 0, 0, 1), {8_001}))
         == Some(Parsed([1, 2, 3, 4], Addr(10, 0, 0, 1), 8_000, 8_001))
  {
    ParseOfBuilt(FIRST_FRAGMENT, [1, 2, 3, 4], [], Filter4(Addr(239, 0, 0, 1), {8_001}));
    assert Build(FIRST_FRAGMENT, [1, 2, 3, 4]) + [] == Build(FIRST_FRAGMENT, [1, 2, 3, 4]);
  }

  /** Bytes after the IP total length never change the result. */
  lemma PaddingIsIgnored(buf: seq<byte>, pad: seq<byte>, filter: Filter4)
    requires |buf| >= 4 && Be16(buf[2], buf[3]) <= |buf|
    ensures ParseUdp(buf + pad, filter) == ParseUdp(buf, filter)
  {
    assert forall i :: 0 <= i < |buf| ==> (buf + pad)[i] == buf[i];
    if |buf| >= 20 {
      var ihl, total := (buf[0] % 16) * 4, Be16(buf[2], buf[3]);
      if ihl + 8 <= total {
        assert (buf + pad)[ihl + 8..total] == buf[ihl + 8..total];
      }
    }
  }

  // ----- and back: everything accepted is a built packet -----

  /** The header a packet carries. */
  function HeaderOf(buf: seq<byte>): Header
    requires |buf| >= 20 && 20 <= (buf[0] % 16) * 4 && (buf[0] % 16) * 4 + 8 <= |buf|
  {
    var ihl := (buf[0] % 16) * 4;
    Header(
      buf[0] % 16, buf[1], (buf[4], buf[5]), Be16(buf[6], buf[7]) / 0x2000, Be16(buf[6], buf[7]) % 0x2000,
      buf[8], buf[9], (buf[10], buf[11]),
      Addr(buf[12], buf[13], buf[14], buf[15]), Addr(buf[16], buf[17], buf[18], buf[19]), buf[20..ihl],
      Be16(buf[ihl], buf[ihl + 1]), Be16(buf[ihl + 2], buf[ihl + 3]),
      (buf[ihl + 4], buf[ihl + 5]), (buf[ihl + 6], buf[ihl + 7]))
  }

  lemma SplitBe16(hi: byte, lo: byte)
    ensures Be16(hi, lo) < 0x1_0000 && Hi(Be16(hi, lo)) == hi && Lo(Be16(hi, lo)) == lo
  {
  }

  lemma FlagsAndOffset(n: nat)
    requires n < 0x1_0000
    ensures n / 0x2000 < 8 && (n / 0x2000) * 0x2000 + n % 0x2000 == n
  {
  }

  predicate Whole(buf: seq<byte>) {
    && |buf| >= 20 && 20 <= (buf[0] % 16) * 4
    && (buf[0] % 16) * 4 + 8 <= Be16(buf[2], buf[3]) <= |buf|
  }

  function PayloadOf(buf: seq<byte>): seq<byte>
    requires Whole(buf)
  {
    buf[(buf[0] % 16) * 4 + 8..Be16(buf[2], buf[3])]
  }

  lemma HeaderIsWellFormed(buf: seq<byte>)
    requires Whole(buf)
    ensures WellFormed(HeaderOf(buf), PayloadOf(buf))
    ensures TotalLen(HeaderOf(buf), PayloadOf(buf)) == Be16(buf[2], buf[3])
    ensures HeaderOf(buf).flags * 0x2000 + HeaderOf(buf).fragment == Be16(buf[6], buf[7])
  {
    var ihl := (buf[0] % 16) * 4;
    SplitBe16(buf[2], buf[3]);
    SplitBe16(buf[6], buf[7]);
    FlagsAndOffset(Be16(buf[6], buf[7]));
    SplitBe16(buf[ihl], buf[ihl + 1]);
    SplitBe16(buf[ihl + 2], buf[ihl + 3]);
  }

  lemma FixedBytesReadBack(buf: seq<byte>)
    requires Whole(buf) && buf[0] / 16 == 4
    ensures Be16(buf[2], buf[3]) < 0x1_0000 && Be16(buf[6], buf[7]) < 0x1_0000
    ensures FixedBytes(HeaderOf(buf), Be16(buf[2], buf[3]), Be16(buf[6], buf[7])) == buf[..20]
  {
    SplitBe16(buf[2], buf[3]);
    SplitBe16(buf[6], buf[7]);
    assert 64 + buf[0] % 16 == buf[0];
    FirstTwenty(buf);
  }

  lemma FixedHeaderReadsBack(buf: seq<byte>)
    requires Whole(buf) && buf[0] / 16 == 4
    ensures WellFormed(HeaderOf(buf), PayloadOf(buf))
    ensures FixedHeader(HeaderOf(buf), PayloadOf(buf)) == buf[..20]
  {
    HeaderIsWellFormed(buf);
    FixedBytesReadBack(buf);
    FixedIsBytes(HeaderOf(buf), PayloadOf(buf), Be16(buf[2], buf[3]), Be16(buf[6], buf[7]));
  }

  lemma FixedIsBytes(h: Header, payload: seq<byte>, total: nat, fragment: nat)
    requires WellFormed(h, payload)
    requires total == TotalLen(h, payload) && fragment == h.flags * 0x2000 + h.fragment
    ensures fragment < 0x1_0000 && FixedHeader(h, payload) == FixedBytes(h, total, fragment)
  {
  }

  lemma FirstTwenty(buf: seq<byte>)
    requires |buf| >= 20
    ensures buf[..20] == [buf[0], buf[1], buf[2], buf[3], buf[4], buf[5], buf[6], buf[7], buf[8], buf[9],
                          buf[10], buf[11], buf[12], buf[13], buf[14], buf[15], buf[16], buf[17], buf[18], buf[19]]
  {
  }

  lemma EightFrom(buf: seq<byte>, i: nat)
    requires i + 8 <= |buf|
    ensures buf[i..i + 8]
             == [buf[i], buf[i + 1], buf[i + 2], buf[i + 3], buf[i + 4], buf[i + 5], buf[i + 6], buf[i + 7]]
  {
  }

  lemma UdpHeaderReadsBack(buf: seq<byte>)
    requires Whole(buf)
    ensures HeaderOf(buf).sourcePort < 0x1_0000 && HeaderOf(buf).port < 0x1_0000
    ensures UdpHeader(HeaderOf(buf)) == buf[(buf[0] % 16) * 4..(buf[0] % 16) * 4 + 8]
  {
    var ihl := (buf[0] % 16) * 4;
    SplitBe16(buf[ihl], buf[ihl + 1]);
    SplitBe16(buf[ihl + 2], buf[ihl + 3]);
    EightFrom(buf, ihl);
  }

  lemma Reassembled(buf: seq<byte>, ihl: nat, total: nat)
    requires 20 <= ihl && ihl + 8 <= total <= |buf|
    ensures buf == buf[..20] + buf[20..ihl] + buf[ihl..ihl + 8] + buf[ihl + 8..total] + buf[total..]
  {
  }

  /** What is accepted, and is not cut short of its own total length, is exactly
      some built packet followed by padding: no byte is invented or lost. */
  lemma AcceptedWasBuilt(buf: seq<byte>, filter: Filter4)
    requires ParseUdp(buf, filter).Some? && Be16(buf[2], buf[3]) <= |buf|
    ensures Whole(buf) && WellFormed(HeaderOf(buf), PayloadOf(buf))
    ensures ParseUdp(buf, filter).value.payload == PayloadOf(buf)
    ensures var h := HeaderOf(buf);
            && h.protocol == UDP_PROTOCOL && h.fragment == 0 && h.target == filter.group && h.port in filter.ports
            && buf == Build(h, PayloadOf(buf)) + buf[Be16(buf[2], buf[3])..]
  {
    FixedHeaderReadsBack(buf);
    UdpHeaderReadsBack(buf);
    Reassembled(buf, (buf[0] % 16) * 4, Be16(buf[2], buf[3]));
  }

  // ----- packets cut short of their own total length -----

  /** Cutting a packet anywhere past its headers leaves the verdict, the sender
      and the port as they were and cuts the payload there; cutting it earlier
      leaves nothing to accept. */
  lemma CutParses(buf: seq<byte>, n: nat, filter: Filter4)
    requires 20 <= |buf| && 20 <= (buf[0] % 16) * 4 && n <= |buf|
    ensures var (whole, headers) := (ParseUdp(buf, filter), (buf[0] % 16) * 4 + 8);
            ParseUdp(buf[..n], filter) ==
              if whole.None? || n < headers then None
              else Some(whole.value.(payload := whole.value.payload[..Min(|whole.value.payload|, n - headers)]))
  {
    var (cut, headers, total) := (buf[..n], (buf[0] % 16) * 4 + 8, Be16(buf[2], buf[3]));
    assert forall i :: 0 <= i < n ==> cut[i] == buf[i];
    if headers <= n && headers <= total {
      var end := Min(total, n);
      assert cut[headers..end] == buf[headers..Min(total, |buf|)][..end - headers];
    }
  }

  /** What is accepted although it is cut short is the beginning of some built
      packet that is wanted, with as much of its payload as arrived. */
  lemma AcceptedWasCut(buf: seq<byte>, filter: Filter4) returns (h: Header, payload: seq<byte>)
    requires ParseUdp(buf, filter).Some? && |buf| < Be16(buf[2], buf[3])
    ensures WellFormed(h, payload) && |buf| < TotalLen(h, payload)
    ensures h.protocol == UDP_PROTOCOL && h.fragment == 0 && h.target == filter.group && h.port in filter.ports
    ensures h.words * 4 + 8 <= |buf| && buf == Build(h, payload)[..|buf|]
    ensures ParseUdp(buf, filter).value == Parsed(payload[..|buf| - h.words * 4 - 8], h.source, h.sourcePort, h.port)
  {
    var missing: seq<byte> := seq(Be16(buf[2], buf[3]) - |buf|, i => 0);
    var whole := buf + missing;
    assert forall i :: 0 <= i < |buf| ==> whole[i] == buf[i];
    assert whole[..|buf|] == buf;
    CutParses(whole, |buf|, filter);
    AcceptedWasBuilt(whole, filter);
    h, payload := HeaderOf(whole), PayloadOf(whole);
    assert whole == Build(h, payload) by {
      assert whole[Be16(whole[2], whole[3])..] == [];
    }
    ParseOfBuilt(h, payload, [], filter);
    assert Build(h, payload) + [] == whole;
  }
}
