/**
The Internet checksum of an IPv4 header (section 3.1 of RFC 791, section 1 of
RFC 1071) and the probe packet that carries it.
*/
module Checksum {
  import opened Common
  import Dns

  const U32 := 0x1_0000_0000

  /** Sum of the big-endian 16-bit words; an odd last byte is the high half of a word. */
  function WordSum(h: bytes): nat {
    if h == [] then 0
    else if |h| == 1 then U16(h[0], 0)
    else U16(h[0], h[1]) + WordSum(h[2..])
  }

  /** The 16-bit end-around-carry residue: zero only for zero, otherwise 1 to 65535. */
  function Residue(s: nat): nat {
    if s == 0 then 0 else (s - 1) % 65535 + 1
  }

  /** What the header's checksum should be. */
  function ChecksumOf(h: bytes): nat { 0xffff - Residue(WordSum(h)) }

  /** One step of the folding loop keeps the residue and strictly shrinks the sum. */
  lemma FoldKeepsResidue(s: nat)
    requires s >= 0x1_0000
    ensures var t := s % 0x1_0000 + s / 0x1_0000;
            0 < t < s && Residue(t) == Residue(s)
  {
    var hi, lo := s / 0x1_0000, s % 0x1_0000;
    assert s == 65535 * hi + (lo + hi);
    ModStep(lo + hi - 1, hi);
  }

  lemma ModStep(x: nat, k: nat)
    ensures (x + 65535 * k) % 65535 == x % 65535
  {
    if k > 0 {
      ModStep(x, k - 1);
      assert (x + 65535 * k) == (x + 65535 * (k - 1)) + 65535;
    }
  }

  /** The largest header whose word sum cannot overflow the 32-bit accumulator. */
  lemma {:induction false} WordSumBound(h: bytes)
    ensures WordSum(h) <= 65535 * ((|h| + 1) / 2)
    ensures |h| <= 131074 ==> WordSum(h) < U32
  {
    if |h| > 1 {
      WordSumBound(h[2..]);
    }
  }

  lemma {:induction false} WordSumSnoc(h: bytes, a: byte, b: byte)
    requires |h| % 2 == 0
    ensures WordSum(h + [a, b]) == WordSum(h) + U16(a, b)
  {
    if h == [] {
      assert h + [a, b] == [a, b];
    } else {
      assert (h + [a, b])[2..] == h[2..] + [a, b];
      WordSumSnoc(h[2..], a, b);
    }
  }

  lemma {:induction false} WordSumOdd(h: bytes, a: byte)
    requires |h| % 2 == 0
    ensures WordSum(h + [a]) == WordSum(h) + U16(a, 0)
  {
    if h == [] {
      assert h + [a] == [a];
    } else {
      assert (h + [a])[2..] == h[2..] + [a];
      WordSumOdd(h[2..], a);
    }
  }

  /** Folding the carries back in until none is left. */
  method FoldCarries(sum: nat) returns (r: nat)
    ensures r == Residue(sum)
  {
    r := sum;
    while r / 0x1_0000 != 0
      invariant Residue(r) == Residue(sum)
      decreases r
    {
      FoldKeepsResidue(r);
      r := r % 0x1_0000 + r / 0x1_0000;
    }
  }

  /** `ipv4_header_checksum`, for headers whose sum fits the 32-bit accumulator. */
  method Ipv4HeaderChecksum(header: bytes) returns (c: nat)
    requires |header| <= 131074
    ensures c == ChecksumOf(header) && c <= 0xffff
  {
    var sum: nat, i: nat := 0, 0;
    while i + 1 < |header|
      invariant i % 2 == 0 && i <= |header| && sum == WordSum(header[..i]) && sum < U32
    {
      assert header[..i + 2] == header[..i] + [header[i], header[i + 1]];
      WordSumSnoc(header[..i], header[i], header[i + 1]);
      WordSumBound(header[..i + 2]);
      sum := sum + U16(header[i], header[i + 1]);
      i := i + 2;
    }
    if i < |header| {
      assert header == header[..i] + [header[i]];
      WordSumOdd(header[..i], header[i]);
      WordSumBound(header);
      sum := sum + U16(header[i], 0);
    } else {
      assert header[..i] == header;
    }
    var folded := FoldCarries(sum);
    c := 0xffff - folded;
  }

  /** A header with the 16-bit field at `at` set to `c`. */
  function WithField(h: bytes, at: nat, c: nat): bytes
    requires at + 2 <= |h| && c <= 0xffff
  {
    h[..at] + [c / 256, c % 256] + h[at + 2..]
  }

  lemma {:induction false} WordSumOfField(h: bytes, at: nat, c: nat)
    requires at % 2 == 0 && at + 2 <= |h| && c <= 0xffff
    ensures WordSum(WithField(h, at, c)) == WordSum(WithField(h, at, 0)) + c
    decreases at
  {
    var x, z := WithField(h, at, c), WithField(h, at, 0);
    if at == 0 {
      assert x[2..] == z[2..] == h[2..];
    } else {
      WordSumOfField(h[2..], at - 2, c);
      assert x[2..] == WithField(h[2..], at - 2, c) && z[2..] == WithField(h[2..], at - 2, 0);
    }
  }

  /**
  Computing the checksum with its field zeroed, storing it, and computing it
  again gives zero, wherever in the header the field lies.
  */
  lemma StoredChecksumVerifies(h: bytes, at: nat)
    requires at % 2 == 0 && at + 2 <= |h|
    ensures var good := ChecksumOf(WithField(h, at, 0)); ChecksumOf(WithField(h, at, good)) == 0
  {
    var s := WordSum(WithField(h, at, 0));
    WordSumOfField(h, at, ChecksumOf(WithField(h, at, 0)));
    ResidueOfSum(s, 0xffff - Residue(s));
  }

  /** A stored field verifies only if it is that checksum, up to the two ways of writing zero. */
  lemma OnlyTheChecksumVerifies(h: bytes, at: nat, c: nat)
    requires at % 2 == 0 && at + 2 <= |h| && c <= 0xffff && ChecksumOf(WithField(h, at, c)) == 0
    ensures var good := ChecksumOf(WithField(h, at, 0));
            c == good || {c, good} == {0, 0xffff}
  {
    WordSumOfField(h, at, c);
    ResidueOfSum(WordSum(WithField(h, at, 0)), c);
  }

  /** A sum of words verifies exactly when its parts complement each other. */
  lemma ResidueOfSum(s: nat, c: nat)
    requires c <= 0xffff
    ensures Residue(s + c) == 0xffff <==>
            && s + c > 0
            && (|| c == 0xffff - Residue(s)
                || (Residue(s) == 0xffff && c == 0xffff)
                || (Residue(s) == 0 && c == 0))
  {
    if s > 0 {
      var q, r := (s - 1) / 65535, (s - 1) % 65535;
      assert s + c - 1 == (r + c) + 65535 * q;
      ModStep(r + c, q);
    }
  }

  /** A last byte without a partner counts as if a zero stood behind it. */
  lemma OddByteIsPadded(h: bytes)
    requires |h| % 2 == 1
    ensures ChecksumOf(h) == ChecksumOf(h + [0])
  {
    var k := |h| - 1;
    assert h == h[..k] + [h[k]] && h + [0] == h[..k] + [h[k], 0];
    WordSumOdd(h[..k], h[k]);
    WordSumSnoc(h[..k], h[k], 0);
  }

  /** The sum of some numbers. */
  function Words(ws: seq<nat>): nat { if ws == [] then 0 else ws[0] + Words(ws[1..]) }

  /** What is summed are the header's words in network byte order, each once. */
  lemma {:induction false} WordSumIsWords(h: bytes, ws: seq<nat>)
    requires |h| == 2 * |ws| && forall i :: 0 <= i < |ws| ==> ws[i] == h[2 * i] as int * 256 + h[2 * i + 1] as int
    ensures WordSum(h) == Words(ws)
    decreases |ws|
  {
    if ws != [] {
      assert forall i :: 0 <= i < |ws| - 1 ==>
          h[2..][2 * i] == h[2 * (i + 1)] && h[2..][2 * i + 1] == h[2 * (i + 1) + 1];
      WordSumIsWords(h[2..], ws[1..]);
    }
  }

  // ----- The data-plane probe -----

  const CLOUDFLARE: bytes := [0x63, 0x6c, 0x6f, 0x75, 0x64, 0x66, 0x6c, 0x61, 0x72, 0x65]
  const COM: bytes := [0x63, 0x6f, 0x6d]

  /** `probe_dns_query`: an A query for `cloudflare.com`. */
  function ProbeQuery(id: nat): bytes
    requires id <= 0xffff
  {
    Dns.Header(id) + Dns.Written([CLOUDFLARE, COM]) + Dns.Question(1)
  }

  lemma ProbeAsksForCloudflare(id: nat)
    requires id <= 0xffff
    ensures |ProbeQuery(id)| == 32 && Dns.Asks(ProbeQuery(id), id, [CLOUDFLARE, COM], 1)
  {
    assert |CLOUDFLARE| == 10 && |COM| == 3;
    assert [CLOUDFLARE, COM][1..] == [COM] && [COM][1..] == [];
    assert |Dns.Written([COM])| == 4 && |Dns.Written([CLOUDFLARE, COM])| == 15;
    Dns.QueryReads([CLOUDFLARE, COM], 1, id);
  }

  /** The IPv4 header of the probe with its checksum field zeroed. */
  function ProbeHeader(total: nat, ipId: nat, src: bytes): bytes
    requires total <= 0xffff && ipId <= 0xffff && |src| == 4
  {
    [0x45, 0, total / 256, total % 256, ipId / 256, ipId % 256, 0, 0, 64, 17, 0, 0] + src + [8, 8, 8, 8]
  }

  /** Storing the checksum changes no other field of the header. */
  lemma ProbeHeaderWithChecksum(total: nat, ipId: nat, src: bytes, c: nat)
    requires total <= 0xffff && ipId <= 0xffff && |src| == 4 && c <= 0xffff
    ensures var h := WithField(ProbeHeader(total, ipId, src), 10, c);
            && |h| == 20 && h[0] == 0x45 && U16(h[2], h[3]) == total && U16(h[4], h[5]) == ipId
            && h[6] == h[7] == 0 && h[8] == 64 && h[9] == 17
            && h[12..16] == src && h[16..20] == [8, 8, 8, 8]
    ensures WithField(ProbeHeader(total, ipId, src), 10, 0) == ProbeHeader(total, ipId, src)
  {
  }

  lemma ProbeLayout(header: bytes, udp: bytes, dns: bytes)
    requires |header| == 20 && |udp| == 8
    ensures var pkt := header + udp + dns;
            && pkt[..20] == header && pkt[28..] == dns
            && (forall i :: 0 <= i < 20 ==> pkt[i] == header[i])
            && (forall i :: 0 <= i < 8 ==> pkt[20 + i] == udp[i])
            && pkt[12..16] == header[12..16] && pkt[16..20] == header[16..20]
  {
  }

  /** `build_dns_probe_packet`, with its random choices as parameters. */
  method BuildDnsProbePacket(src: bytes, ipId: nat, port: nat, queryId: nat) returns (pkt: bytes)
    requires |src| == 4 && ipId <= 0xffff && 20000 <= port < 60000 && queryId <= 0xffff
    ensures |pkt| == 60 && pkt[0] == 0x45
    ensures ChecksumOf(pkt[..20]) == 0
    ensures U16(pkt[2], pkt[3]) == |pkt| && U16(pkt[24], pkt[25]) == |pkt| - 20
    ensures U16(pkt[4], pkt[5]) == ipId && pkt[6] == pkt[7] == 0 && pkt[8] == 64 && pkt[9] == 17
    ensures U16(pkt[20], pkt[21]) == port && U16(pkt[22], pkt[23]) == 53 && pkt[26] == pkt[27] == 0
    ensures pkt[12..16] == src && pkt[16..20] == [8, 8, 8, 8] && Dns.Asks(pkt[28..], queryId, [CLOUDFLARE, COM], 1)
  {
    var dns := ProbeQuery(queryId);
    ProbeAsksForCloudflare(queryId);
    var udpLen := 8 + |dns|;
    var total := 20 + udpLen;
    var header := ProbeHeader(total, ipId, src);
    var csum := Ipv4HeaderChecksum(header);
    ProbeHeaderWithChecksum(total, ipId, src, csum);
    StoredChecksumVerifies(header, 10);
    header := WithField(header, 10, csum);
    var udp := [port / 256, port % 256, 0, 53, udpLen / 256, udpLen % 256, 0, 0];
    ProbeLayout(header, udp, dns);
    pkt := header + udp + dns;
    assert pkt[20 + 0] == udp[0] && pkt[20 + 1] == udp[1] && pkt[20 + 2] == udp[2] && pkt[20 + 3] == udp[3];
    assert pkt[20 + 4] == udp[4] && pkt[20 + 5] == udp[5] && pkt[20 + 6] == udp[6] && pkt[20 + 7] == udp[7];
  }
}
