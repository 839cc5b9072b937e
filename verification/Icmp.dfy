/**
 ICMP echo proxying: session keys, identifier rewriting and checksums.  The IPv4 parser is outside this
 model; a packet arrives as its parsed header and payload, or as bytes that did not parse.
 */
module Icmp {
  import opened Wrappers
  import opened Net

  type U16 = n: int | 0 <= n < 0x1_0000

  const ECHO_REPLY: Byte := 0
  const ECHO_REQUEST: Byte := 8
  const HEADER_LEN: nat := 8
  const ICMP_PROTOCOL: Byte := 1
  const DEFAULT_IP_TTL: Byte := 64
  const FIRST_PROXY_IDENT: nat := 0x4000

  // ---------------------------------------------------------------------------
  // The Internet checksum (section 1 of RFC 1071)
  // ---------------------------------------------------------------------------

  /** The sum of the big-endian 16-bit words; an odd last byte is padded with zero. */
  function WordSum(s: seq<Byte>): nat
    decreases |s|
  {
    if |s| == 0 then 0
    else if |s| == 1 then 256 * s[0] as int
    else 256 * s[0] as int + s[1] as int + WordSum(s[2..])
  }

  /** End-around carry until the sum fits 16 bits. */
  function Fold(n: nat): (f: nat)
    ensures f < 0x1_0000
    decreases n
  {
    if n < 0x1_0000 then n else Fold(n / 0x1_0000 + n % 0x1_0000)
  }

  lemma {:induction false} FoldIsModular(n: nat)
    ensures Fold(n) % 0xFFFF == n % 0xFFFF && (Fold(n) == 0 <==> n == 0)
    decreases n
  {
    if n >= 0x1_0000 {
      var q, r := n / 0x1_0000, n % 0x1_0000;
      FoldIsModular(q + r);
      assert n == 0xFFFF * q + (q + r);
      ModAddMultiple(q + r, q);
    }
  }

  lemma ModAddMultiple(n: nat, q: nat)
    ensures (0xFFFF * q + n) % 0xFFFF == n % 0xFFFF
  {
  }

  predicate Verifies(s: seq<Byte>) {
    Fold(WordSum(s)) == 0xFFFF
  }

  /** Every byte at an even position counts 256 times, every one at an odd position once. */
  function PositionSum(s: seq<Byte>): nat {
    if s == [] then 0
    else
      var last := |s| - 1;
      PositionSum(s[..last]) + (if last % 2 == 0 then 256 else 1) * s[last] as int
  }

  lemma {:induction false} ShiftByTwo(a: Byte, b: Byte, s: seq<Byte>)
    ensures PositionSum([a, b] + s) == 256 * a as int + b as int + PositionSum(s)
  {
    var t := [a, b] + s;
    if s == [] {
      assert t == [a, b] && t[..1] == [a] && t[..1][..0] == [];
      assert PositionSum(t[..1]) == 256 * a as int;
    } else {
      var last := |s| - 1;
      ShiftByTwo(a, b, s[..last]);
      assert t[..|t| - 1] == [a, b] + s[..last] && t[|t| - 1] == s[last];
      assert (|t| - 1) % 2 == last % 2;
    }
  }

  lemma {:induction false} WordSumIsPositional(s: seq<Byte>)
    ensures WordSum(s) == PositionSum(s)
    decreases |s|
  {
    if |s| == 1 {
      assert s[..0] == [];
    } else if |s| > 1 {
      WordSumIsPositional(s[2..]);
      ShiftByTwo(s[0], s[1], s[2..]);
      assert s == [s[0], s[1]] + s[2..];
    }
  }

  /** A checksum verifies exactly if the bytes weighted by position add up to a positive multiple of 65535. */
  lemma VerifiesIsDivisible(s: seq<Byte>)
    ensures Verifies(s) <==> PositionSum(s) > 0 && PositionSum(s) % 65535 == 0
  {
    WordSumIsPositional(s);
    FoldIsModular(WordSum(s));
  }

  function SetWord(s: seq<Byte>, at: nat, w: U16): (r: seq<Byte>)
    requires at + 1 < |s|
    ensures |r| == |s|
  {
    s[at := w / 256][at + 1 := w % 256]
  }

  function GetWord(s: seq<Byte>, at: nat): U16
    requires at + 1 < |s|
  {
    256 * s[at] as int + s[at + 1] as int
  }

  /** The checksum of the message with a zero checksum field goes into that field. */
  function FillChecksum(s: seq<Byte>): (r: seq<Byte>)
    requires |s| >= 4
    ensures |r| == |s|
  {
    var zeroed := SetWord(s, 2, 0);
    SetWord(zeroed, 2, 0xFFFF - Fold(WordSum(zeroed)))
  }

  /** Filling adds the checksum to the sum of the zeroed message. */
  lemma FilledSum(s: seq<Byte>)
    requires |s| >= 4
    ensures var sum := WordSum(SetWord(s, 2, 0));
            WordSum(FillChecksum(s)) == sum + (0xFFFF - Fold(sum))
  {
  }

  lemma ComplementFolds(sum: nat)
    ensures Fold(sum + (0xFFFF - Fold(sum))) == 0xFFFF
  {
    var f := Fold(sum);
    var total := sum + (0xFFFF - f);
    FoldIsModular(sum);
    FoldIsModular(total);
    CancelModulus(sum, f);
    ZeroResidue(Fold(total));
  }

  lemma ZeroResidue(f: nat)
    requires 0 < f < 0x1_0000 && f % 0xFFFF == 0
    ensures f == 0xFFFF
  {
  }

  /** A filled checksum verifies, for messages of every length; it stands in the third and fourth byte, is all
      ones only when every other byte is zero, and nothing else changes. */
  lemma FilledVerifies(s: seq<Byte>)
    requires |s| >= 4
    ensures Verifies(FillChecksum(s))
    ensures var r := FillChecksum(s);
            && PositionSum(r) > 0 && PositionSum(r) % 65535 == 0
            && (r[2] == 255 && r[3] == 255 <==> PositionSum(s[2 := 0][3 := 0]) == 0)
            && forall i :: 0 <= i < |s| && i != 2 && i != 3 ==> r[i] == s[i]
  {
    var zeroed := SetWord(s, 2, 0);
    assert zeroed == s[2 := 0][3 := 0];
    FilledSum(s);
    ComplementFolds(WordSum(zeroed));
    VerifiesIsDivisible(FillChecksum(s));
    WordSumIsPositional(zeroed);
    FoldIsModular(WordSum(zeroed));
  }

  lemma CancelModulus(sum: nat, f: nat)
    requires f <= 0xFFFF && f % 0xFFFF == sum % 0xFFFF
    ensures (sum + (0xFFFF - f)) % 0xFFFF == 0
  {
    var q, r := sum / 0xFFFF, sum % 0xFFFF;
    assert sum == 0xFFFF * q + r;
    if f == 0xFFFF {
      assert r == 0;
    } else {
      assert sum + (0xFFFF - f) == 0xFFFF * (q + 1);
    }
    ModAddMultiple(0, q);
    ModAddMultiple(0, q + 1);
  }

  /** Filling depends on no byte of the old checksum. */
  lemma FillIgnoresOldChecksum(s: seq<Byte>, t: seq<Byte>)
    requires |s| == |t| >= 4 && s[0] == t[0] && s[1] == t[1] && s[4..] == t[4..]
    ensures FillChecksum(s) == FillChecksum(t)
  {
    forall i | 4 <= i < |s| ensures s[i] == t[i] {
      assert s[i] == s[4..][i - 4] && t[i] == t[4..][i - 4];
    }
    assert SetWord(s, 2, 0) == SetWord(t, 2, 0);
  }

  // ---------------------------------------------------------------------------
  // Keys
  // ---------------------------------------------------------------------------

  datatype Ipv4Packet = Ipv4Packet(src: Ipv4Addr, dst: Ipv4Addr, protocol: Byte, hopLimit: Byte, payload: seq<Byte>)

  datatype SessionKey = SessionKey(client: Ipv4Addr, target: Ipv4Addr, kind: Byte, code: Byte, identifier: Option<U16>)

  datatype Error = Malformed | NotIcmp | IdentMismatch

  /** Only echo messages with a full header carry an identifier. */
  function ExtractIdentifier(payload: seq<Byte>): Option<U16> {
    if |payload| < HEADER_LEN then None
    else if payload[0] == ECHO_REPLY || payload[0] == ECHO_REQUEST then Some(GetWord(payload, 4))
    else None
  }

  function ParseInbound(packet: Option<Ipv4Packet>): Result<SessionKey, Error> {
    match packet
    case None => Err(Malformed)
    case Some(p) =>
      if p.protocol != ICMP_PROTOCOL then Err(NotIcmp)
      else if |p.payload| < 4 then Err(Malformed)
      else Ok(SessionKey(p.src, p.dst, p.payload[0], p.payload[1], ExtractIdentifier(p.payload)))
  }

  // ---------------------------------------------------------------------------
  // Rewriting
  // ---------------------------------------------------------------------------

  function RewriteRequest(payload: seq<Byte>, proxyIdent: U16): Result<seq<Byte>, Error> {
    if |payload| < HEADER_LEN then Err(Malformed)
    else if payload[0] != ECHO_REQUEST then Ok(payload)
    else Ok(FillChecksum(SetWord(payload, 4, proxyIdent)))
  }

  function RewriteReply(payload: seq<Byte>, originalIdent: Option<U16>, proxyIdent: U16): Result<seq<Byte>, Error> {
    if |payload| < HEADER_LEN then Err(Malformed)
    else if payload[0] != ECHO_REPLY then Ok(payload)
    else if GetWord(payload, 4) != proxyIdent then Err(IdentMismatch)
    else Ok(FillChecksum(SetWord(payload, 4, if originalIdent.Some? then originalIdent.value else proxyIdent)))
  }

  /** The ICMP message in what the raw socket returned: behind an ICMP header if there is one, or bare. */
  function MessageOf(header: Option<Ipv4Packet>, bytes: seq<Byte>): seq<Byte> {
    if header.Some? && header.value.protocol == ICMP_PROTOCOL then header.value.payload else bytes
  }

  /** The packet sent back to the client: from the target, with the reply's hop limit if it came with
      an ICMP header in front and the default one otherwise. */
  function BuildReplyPacket(
    client: Ipv4Addr, target: Ipv4Addr, header: Option<Ipv4Packet>, bytes: seq<Byte>, originalIdent: Option<U16>, proxyIdent: U16)
    : Result<Ipv4Packet, Error>
  {
    var withHeader := header.Some? && header.value.protocol == ICMP_PROTOCOL;
    match RewriteReply(MessageOf(header, bytes), originalIdent, proxyIdent)
    case Err(e) => Err(e)
    case Ok(payload) =>
      Ok(Ipv4Packet(target, client, ICMP_PROTOCOL, if withHeader then header.value.hopLimit else DEFAULT_IP_TTL, payload))
  }

  /** The reply a host owes to an echo request (RFC 792): the same message as an echo reply. */
  function EchoReplyTo(request: seq<Byte>): seq<Byte>
    requires |request| >= HEADER_LEN
  {
    FillChecksum(request[0 := ECHO_REPLY])
  }

  /** `reply` answers `request`: type changed, everything but the checksum field returned. */
  predicate Answers(reply: seq<Byte>, request: seq<Byte>) {
    && |reply| == |request| >= HEADER_LEN
    && reply[0] == ECHO_REPLY && reply[1] == request[1]
    && reply[4..] == request[4..]
  }

  /** Which packets the dispatcher accepts, and the key it files them under: protocol 1 with at least four
      bytes, by source, destination, type, code and, for echo messages with a full header, the identifier in
      the fifth and sixth byte. */
  lemma KeyOfPacket(packet: Option<Ipv4Packet>)
    ensures ParseInbound(packet).Ok? <==> packet.Some? && packet.value.protocol == 1 && |packet.value.payload| >= 4
    ensures ParseInbound(packet).Err? ==>
              ParseInbound(packet).error == if packet.Some? && packet.value.protocol != 1 then NotIcmp else Malformed
    ensures ParseInbound(packet).Ok? ==>
              var p, key := packet.value, ParseInbound(packet).value;
              && key.client == p.src && key.target == p.dst && key.kind == p.payload[0] && key.code == p.payload[1]
              && (key.identifier.Some? <==> |p.payload| >= 8 && (p.payload[0] == 0 || p.payload[0] == 8))
              && (key.identifier.Some? ==> key.identifier.value == 256 * p.payload[4] as int + p.payload[5] as int)
  {
  }

  /** A message without a full header cannot be proxied, a message of another type passes as it is, and an echo
      request goes out with the session's identifier and a new checksum, otherwise unchanged. */
  lemma RequestNeedsHeader(q: seq<Byte>, proxyIdent: U16)
    ensures RewriteRequest(q, proxyIdent).Ok? <==> |q| >= 8
    ensures |q| >= 8 && q[0] != 8 ==> RewriteRequest(q, proxyIdent).value == q
    ensures |q| >= 8 && q[0] == 8 ==>
              var m := RewriteRequest(q, proxyIdent).value;
              && |m| == |q| && m[0] == 8 && m[1] == q[1] && m[6..] == q[6..]
              && 256 * m[4] as int + m[5] as int == proxyIdent
              && PositionSum(m) > 0 && PositionSum(m) % 65535 == 0
  {
    if |q| >= 8 && q[0] == 8 {
      FilledVerifies(SetWord(q, 4, proxyIdent));
    }
  }

  /** A reply without a full header is an error, a message of another type passes as it is, an echo reply with a
      foreign identifier is an error, and one with the session's goes on with the client's identifier and a new
      checksum, otherwise unchanged. */
  lemma ReplyIsRestored(r: seq<Byte>, originalIdent: Option<U16>, proxyIdent: U16)
    ensures |r| < 8 ==> RewriteReply(r, originalIdent, proxyIdent) == Err(Malformed)
    ensures |r| >= 8 && r[0] != 0 ==> RewriteReply(r, originalIdent, proxyIdent) == Ok(r)
    ensures |r| >= 8 && r[0] == 0 && 256 * r[4] as int + r[5] as int != proxyIdent ==>
              RewriteReply(r, originalIdent, proxyIdent) == Err(IdentMismatch)
    ensures |r| >= 8 && r[0] == 0 && 256 * r[4] as int + r[5] as int == proxyIdent ==>
              && RewriteReply(r, originalIdent, proxyIdent).Ok?
              && var m := RewriteReply(r, originalIdent, proxyIdent).value;
                 && |m| == |r| && m[0] == 0 && m[1] == r[1] && m[6..] == r[6..]
                 && 256 * m[4] as int + m[5] as int == (if originalIdent.Some? then originalIdent.value else proxyIdent)
                 && PositionSum(m) > 0 && PositionSum(m) % 65535 == 0
  {
    if |r| >= 8 && r[0] == 0 {
      FilledVerifies(SetWord(r, 4, if originalIdent.Some? then originalIdent.value else proxyIdent));
    }
  }

  /** Proxying is transparent: whatever checksum the target used, the reply restored for the client is
      byte for byte the reply to its own request, and its checksum verifies. */
  lemma EchoIsTransparent(q: seq<Byte>, proxyIdent: U16, r: seq<Byte>)
    requires |q| >= HEADER_LEN && q[0] == ECHO_REQUEST
    requires Answers(r, RewriteRequest(q, proxyIdent).value)
    ensures RewriteReply(r, ExtractIdentifier(q), proxyIdent) == Ok(EchoReplyTo(q))
    ensures Verifies(EchoReplyTo(q))
  {
    var m := RewriteRequest(q, proxyIdent).value;
    var ident := GetWord(q, 4);
    assert r[4] == r[4..][0] == m[4..][0] && r[5] == r[4..][1] == m[4..][1];
    assert GetWord(r, 4) == proxyIdent;
    var restored := SetWord(r, 4, ident);
    var direct := q[0 := ECHO_REPLY];
    forall i | 4 <= i < |q| ensures restored[i] == direct[i] {
      assert r[i] == r[4..][i - 4] == m[4..][i - 4] == m[i];
    }
    assert restored[4..] == direct[4..];
    FillIgnoresOldChecksum(restored, direct);
    FilledVerifies(direct);
  }

  /** All packets of a session share its key, so the identifier the session restores is each packet's
      own: every echo request of the session gets its own reply, addressed from target to client. */
  lemma SessionIsTransparent(
    p: Ipv4Packet, key: SessionKey, proxyIdent: U16, header: Option<Ipv4Packet>, bytes: seq<Byte>)
    requires ParseInbound(Some(p)) == Ok(key) && |p.payload| >= HEADER_LEN && p.payload[0] == ECHO_REQUEST
    requires var message := if header.Some? && header.value.protocol == 1 then header.value.payload else bytes;
             Answers(message, RewriteRequest(p.payload, proxyIdent).value)
    ensures var reply := BuildReplyPacket(key.client, key.target, header, bytes, key.identifier, proxyIdent);
            && reply.Ok? && reply.value.src == p.dst && reply.value.dst == p.src
            && reply.value.protocol == 1 && reply.value.payload == EchoReplyTo(p.payload)
            && reply.value.hopLimit == (if header.Some? && header.value.protocol == 1 then header.value.hopLimit else 64)
  {
    EchoIsTransparent(p.payload, proxyIdent, MessageOf(header, bytes));
  }

  // ---------------------------------------------------------------------------
  // Identifiers of different sessions
  // ---------------------------------------------------------------------------

  /** The identifier of the `k`-th session, from a wrapping 16-bit counter. */
  function ProxyIdent(k: nat): U16 {
    (FIRST_PROXY_IDENT + k) % 0x1_0000
  }

  lemma ProxyIdentCongruence(j: nat, k: nat)
    ensures ProxyIdent(j) == ProxyIdent(k) <==> j % 0x1_0000 == k % 0x1_0000
  {
  }

  /** Session `j` sends its requests with identifier 0x4000 + `j`, modulo 65536.  A reply to one that reaches
      session `k` is passed on exactly when the two are congruent modulo 65536; otherwise it is an error, which
      ends session `k`. */
  lemma ForeignReplyIsRefused(q: seq<Byte>, j: nat, k: nat, r: seq<Byte>, originalIdent: Option<U16>)
    requires |q| >= HEADER_LEN && q[0] == ECHO_REQUEST
    requires Answers(r, RewriteRequest(q, ProxyIdent(j)).value)
    ensures var m := RewriteRequest(q, ProxyIdent(j)).value; 256 * m[4] as int + m[5] as int == (0x4000 + j) % 65536
    ensures RewriteReply(r, originalIdent, ProxyIdent(k)).Ok? <==> j % 0x1_0000 == k % 0x1_0000
    ensures RewriteReply(r, originalIdent, ProxyIdent(k)).Err? ==>
              RewriteReply(r, originalIdent, ProxyIdent(k)) == Err(IdentMismatch)
  {
    var m := RewriteRequest(q, ProxyIdent(j)).value;
    assert r[4] == r[4..][0] == m[4..][0] && r[5] == r[4..][1] == m[4..][1];
    assert GetWord(r, 4) == ProxyIdent(j);
    ProxyIdentCongruence(j, k);
  }

  /** Whatever arrives, an echo reply is delivered only if it carried the session's own identifier,
      and then with a checksum that verifies. */
  lemma OnlyOwnRepliesAreDelivered(
    client: Ipv4Addr, target: Ipv4Addr, header: Option<Ipv4Packet>, bytes: seq<Byte>, originalIdent: Option<U16>, proxyIdent: U16)
    ensures var result := BuildReplyPacket(client, target, header, bytes, originalIdent, proxyIdent);
            var message := MessageOf(header, bytes);
            result.Ok? && result.value.payload[0] == ECHO_REPLY ==>
              && |message| >= HEADER_LEN && message[0] == ECHO_REPLY && GetWord(message, 4) == proxyIdent
              && Verifies(result.value.payload)
  {
    var message := MessageOf(header, bytes);
    if |message| >= HEADER_LEN {
      FilledVerifies(SetWord(message, 4, if originalIdent.Some? then originalIdent.value else proxyIdent));
    }
  }

  // ---------------------------------------------------------------------------
  // The same rewriting in place
  // ---------------------------------------------------------------------------

  method StoreWord(a: array<Byte>, at: nat, w: U16)
    requires at + 1 < a.Length
    modifies a
    ensures a[..] == SetWord(old(a[..]), at, w)
  {
    a[at] := w / 256;
    a[at + 1] := w % 256;
  }

  method StoreChecksum(a: array<Byte>)
    requires a.Length >= 4
    modifies a
    ensures a[..] == FillChecksum(old(a[..]))
  {
    StoreWord(a, 2, 0);
    StoreWord(a, 2, 0xFFFF - Fold(WordSum(a[..])));
  }

  method RewriteEchoRequest(payload: array<Byte>, proxyIdent: U16) returns (r: Result<(), Error>)
    modifies payload
    ensures match RewriteRequest(old(payload[..]), proxyIdent)
            case Ok(bytes) => r == Ok(()) && payload[..] == bytes
            case Err(e) => r == Err(e) && payload[..] == old(payload[..])
  {
    if payload.Length < HEADER_LEN {
      return Err(Malformed);
    }
    if payload[0] != ECHO_REQUEST {
      return Ok(());
    }
    StoreWord(payload, 4, proxyIdent);
    StoreChecksum(payload);
    return Ok(());
  }

  method RewriteEchoReply(payload: array<Byte>, originalIdent: Option<U16>, proxyIdent: U16) returns (r: Result<(), Error>)
    modifies payload
    ensures match RewriteReply(old(payload[..]), originalIdent, proxyIdent)
            case Ok(bytes) => r == Ok(()) && payload[..] == bytes
            case Err(e) => r == Err(e) && payload[..] == old(payload[..])
  {
    if payload.Length < HEADER_LEN {
      return Err(Malformed);
    }
    if payload[0] != ECHO_REPLY {
      return Ok(());
    }
    if 256 * payload[4] as int + payload[5] as int != proxyIdent {
      return Err(IdentMismatch);
    }
    StoreWord(payload, 4, if originalIdent.Some? then originalIdent.value else proxyIdent);
    StoreChecksum(payload);
    return Ok(());
  }
}
