/**
 The ICMP proxy as a flow table: the dispatcher files every packet under the key it parses out of it.
 */
module IcmpProxy {
  import opened Wrappers
  import opened Net
  import opened Icmp
  import opened FlowTable

  /** The dispatcher drops packets that do not parse and files the others under their own key. */
  ghost predicate FiledByKey(es: seq<Event<SessionKey, Ipv4Packet>>) {
    forall e :: e in es && e.Accept? ==> ParseInbound(Some(e.payload)) == Ok(e.key)
  }

  /** In every run, a session only ever hands over packets of its own client, target and identifier. */
  lemma HandedPacketsHaveTheirKey(
    refuses: bool, es: seq<Event<SessionKey, Ipv4Packet>>, key: SessionKey, p: Ipv4Packet)
    requires Legal(Init(refuses), es) && FiledByKey(es) && (key, p) in Run(Init(refuses), es).handed
    ensures ParseInbound(Some(p)) == Ok(key)
  {
    HandedWasAccepted(refuses, es, key, p);
  }

  /** So in every run, every echo request that a session sends out and that the target answers comes
      back to its client as the answer to what the client sent. */
  lemma EveryRunIsTransparent(
    refuses: bool, es: seq<Event<SessionKey, Ipv4Packet>>, key: SessionKey, p: Ipv4Packet,
    proxyIdent: U16, header: Option<Ipv4Packet>, bytes: seq<Byte>)
    requires Legal(Init(refuses), es) && FiledByKey(es) && (key, p) in Run(Init(refuses), es).handed
    requires |p.payload| >= HEADER_LEN && p.payload[0] == ECHO_REQUEST
    requires Answers(MessageOf(header, bytes), RewriteRequest(p.payload, proxyIdent).value)
    ensures var reply := BuildReplyPacket(key.client, key.target, header, bytes, key.identifier, proxyIdent);
            && reply.Ok? && reply.value.src == p.dst && reply.value.dst == p.src
            && reply.value.payload == EchoReplyTo(p.payload) && Verifies(reply.value.payload)
  {
    HandedPacketsHaveTheirKey(refuses, es, key, p);
    SessionIsTransparent(p, key, proxyIdent, header, bytes);
    EchoIsTransparent(p.payload, proxyIdent, MessageOf(header, bytes));
  }
}
