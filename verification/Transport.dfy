/** Datagrams as they reach and leave src/matf_vpn/transport.py; sockets themselves are input choices. */
module Transport {
  import opened Outcome
  import opened Octets
  import opened Protocol

  datatype Address = Address(host: string, port: int)

  datatype Datagram = Datagram(data: Bytes, peer: Address)

  /** What one blocking `receive` brings: nothing in time, or a datagram. */
  datatype Arrival = Silence | Arrived(datagram: Datagram)

  /** The packet of a received datagram; the receive buffer holds the longest datagram, no more. */
  function Receive(data: Bytes): (r: Result<Packet>)
    ensures r.Ok? ==> Encode(r.value).Ok?
  {
    var buffer := if |data| > MAX_UDP_DATAGRAM_SIZE then data[..MAX_UDP_DATAGRAM_SIZE] else data;
    if Decode(buffer).Ok? then
      EncodeOfDecode(buffer);
      Decode(buffer)
    else Decode(buffer)
  }

  /** What was encoded is received as it was. */
  lemma ReceiveOfEncode(p: Packet, data: Bytes)
    requires Encode(p) == Ok(data)
    ensures Receive(data) == Ok(p)
    ensures forall o :: o in data && o.Part? ==> o in p.payload
  {
    DecodeOfEncode(p);
    var header := Header(p.kind, p.sessionId, p.sequence, |p.payload|);
    forall o | o in data && o.Part? ensures o in p.payload { assert o in header || o in p.payload; }
  }
}
