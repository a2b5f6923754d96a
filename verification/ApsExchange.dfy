/** The encoder and decoder objects of src/aps.rs, one at each end of a connection. */
module ApsExchange {
  import opened Bytes
  import opened Io
  import opened ApsTables
  import opened ApsSpec
  import opened ApsRoundTrip
  import opened ApsStream
  import C = ApsCoder
  import D = ApsDecoder

  /**
   Sends one message from `encoder` to `decoder`, whose tables agree.  Unless the
   encoder panics, the message arrives normalised and the tables agree again.
   */
  method Send(encoder: C.Encoder, decoder: D.Decoder, m: Message, depth: nat)
    returns (sent: bool, received: D.Outcome<Message>)
    requires encoder.keyTable != decoder.keyTable && encoder.valueTable != decoder.valueTable
    requires encoder.T() == decoder.T()
    requires CacheSafe(m.attributes)
    requires depth >= NestedHeight(m.attributes)
    modifies encoder.keyTable, encoder.valueTable, decoder.keyTable, decoder.valueTable
    ensures sent == EncodeMessage(m, old(encoder.T())).Some?
    ensures sent ==> received == D.Done(NormaliseMessage(m)) && encoder.T() == decoder.T()
  {
    received := D.Failed;
    var wire := new Writer();
    sent := encoder.Encode(m, wire);
    if sent {
      ReadWholeMessage(m, decoder.T(), depth, wire.out);
      var stream := new Reader(wire.out);
      received := decoder.ReadMessage(stream, depth);
    }
  }

  lemma ReadWholeMessage(m: Message, t: Tables, depth: nat, wire: bytes)
    requires CacheSafe(m.attributes)
    requires EncodeMessage(m, t).Some?
    requires depth >= NestedHeight(m.attributes)
    requires wire == [] + EncodeMessage(m, t).value.bytes
    ensures ReadFromStream(wire, t, depth) == Ok(NormaliseMessage(m), [], EncodeMessage(m, t).value.tables)
  {
    ReadFromStreamOfEncode(m, t, depth, []);
    assert wire == EncodeMessage(m, t).value.bytes + [];
  }
}
