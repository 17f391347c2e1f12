/**
 * The PDR calls of the library: Create, Update, Remove and Get of one
 * PDR named by an OID, their legacy forms named by an integer id, and the
 * dump of all PDRs.
 */
module PdrOps {
  import opened Wire
  import opened Oid
  import opened Nla
  import opened Rpc
  import opened PdrAttr

  /** `PDR_ID` as u16, `PDR_SEID` as u64. */
  const PdrKey := Key(PDR_ID, W16, PDR_SEID)

  method CreatePDROID(transport: Transport, link: int, oid: OID, attrs: seq<NlAttr>)
    returns (r: Result<()>, sent: Option<Request>)
    ensures sent == Prepared({Excl, Ack}, AddPdr, PdrKey, link, oid, attrs)
    ensures r == Acked(sent, transport)
  {
    sent := NewKeyedRequest({Excl, Ack}, AddPdr, PdrKey, link, oid, attrs);
    r := Call(sent, transport);
  }

  method UpdatePDROID(transport: Transport, link: int, oid: OID, attrs: seq<NlAttr>)
    returns (r: Result<()>, sent: Option<Request>)
    ensures sent == Prepared({Replace, Ack}, AddPdr, PdrKey, link, oid, attrs)
    ensures r == Acked(sent, transport)
  {
    sent := NewKeyedRequest({Replace, Ack}, AddPdr, PdrKey, link, oid, attrs);
    r := Call(sent, transport);
  }

  /** No caller attributes. */
  method RemovePDROID(transport: Transport, link: int, oid: OID)
    returns (r: Result<()>, sent: Option<Request>)
    ensures sent == Prepared({Excl, Ack}, DelPdr, PdrKey, link, oid, [])
    ensures r == Acked(sent, transport)
  {
    sent := NewKeyedRequest({Excl, Ack}, DelPdr, PdrKey, link, oid, []);
    r := Call(sent, transport);
  }

  /** No response is an error; only the first response is decoded. */
  method GetPDROID(transport: Transport, link: int, oid: OID)
    returns (r: Result<Pdr>, sent: Option<Request>)
    ensures sent == Prepared({Ack}, GetPdr, PdrKey, link, oid, [])
    ensures r == FirstDecoded(sent, transport, PdrSpec, NotFound)
  {
    sent := NewKeyedRequest({Ack}, GetPdr, PdrKey, link, oid, []);
    if sent.None? {
      return Err(InvalidOid), sent;
    }
    var rsps := transport(sent.value);
    if rsps.Err? {
      return Err(rsps.error), sent;
    }
    if |rsps.value| < 1 {
      return Err(NotFound), sent;
    }
    var body := Body(rsps.value[0]);
    if body.Err? {
      return Err(body.error), sent;
    }
    r := DecodePDR(body.value);
  }

  // The legacy forms name the object by `OID{uint64(id)}` and so never send a SEID.

  method CreatePDR(transport: Transport, link: int, id: i64, attrs: seq<NlAttr>)
    returns (r: Result<()>, sent: Option<Request>)
    ensures sent == Some(Request({Excl, Ack}, AddPdr, [LinkAttr(link), NlAttr(Tag(PDR_ID), IdValue(W16, id))] + attrs))
    ensures r == Acked(sent, transport)
  {
    LegacyPrepared({Excl, Ack}, AddPdr, PdrKey, link, id, attrs);
    r, sent := CreatePDROID(transport, link, [ToU64(id)], attrs);
  }

  method UpdatePDR(transport: Transport, link: int, id: i64, attrs: seq<NlAttr>)
    returns (r: Result<()>, sent: Option<Request>)
    ensures sent == Some(Request({Replace, Ack}, AddPdr, [LinkAttr(link), NlAttr(Tag(PDR_ID), IdValue(W16, id))] + attrs))
    ensures r == Acked(sent, transport)
  {
    LegacyPrepared({Replace, Ack}, AddPdr, PdrKey, link, id, attrs);
    r, sent := UpdatePDROID(transport, link, [ToU64(id)], attrs);
  }

  method RemovePDR(transport: Transport, link: int, id: i64)
    returns (r: Result<()>, sent: Option<Request>)
    ensures sent == Some(Request({Excl, Ack}, DelPdr, [LinkAttr(link), NlAttr(Tag(PDR_ID), IdValue(W16, id))]))
    ensures r == Acked(sent, transport)
  {
    LegacyPrepared({Excl, Ack}, DelPdr, PdrKey, link, id, []);
    assert [LinkAttr(link), NlAttr(Tag(PDR_ID), IdValue(W16, id))] + [] == [LinkAttr(link), NlAttr(Tag(PDR_ID), IdValue(W16, id))];
    r, sent := RemovePDROID(transport, link, [ToU64(id)]);
  }

  method GetPDR(transport: Transport, link: int, id: i64)
    returns (r: Result<Pdr>, sent: Option<Request>)
    ensures sent == Some(Request({Ack}, GetPdr, [LinkAttr(link), NlAttr(Tag(PDR_ID), IdValue(W16, id))]))
    ensures r == FirstDecoded(sent, transport, PdrSpec, NotFound)
  {
    LegacyPrepared({Ack}, GetPdr, PdrKey, link, id, []);
    assert [LinkAttr(link), NlAttr(Tag(PDR_ID), IdValue(W16, id))] + [] == [LinkAttr(link), NlAttr(Tag(PDR_ID), IdValue(W16, id))];
    r, sent := GetPDROID(transport, link, [ToU64(id)]);
  }

  /** One PDR per response, in order; the first that fails to decode fails the dump. */
  method GetPDRAll(transport: Transport) returns (r: Result<seq<Pdr>>)
    ensures r == AllDecoded(DumpRequest(GetPdr), transport, PdrSpec)
  {
    var rsps := transport(DumpRequest(GetPdr));
    if rsps.Err? {
      return Err(rsps.error);
    }
    var msgs := rsps.value;
    var all: seq<Pdr> := [];
    var i := 0;
    PrefixedEmpty(DecodeEach(msgs, PdrSpec));
    while i < |msgs|
      invariant 0 <= i <= |msgs|
      invariant Prefixed(all, DecodeEach(msgs[i..], PdrSpec)) == DecodeEach(msgs, PdrSpec)
    {
      var body := Body(msgs[i]);
      if body.Err? {
        return Err(body.error);
      }
      var x := DecodePDR(body.value);
      if x.Err? {
        return Err(x.error);
      }
      DecodeEachStep(all, msgs[i..], PdrSpec);
      assert msgs[i..][1..] == msgs[i + 1..];
      all := all + [x.value];
      i := i + 1;
    }
    PrefixedEmpty(Ok(all));
    return Ok(all);
  }
}
