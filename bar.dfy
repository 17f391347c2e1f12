/**
 * The BAR calls of the library: Create, Update, Remove and Get of one
 * BAR named by an OID, their legacy forms named by an integer id, and the
 * dump of all BARs.
 */
module BarOps {
  import opened Wire
  import opened Oid
  import opened Nla
  import opened Rpc
  import opened BarAttr

  /** `BAR_ID` as u8, `BAR_SEID` as u64. */
  const BarKey := Key(BAR_ID, W8, BAR_SEID)

  method CreateBAROID(transport: Transport, link: int, oid: OID, attrs: seq<NlAttr>)
    returns (r: Result<()>, sent: Option<Request>)
    ensures sent == Prepared({Excl, Ack}, AddBar, BarKey, link, oid, attrs)
    ensures r == Acked(sent, transport)
  {
    sent := NewKeyedRequest({Excl, Ack}, AddBar, BarKey, link, oid, attrs);
    r := Call(sent, transport);
  }

  method UpdateBAROID(transport: Transport, link: int, oid: OID, attrs: seq<NlAttr>)
    returns (r: Result<()>, sent: Option<Request>)
    ensures sent == Prepared({Replace, Ack}, AddBar, BarKey, link, oid, attrs)
    ensures r == Acked(sent, transport)
  {
    sent := NewKeyedRequest({Replace, Ack}, AddBar, BarKey, link, oid, attrs);
    r := Call(sent, transport);
  }

  /** No caller attributes. */
  method RemoveBAROID(transport: Transport, link: int, oid: OID)
    returns (r: Result<()>, sent: Option<Request>)
    ensures sent == Prepared({Excl, Ack}, DelBar, BarKey, link, oid, [])
    ensures r == Acked(sent, transport)
  {
    sent := NewKeyedRequest({Excl, Ack}, DelBar, BarKey, link, oid, []);
    r := Call(sent, transport);
  }

  /** No response is an error; only the first response is decoded. */
  method GetBAROID(transport: Transport, link: int, oid: OID)
    returns (r: Result<Bar>, sent: Option<Request>)
    ensures sent == Prepared({Ack}, GetBar, BarKey, link, oid, [])
    ensures r == FirstDecoded(sent, transport, BarSpec, NotFound)
  {
    sent := NewKeyedRequest({Ack}, GetBar, BarKey, link, oid, []);
    if sent.None? {
      return Err(InvalidOid), sent;
    }
    var rsps := transport(sent.value);
    if rsps.Err? {
      return Err(rsps.error), sent;
    }
    if |rsps.value| < 1 {
      return Err(NotFound), sent;
    }
    var body := Body(rsps.value[0]);
    if body.Err? {
      return Err(body.error), sent;
    }
    r := DecodeBAR(body.value);
  }

  // The legacy forms name the object by `OID{uint64(id)}` and so never send a SEID.

  method CreateBAR(transport: Transport, link: int, id: i64, attrs: seq<NlAttr>)
    returns (r: Result<()>, sent: Option<Request>)
    ensures sent == Some(Request({Excl, Ack}, AddBar, [LinkAttr(link), NlAttr(Tag(BAR_ID), IdValue(W8, id))] + attrs))
    ensures r == Acked(sent, transport)
  {
    LegacyPrepared({Excl, Ack}, AddBar, BarKey, link, id, attrs);
    r, sent := CreateBAROID(transport, link, [ToU64(id)], attrs);
  }

  method UpdateBAR(transport: Transport, link: int, id: i64, attrs: seq<NlAttr>)
    returns (r: Result<()>, sent: Option<Request>)
    ensures sent == Some(Request({Replace, Ack}, AddBar, [LinkAttr(link), NlAttr(Tag(BAR_ID), IdValue(W8, id))] + attrs))
    ensures r == Acked(sent, transport)
  {
    LegacyPrepared({Replace, Ack}, AddBar, BarKey, link, id, attrs);
    r, sent := UpdateBAROID(transport, link, [ToU64(id)], attrs);
  }

  method RemoveBAR(transport: Transport, link: int, id: i64)
    returns (r: Result<()>, sent: Option<Request>)
    ensures sent == Some(Request({Excl, Ack}, DelBar, [LinkAttr(link), NlAttr(Tag(BAR_ID), IdValue(W8, id))]))
    ensures r == Acked(sent, transport)
  {
    LegacyPrepared({Excl, Ack}, DelBar, BarKey, link, id, []);
    assert [LinkAttr(link), NlAttr(Tag(BAR_ID), IdValue(W8, id))] + [] == [LinkAttr(link), NlAttr(Tag(BAR_ID), IdValue(W8, id))];
    r, sent := RemoveBAROID(transport, link, [ToU64(id)]);
  }

  method GetBAR(transport: Transport, link: int, id: i64)
    returns (r: Result<Bar>, sent: Option<Request>)
    ensures sent == Some(Request({Ack}, GetBar, [LinkAttr(link), NlAttr(Tag(BAR_ID), IdValue(W8, id))]))
    ensures r == FirstDecoded(sent, transport, BarSpec, NotFound)
  {
    LegacyPrepared({Ack}, GetBar, BarKey, link, id, []);
    assert [LinkAttr(link), NlAttr(Tag(BAR_ID), IdValue(W8, id))] + [] == [LinkAttr(link), NlAttr(Tag(BAR_ID), IdValue(W8, id))];
    r, sent := GetBAROID(transport, link, [ToU64(id)]);
  }

  /** One BAR per response, in order; the first that fails to decode fails the dump. */
  method GetBARAll(transport: Transport) returns (r: Result<seq<Bar>>)
    ensures r == AllDecoded(DumpRequest(GetBar), transport, BarSpec)
  {
    var rsps := transport(DumpRequest(GetBar));
    if rsps.Err? {
      return Err(rsps.error);
    }
    var msgs := rsps.value;
    var all: seq<Bar> := [];
    var i := 0;
    PrefixedEmpty(DecodeEach(msgs, BarSpec));
    while i < |msgs|
      invariant 0 <= i <= |msgs|
      invariant Prefixed(all, DecodeEach(msgs[i..], BarSpec)) == DecodeEach(msgs, BarSpec)
    {
      var body := Body(msgs[i]);
      if body.Err? {
        return Err(body.error);
      }
      var x := DecodeBAR(body.value);
      if x.Err? {
        return Err(x.error);
      }
      DecodeEachStep(all, msgs[i..], BarSpec);
      assert msgs[i..][1..] == msgs[i + 1..];
      all := all + [x.value];
      i := i + 1;
    }
    PrefixedEmpty(Ok(all));
    return Ok(all);
  }
}
