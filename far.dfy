/**
 * The FAR calls of the library: Create, Update, Remove and Get of one
 * FAR named by an OID, their legacy forms named by an integer id, and the
 * dump of all FARs.
 */
module FarOps {
  import opened Wire
  import opened Oid
  import opened Nla
  import opened Rpc
  import opened FarAttr

  /** `FAR_ID` as u32, `FAR_SEID` as u64. */
  const FarKey := Key(FAR_ID, W32, FAR_SEID)

  method CreateFAROID(transport: Transport, link: int, oid: OID, attrs: seq<NlAttr>)
    returns (r: Result<()>, sent: Option<Request>)
    ensures sent == Prepared({Excl, Ack}, AddFar, FarKey, link, oid, attrs)
    ensures r == Acked(sent, transport)
  {
    sent := NewKeyedRequest({Excl, Ack}, AddFar, FarKey, link, oid, attrs);
    r := Call(sent, transport);
  }

  method UpdateFAROID(transport: Transport, link: int, oid: OID, attrs: seq<NlAttr>)
    returns (r: Result<()>, sent: Option<Request>)
    ensures sent == Prepared({Replace, Ack}, AddFar, FarKey, link, oid, attrs)
    ensures r == Acked(sent, transport)
  {
    sent := NewKeyedRequest({Replace, Ack}, AddFar, FarKey, link, oid, attrs);
    r := Call(sent, transport);
  }

  /** No caller attributes. */
  method RemoveFAROID(transport: Transport, link: int, oid: OID)
    returns (r: Result<()>, sent: Option<Request>)
    ensures sent == Prepared({Excl, Ack}, DelFar, FarKey, link, oid, [])
    ensures r == Acked(sent, transport)
  {
    sent := NewKeyedRequest({Excl, Ack}, DelFar, FarKey, link, oid, []);
    r := Call(sent, transport);
  }

  /** No response is an error; only the first response is decoded. */
  method GetFAROID(transport: Transport, link: int, oid: OID)
    returns (r: Result<Far>, sent: Option<Request>)
    ensures sent == Prepared({Ack}, GetFar, FarKey, link, oid, [])
    ensures r == FirstDecoded(sent, transport, FarSpec, NotFound)
  {
    sent := NewKeyedRequest({Ack}, GetFar, FarKey, link, oid, []);
    if sent.None? {
      return Err(InvalidOid), sent;
    }
    var rsps := transport(sent.value);
    if rsps.Err? {
      return Err(rsps.error), sent;
    }
    if |rsps.value| < 1 {
      return Err(NotFound), sent;
    }
    var body := Body(rsps.value[0]);
    if body.Err? {
      return Err(body.error), sent;
    }
    r := DecodeFAR(body.value);
  }

  // The legacy forms name the object by `OID{uint64(id)}` and so never send a SEID.

  method CreateFAR(transport: Transport, link: int, id: i64, attrs: seq<NlAttr>)
    returns (r: Result<()>, sent: Option<Request>)
    ensures sent == Some(Request({Excl, Ack}, AddFar, [LinkAttr(link), NlAttr(Tag(FAR_ID), IdValue(W32, id))] + attrs))
    ensures r == Acked(sent, transport)
  {
    LegacyPrepared({Excl, Ack}, AddFar, FarKey, link, id, attrs);
    r, sent := CreateFAROID(transport, link, [ToU64(id)], attrs);
  }

  method UpdateFAR(transport: Transport, link: int, id: i64, attrs: seq<NlAttr>)
    returns (r: Result<()>, sent: Option<Request>)
    ensures sent == Some(Request({Replace, Ack}, AddFar, [LinkAttr(link), NlAttr(Tag(FAR_ID), IdValue(W32, id))] + attrs))
    ensures r == Acked(sent, transport)
  {
    LegacyPrepared({Replace, Ack}, AddFar, FarKey, link, id, attrs);
    r, sent := UpdateFAROID(transport, link, [ToU64(id)], attrs);
  }

  method RemoveFAR(transport: Transport, link: int, id: i64)
    returns (r: Result<()>, sent: Option<Request>)
    ensures sent == Some(Request({Excl, Ack}, DelFar, [LinkAttr(link), NlAttr(Tag(FAR_ID), IdValue(W32, id))]))
    ensures r == Acked(sent, transport)
  {
    LegacyPrepared({Excl, Ack}, DelFar, FarKey, link, id, []);
    assert [LinkAttr(link), NlAttr(Tag(FAR_ID), IdValue(W32, id))] + [] == [LinkAttr(link), NlAttr(Tag(FAR_ID), IdValue(W32, id))];
    r, sent := RemoveFAROID(transport, link, [ToU64(id)]);
  }

  method GetFAR(transport: Transport, link: int, id: i64)
    returns (r: Result<Far>, sent: Option<Request>)
    ensures sent == Some(Request({Ack}, GetFar, [LinkAttr(link), NlAttr(Tag(FAR_ID), IdValue(W32, id))]))
    ensures r == FirstDecoded(sent, transport, FarSpec, NotFound)
  {
    LegacyPrepared({Ack}, GetFar, FarKey, link, id, []);
    assert [LinkAttr(link), NlAttr(Tag(FAR_ID), IdValue(W32, id))] + [] == [LinkAttr(link), NlAttr(Tag(FAR_ID), IdValue(W32, id))];
    r, sent := GetFAROID(transport, link, [ToU64(id)]);
  }

  /** One FAR per response, in order; the first that fails to decode fails the dump. */
  method GetFARAll(transport: Transport) returns (r: Result<seq<Far>>)
    ensures r == AllDecoded(DumpRequest(GetFar), transport, FarSpec)
  {
    var rsps := transport(DumpRequest(GetFar));
    if rsps.Err? {
      return Err(rsps.error);
    }
    var msgs := rsps.value;
    var all: seq<Far> := [];
    var i := 0;
    PrefixedEmpty(DecodeEach(msgs, FarSpec));
    while i < |msgs|
      invariant 0 <= i <= |msgs|
      invariant Prefixed(all, DecodeEach(msgs[i..], FarSpec)) == DecodeEach(msgs, FarSpec)
    {
      var body := Body(msgs[i]);
      if body.Err? {
        return Err(body.error);
      }
      var x := DecodeFAR(body.value);
      if x.Err? {
        return Err(x.error);
      }
      DecodeEachStep(all, msgs[i..], FarSpec);
      assert msgs[i..][1..] == msgs[i + 1..];
      all := all + [x.value];
      i := i + 1;
    }
    PrefixedEmpty(Ok(all));
    return Ok(all);
  }
}
