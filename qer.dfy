/**
 * The QER calls of the library: Create, Update, Remove and Get of one
 * QER named by an OID, their legacy forms named by an integer id, and the
 * dump of all QERs.
 */
module QerOps {
  import opened Wire
  import opened Oid
  import opened Nla
  import opened Rpc
  import opened QerAttr

  /** `QER_ID` as u32, `QER_SEID` as u64. */
  const QerKey := Key(QER_ID, W32, QER_SEID)

  method CreateQEROID(transport: Transport, link: int, oid: OID, attrs: seq<NlAttr>)
    returns (r: Result<()>, sent: Option<Request>)
    ensures sent == Prepared({Excl, Ack}, AddQer, QerKey, link, oid, attrs)
    ensures r == Acked(sent, transport)
  {
    sent := NewKeyedRequest({Excl, Ack}, AddQer, QerKey, link, oid, attrs);
    r := Call(sent, transport);
  }

  method UpdateQEROID(transport: Transport, link: int, oid: OID, attrs: seq<NlAttr>)
    returns (r: Result<()>, sent: Option<Request>)
    ensures sent == Prepared({Replace, Ack}, AddQer, QerKey, link, oid, attrs)
    ensures r == Acked(sent, transport)
  {
    sent := NewKeyedRequest({Replace, Ack}, AddQer, QerKey, link, oid, attrs);
    r := Call(sent, transport);
  }

  /** No caller attributes. */
  method RemoveQEROID(transport: Transport, link: int, oid: OID)
    returns (r: Result<()>, sent: Option<Request>)
    ensures sent == Prepared({Excl, Ack}, DelQer, QerKey, link, oid, [])
    ensures r == Acked(sent, transport)
  {
    sent := NewKeyedRequest({Excl, Ack}, DelQer, QerKey, link, oid, []);
    r := Call(sent, transport);
  }

  /** No response is an error; only the first response is decoded. */
  method GetQEROID(transport: Transport, link: int, oid: OID)
    returns (r: Result<Qer>, sent: Option<Request>)
    ensures sent == Prepared({Ack}, GetQer, QerKey, link, oid, [])
    ensures r == FirstDecoded(sent, transport, QerSpec, NotFound)
  {
    sent := NewKeyedRequest({Ack}, GetQer, QerKey, link, oid, []);
    if sent.None? {
      return Err(InvalidOid), sent;
    }
    var rsps := transport(sent.value);
    if rsps.Err? {
      return Err(rsps.error), sent;
    }
    if |rsps.value| < 1 {
      return Err(NotFound), sent;
    }
    var body := Body(rsps.value[0]);
    if body.Err? {
      return Err(body.error), sent;
    }
    r := DecodeQER(body.value);
  }

  // The legacy forms name the object by `OID{uint64(id)}` and so never send a SEID.

  method CreateQER(transport: Transport, link: int, id: i64, attrs: seq<NlAttr>)
    returns (r: Result<()>, sent: Option<Request>)
    ensures sent == Some(Request({Excl, Ack}, AddQer, [LinkAttr(link), NlAttr(Tag(QER_ID), IdValue(W32, id))] + attrs))
    ensures r == Acked(sent, transport)
  {
    LegacyPrepared({Excl, Ack}, AddQer, QerKey, link, id, attrs);
    r, sent := CreateQEROID(transport, link, [ToU64(id)], attrs);
  }

  method UpdateQER(transport: Transport, link: int, id: i64, attrs: seq<NlAttr>)
    returns (r: Result<()>, sent: Option<Request>)
    ensures sent == Some(Request({Replace, Ack}, AddQer, [LinkAttr(link), NlAttr(Tag(QER_ID), IdValue(W32, id))] + attrs))
    ensures r == Acked(sent, transport)
  {
    LegacyPrepared({Replace, Ack}, AddQer, QerKey, link, id, attrs);
    r, sent := UpdateQEROID(transport, link, [ToU64(id)], attrs);
  }

  method RemoveQER(transport: Transport, link: int, id: i64)
    returns (r: Result<()>, sent: Option<Request>)
    ensures sent == Some(Request({Excl, Ack}, DelQer, [LinkAttr(link), NlAttr(Tag(QER_ID), IdValue(W32, id))]))
    ensures r == Acked(sent, transport)
  {
    LegacyPrepared({Excl, Ack}, DelQer, QerKey, link, id, []);
    assert [LinkAttr(link), NlAttr(Tag(QER_ID), IdValue(W32, id))] + [] == [LinkAttr(link), NlAttr(Tag(QER_ID), IdValue(W32, id))];
    r, sent := RemoveQEROID(transport, link, [ToU64(id)]);
  }

  method GetQER(transport: Transport, link: int, id: i64)
    returns (r: Result<Qer>, sent: Option<Request>)
    ensures sent == Some(Request({Ack}, GetQer, [LinkAttr(link), NlAttr(Tag(QER_ID), IdValue(W32, id))]))
    ensures r == FirstDecoded(sent, transport, QerSpec, NotFound)
  {
    LegacyPrepared({Ack}, GetQer, QerKey, link, id, []);
    assert [LinkAttr(link), NlAttr(Tag(QER_ID), IdValue(W32, id))] + [] == [LinkAttr(link), NlAttr(Tag(QER_ID), IdValue(W32, id))];
    r, sent := GetQEROID(transport, link, [ToU64(id)]);
  }

  /** One QER per response, in order; the first that fails to decode fails the dump. */
  method GetQERAll(transport: Transport) returns (r: Result<seq<Qer>>)
    ensures r == AllDecoded(DumpRequest(GetQer), transport, QerSpec)
  {
    var rsps := transport(DumpRequest(GetQer));
    if rsps.Err? {
      return Err(rsps.error);
    }
    var msgs := rsps.value;
    var all: seq<Qer> := [];
    var i := 0;
    PrefixedEmpty(DecodeEach(msgs, QerSpec));
    while i < |msgs|
      invariant 0 <= i <= |msgs|
      invariant Prefixed(all, DecodeEach(msgs[i..], QerSpec)) == DecodeEach(msgs, QerSpec)
    {
      var body := Body(msgs[i]);
      if body.Err? {
        return Err(body.error);
      }
      var x := DecodeQER(body.value);
      if x.Err? {
        return Err(x.error);
      }
      DecodeEachStep(all, msgs[i..], QerSpec);
      assert msgs[i..][1..] == msgs[i + 1..];
      all := all + [x.value];
      i := i + 1;
    }
    PrefixedEmpty(Ok(all));
    return Ok(all);
  }
}
