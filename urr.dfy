/**
 * The URR calls of the library: Create, Update, Remove and Get of one
 * URR named by an OID, their legacy forms named by an integer id, and the
 * dump of all URRs.  Update and Remove return the usage reports the module
 * sends back for the rule.
 */
module UrrOps {
  import opened Wire
  import opened Oid
  import opened Nla
  import opened Rpc
  import opened UrrAttr
  import opened ReportAttr

  /**
   * `DecodeAllUSAReports`, which Update and Remove apply to the first
   * response, is not part of this model: it is a parameter.
   */
  type ReportsDecoder = seq<byte> -> Result<seq<UsaReport>>

  /** `URR_ID` as u32, `URR_SEID` as u64. */
  const UrrKey := Key(URR_ID, W32, URR_SEID)

  method CreateURROID(transport: Transport, link: int, oid: OID, attrs: seq<NlAttr>)
    returns (r: Result<()>, sent: Option<Request>)
    ensures sent == Prepared({Excl, Ack}, AddUrr, UrrKey, link, oid, attrs)
    ensures r == Acked(sent, transport)
  {
    sent := NewKeyedRequest({Excl, Ack}, AddUrr, UrrKey, link, oid, attrs);
    r := Call(sent, transport);
  }

  /** No response is success with no reports; otherwise the first response's reports. */
  method UpdateURROID(transport: Transport, decodeReports: ReportsDecoder, link: int, oid: OID, attrs: seq<NlAttr>)
    returns (r: Result<Option<seq<UsaReport>>>, sent: Option<Request>)
    ensures sent == Prepared({Replace, Ack}, AddUrr, UrrKey, link, oid, attrs)
    ensures r == FirstDecodedOrNone(sent, transport, decodeReports)
  {
    sent := NewKeyedRequest({Replace, Ack}, AddUrr, UrrKey, link, oid, attrs);
    if sent.None? {
      return Err(InvalidOid), sent;
    }
    var rsps := transport(sent.value);
    if rsps.Err? {
      return Err(rsps.error), sent;
    }
    if |rsps.value| < 1 {
      return Ok(None), sent;
    }
    var body := Body(rsps.value[0]);
    if body.Err? {
      return Err(body.error), sent;
    }
    var reports := decodeReports(body.value);
    if reports.Err? {
      return Err(reports.error), sent;
    }
    return Ok(Some(reports.value)), sent;
  }

  /** No caller attributes; no response is the error "no usage report", otherwise the first response's reports. */
  method RemoveURROID(transport: Transport, decodeReports: ReportsDecoder, link: int, oid: OID)
    returns (r: Result<seq<UsaReport>>, sent: Option<Request>)
    ensures sent == Prepared({Excl, Ack}, DelUrr, UrrKey, link, oid, [])
    ensures r == FirstDecoded(sent, transport, decodeReports, NoUsageReport)
  {
    sent := NewKeyedRequest({Excl, Ack}, DelUrr, UrrKey, link, oid, []);
    if sent.None? {
      return Err(InvalidOid), sent;
    }
    var rsps := transport(sent.value);
    if rsps.Err? {
      return Err(rsps.error), sent;
    }
    if |rsps.value| < 1 {
      return Err(NoUsageReport), sent;
    }
    var body := Body(rsps.value[0]);
    if body.Err? {
      return Err(body.error), sent;
    }
    r := decodeReports(body.value);
  }

  /** No response is an error; only the first response is decoded. */
  method GetURROID(transport: Transport, link: int, oid: OID)
    returns (r: Result<Urr>, sent: Option<Request>)
    ensures sent == Prepared({Ack}, GetUrr, UrrKey, link, oid, [])
    ensures r == FirstDecoded(sent, transport, UrrSpec, NotFound)
  {
    sent := NewKeyedRequest({Ack}, GetUrr, UrrKey, link, oid, []);
    if sent.None? {
      return Err(InvalidOid), sent;
    }
    var rsps := transport(sent.value);
    if rsps.Err? {
      return Err(rsps.error), sent;
    }
    if |rsps.value| < 1 {
      return Err(NotFound), sent;
    }
    var body := Body(rsps.value[0]);
    if body.Err? {
      return Err(body.error), sent;
    }
    r := DecodeURR(body.value);
  }

  // The legacy forms name the object by `OID{uint64(id)}` and so never send a SEID.

  method CreateURR(transport: Transport, link: int, id: i64, attrs: seq<NlAttr>)
    returns (r: Result<()>, sent: Option<Request>)
    ensures sent == Some(Request({Excl, Ack}, AddUrr, [LinkAttr(link), NlAttr(Tag(URR_ID), IdValue(W32, id))] + attrs))
    ensures r == Acked(sent, transport)
  {
    LegacyPrepared({Excl, Ack}, AddUrr, UrrKey, link, id, attrs);
    r, sent := CreateURROID(transport, link, [ToU64(id)], attrs);
  }

  method UpdateURR(transport: Transport, decodeReports: ReportsDecoder, link: int, id: i64, attrs: seq<NlAttr>)
    returns (r: Result<Option<seq<UsaReport>>>, sent: Option<Request>)
    ensures sent == Some(Request({Replace, Ack}, AddUrr, [LinkAttr(link), NlAttr(Tag(URR_ID), IdValue(W32, id))] + attrs))
    ensures r == FirstDecodedOrNone(sent, transport, decodeReports)
  {
    LegacyPrepared({Replace, Ack}, AddUrr, UrrKey, link, id, attrs);
    r, sent := UpdateURROID(transport, decodeReports, link, [ToU64(id)], attrs);
  }

  method RemoveURR(transport: Transport, decodeReports: ReportsDecoder, link: int, id: i64)
    returns (r: Result<seq<UsaReport>>, sent: Option<Request>)
    ensures sent == Some(Request({Excl, Ack}, DelUrr, [LinkAttr(link), NlAttr(Tag(URR_ID), IdValue(W32, id))]))
    ensures r == FirstDecoded(sent, transport, decodeReports, NoUsageReport)
  {
    LegacyPrepared({Excl, Ack}, DelUrr, UrrKey, link, id, []);
    assert [LinkAttr(link), NlAttr(Tag(URR_ID), IdValue(W32, id))] + [] == [LinkAttr(link), NlAttr(Tag(URR_ID), IdValue(W32, id))];
    r, sent := RemoveURROID(transport, decodeReports, link, [ToU64(id)]);
  }

  method GetURR(transport: Transport, link: int, id: i64)
    returns (r: Result<Urr>, sent: Option<Request>)
    ensures sent == Some(Request({Ack}, GetUrr, [LinkAttr(link), NlAttr(Tag(URR_ID), IdValue(W32, id))]))
    ensures r == FirstDecoded(sent, transport, UrrSpec, NotFound)
  {
    LegacyPrepared({Ack}, GetUrr, UrrKey, link, id, []);
    assert [LinkAttr(link), NlAttr(Tag(URR_ID), IdValue(W32, id))] + [] == [LinkAttr(link), NlAttr(Tag(URR_ID), IdValue(W32, id))];
    r, sent := GetURROID(transport, link, [ToU64(id)]);
  }

  /** One URR per response, in order; the first that fails to decode fails the dump. */
  method GetURRAll(transport: Transport) returns (r: Result<seq<Urr>>)
    ensures r == AllDecoded(DumpRequest(GetUrr), transport, UrrSpec)
  {
    var rsps := transport(DumpRequest(GetUrr));
    if rsps.Err? {
      return Err(rsps.error);
    }
    var msgs := rsps.value;
    var all: seq<Urr> := [];
    var i := 0;
    PrefixedEmpty(DecodeEach(msgs, UrrSpec));
    while i < |msgs|
      invariant 0 <= i <= |msgs|
      invariant Prefixed(all, DecodeEach(msgs[i..], UrrSpec)) == DecodeEach(msgs, UrrSpec)
    {
      var body := Body(msgs[i]);
      if body.Err? {
        return Err(body.error);
      }
      var x := DecodeURR(body.value);
      if x.Err? {
        return Err(x.error);
      }
      DecodeEachStep(all, msgs[i..], UrrSpec);
      assert msgs[i..][1..] == msgs[i + 1..];
      all := all + [x.value];
      i := i + 1;
    }
    PrefixedEmpty(Ok(all));
    return Ok(all);
  }
}
