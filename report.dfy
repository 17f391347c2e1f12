/**
 * The usage-report query: a Get on URR attributes with its own command,
 * whose first response is decoded by `DecodeReport`.
 */
module ReportOps {
  import opened Wire
  import opened Oid
  import opened Rpc
  import opened ReportAttr
  import UrrAttr
  import UrrOps

  /** No response is success with no report; otherwise the first response decoded. */
  method GetReportOID(transport: Transport, link: int, oid: OID)
    returns (r: Result<Option<UsaReport>>, sent: Option<Request>)
    ensures sent == Prepared({Ack}, GetReport, UrrOps.UrrKey, link, oid, [])
    ensures r == FirstDecodedOrNone(sent, transport, ReportSpec)
  {
    sent := NewKeyedRequest({Ack}, GetReport, UrrOps.UrrKey, link, oid, []);
    if sent.None? {
      return Err(InvalidOid), sent;
    }
    var rsps := transport(sent.value);
    if rsps.Err? {
      return Err(rsps.error), sent;
    }
    if |rsps.value| < 1 {
      return Ok(None), sent;
    }
    var body := Body(rsps.value[0]);
    if body.Err? {
      return Err(body.error), sent;
    }
    var report := DecodeReport(body.value);
    if report.Err? {
      return Err(report.error), sent;
    }
    return Ok(Some(report.value)), sent;
  }

  /** The two attributes a report query names its URR with. */
  function ReportKeyAttrs(link: int, urrid: u64, seid: u64): seq<NlAttr>
  {
    [LinkAttr(link),
     NlAttr(Tag(UrrAttr.URR_ID), U32(urrid % 0x1_0000_0000)),
     NlAttr(Tag(UrrAttr.URR_SEID), U64(seid))]
  }

  /** `GetReport(urrid, seid)` as written: it builds `OID{urrid, seid}`, which puts the URR id where the SEID belongs. */
  method GetReportAsWritten(transport: Transport, link: int, urrid: u64, seid: u64)
    returns (r: Result<Option<UsaReport>>, sent: Option<Request>)
    ensures sent == Some(Request({Ack}, GetReport, ReportKeyAttrs(link, seid, urrid)))
    ensures r == FirstDecodedOrNone(sent, transport, ReportSpec)
  {
    SwappedKey(link, urrid, seid);
    r, sent := GetReportOID(transport, link, [urrid, seid]);
  }

  /** The request as written sends `seid` as the URR id and `urrid` as the SEID. */
  lemma SwappedKey(link: int, urrid: u64, seid: u64)
    ensures Prepared({Ack}, GetReport, UrrOps.UrrKey, link, [urrid, seid], []) ==
              Some(Request({Ack}, GetReport, ReportKeyAttrs(link, seid, urrid)))
  {
    var oid: OID := [urrid, seid];
    ToIntLow32(seid);
    assert IdValue(W32, ID(oid).0) == U32(seid % 0x1_0000_0000);
    assert UrrOps.UrrKey == Key(UrrAttr.URR_ID, W32, UrrAttr.URR_SEID);
    assert SEID(oid) == (urrid, true);
    assert KeyAttrs(UrrOps.UrrKey, link, oid) == ReportKeyAttrs(link, seid, urrid);
    assert KeyAttrs(UrrOps.UrrKey, link, oid) + [] == KeyAttrs(UrrOps.UrrKey, link, oid);
  }

  /** With URR 1 of session 2, the query as written asks for URR 2 of session 1. */
  lemma SwapExample(link: int)
    ensures Prepared({Ack}, GetReport, UrrOps.UrrKey, link, [1, 2], []).value.attrs[1].value == U32(2)
    ensures Prepared({Ack}, GetReport, UrrOps.UrrKey, link, [1, 2], []).value.attrs[2].value == U64(1)
  {
    SwappedKey(link, 1, 2);
  }

  /** The query with the OID in its documented order `{seid, urrid}`: it names URR `urrid` of session `seid`. */
  method GetReportFixed(transport: Transport, link: int, urrid: u64, seid: u64)
    returns (r: Result<Option<UsaReport>>, sent: Option<Request>)
    ensures sent == Some(Request({Ack}, GetReport, ReportKeyAttrs(link, urrid, seid)))
    ensures r == FirstDecodedOrNone(sent, transport, ReportSpec)
  {
    SwappedKey(link, seid, urrid);
    r, sent := GetReportOID(transport, link, [seid, urrid]);
  }
}
