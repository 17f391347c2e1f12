/** The version query: one request without attributes, exactly one response expected. */
module VersionOps {
  import opened Wire
  import opened Nla
  import opened Rpc
  import opened VersionAttr

  const VersionRequest := Request({Ack}, Cmd.GetVersion, [])

  /** The version, or why there is none: the transport's error, a count of responses other than one, or a decoding error. */
  function VersionOf(transport: Transport): Result<seq<byte>>
  {
    var msgs :- transport(VersionRequest);
    if |msgs| != 1 then Err(InvalidVersion)
    else
      var body :- Body(msgs[0]);
      DecodeVersion(body)
  }

  method GetVersion(transport: Transport) returns (r: Result<seq<byte>>)
    ensures r == VersionOf(transport)
  {
    var rsps := transport(VersionRequest);
    if rsps.Err? {
      return Err(rsps.error);
    }
    if |rsps.value| != 1 {
      return Err(InvalidVersion);
    }
    var body := Body(rsps.value[0]);
    if body.Err? {
      return Err(body.error);
    }
    r := DecodeVersion(body.value);
  }

  /**
   * The transport's error comes back unchanged; zero or several responses
   * are the error "invalid Version"; a single response shorter than the
   * two headers is a fault or a header error.
   */
  lemma VersionCases(transport: Transport)
    ensures transport(VersionRequest).Err? ==> VersionOf(transport) == Err(transport(VersionRequest).error)
    ensures transport(VersionRequest).Ok? && |transport(VersionRequest).value| != 1 ==>
              VersionOf(transport) == Err(InvalidVersion)
    ensures transport(VersionRequest).Ok? && |transport(VersionRequest).value| == 1 ==>
              (VersionOf(transport).Ok? <==> |transport(VersionRequest).value[0]| >= GenlHeaderLen + SizeofAttrHdr)
  {
  }

  /**
   * A single response holding any generic netlink header and then the
   * version as a NUL-terminated attribute gives back the version.
   */
  lemma VersionAnswered(transport: Transport, genl: seq<byte>, t: u16, v: seq<byte>)
    requires |genl| == GenlHeaderLen
    requires |v| > 0 && v[0] != 0 && v[|v| - 1] != 0
    requires SizeofAttrHdr + |v| + 1 < 0x1_0000
    requires transport(VersionRequest) == Ok([genl + EncodeAttr(t, v + [0])])
    ensures VersionOf(transport) == Ok(v)
  {
    var m := genl + EncodeAttr(t, v + [0]);
    assert Body(m).value == EncodeAttr(t, v + [0]);
    VersionRoundTrip(t, v);
  }
}
