/** Decoding of a buffering action rule (BAR). */
module BarAttr {
  import opened Wire
  import opened Nla

  const BAR_ID: nat := 3
  const BAR_DOWNLINK_DATA_NOTIFICATION_DELAY: nat := 4
  const BAR_BUFFERING_PACKETS_COUNT: nat := 5
  const BAR_SEID: nat := 6

  datatype Bar = Bar(id: byte, delay: Option<byte>, count: Option<u16>, seid: Option<u64>)

  const EmptyBar := Bar(0, None, None, None)

  function BarStep(bar: Bar, a: Attr): Result<Bar>
  {
    var t := a.Tag();
    if t == BAR_ID then var v :- ByteAt(a); Ok(bar.(id := v))
    else if t == BAR_DOWNLINK_DATA_NOTIFICATION_DELAY then var v :- ByteAt(a); Ok(bar.(delay := Some(v)))
    else if t == BAR_BUFFERING_PACKETS_COUNT then var v :- PayloadU16(a); Ok(bar.(count := Some(v)))
    else if t == BAR_SEID then var v :- PayloadU64(a); Ok(bar.(seid := Some(v)))
    else Ok(bar)
  }

  function BarSpec(b: seq<byte>): Result<Bar>
  {
    Scan(b, EmptyBar, BarStep)
  }

  method DecodeBAR(b0: seq<byte>) returns (r: Result<Bar>)
    ensures r == BarSpec(b0)
  {
    var bar := EmptyBar;
    var b := b0;
    while |b| > 0
      invariant Scan(b, bar, BarStep) == BarSpec(b0)
      decreases |b|
    {
      var hdr :- DecodeAttrHdr(b);
      var a := Attr(hdr, b);
      var t := MaskedType(hdr);
      if t == BAR_ID {
        var v :- ByteAt(a);
        bar := bar.(id := v);
      } else if t == BAR_DOWNLINK_DATA_NOTIFICATION_DELAY {
        var v :- ByteAt(a);
        bar := bar.(delay := Some(v));
      } else if t == BAR_BUFFERING_PACKETS_COUNT {
        var v :- PayloadU16(a);
        bar := bar.(count := Some(v));
      } else if t == BAR_SEID {
        var v :- PayloadU64(a);
        bar := bar.(seid := Some(v));
      }
      b :- Advance(a);
    }
    return Ok(bar);
  }

  /** The id is the last BAR_ID (0 when absent); delay, count and SEID the last of their type, nil when absent. */
  function BarView(attrs: seq<Attr>): Bar
  {
    Bar(
      LastOr(attrs, BAR_ID, ByteAt, 0),
      Last(attrs, BAR_DOWNLINK_DATA_NOTIFICATION_DELAY, ByteAt),
      Last(attrs, BAR_BUFFERING_PACKETS_COUNT, PayloadU16),
      Last(attrs, BAR_SEID, PayloadU64))
  }

  lemma BarViewSteps()
    ensures forall attrs: seq<Attr>, a: Attr :: BarStep(BarView(attrs), a).Ok? ==>
              BarStep(BarView(attrs), a).value == BarView(attrs + [a])
  {
    forall attrs: seq<Attr>, a: Attr
      ensures BarStep(BarView(attrs), a).Ok? ==> BarStep(BarView(attrs), a).value == BarView(attrs + [a])
    {
      LastSnoc(attrs, a, BAR_ID, ByteAt);
      LastSnoc(attrs, a, BAR_DOWNLINK_DATA_NOTIFICATION_DELAY, ByteAt);
      LastSnoc(attrs, a, BAR_BUFFERING_PACKETS_COUNT, PayloadU16);
      LastSnoc(attrs, a, BAR_SEID, PayloadU64);
    }
  }

  lemma BarFailsByAttr()
    ensures forall s: Bar, a: Attr :: BarStep(s, a).Ok? == BarStep(EmptyBar, a).Ok?
  {
  }

  /**
   * DecodeBAR succeeds exactly when the walk reaches the end and every read
   * succeeds (an id or delay needs a payload byte, a count 2 bytes, a SEID 8);
   * the BAR is then the field-by-field view.
   */
  lemma BarDecodes(b: seq<byte>)
    ensures BarSpec(b).Ok? <==> WalkCompletes(b) && forall a <- Attrs(b) :: BarStep(EmptyBar, a).Ok?
    ensures BarSpec(b).Ok? ==> BarSpec(b).value == BarView(Attrs(b))
  {
    assert BarSpec(b).Ok? <==> WalkCompletes(b) && forall a <- Attrs(b) :: BarStep(EmptyBar, a).Ok? by {
      BarFailsByAttr();
      var accepts := a => BarStep(EmptyBar, a).Ok?;
      ScanAccepts(b, EmptyBar, BarStep, accepts);
    }
    assert BarSpec(b).Ok? ==> BarSpec(b).value == BarView(Attrs(b)) by {
      BarViewSteps();
      assert BarView([]) == EmptyBar;
      ScanView(b, [], BarStep, BarView);
      assert [] + Attrs(b) == Attrs(b);
    }
  }

  /** A BAR built by the encoder from an id alone decodes to that id with nothing else set. */
  lemma BarIdOnly(id: byte)
    ensures BarSpec(EncodeAttr(BAR_ID as u16, [id])) == Ok(Bar(id, None, None, None))
  {
    var b := EncodeAttr(BAR_ID as u16, [id]);
    ScanEncoded(BAR_ID as u16, [id], [], EmptyBar, BarStep);
    EncodeAttrReads(BAR_ID as u16, [id], []);
    assert b + [] == b;
    var a := Attr(AttrHdr(SizeofAttrHdr + 1, BAR_ID as u16), b);
    assert a.buf[SizeofAttrHdr] == id by {
      assert Payload(a).value == [id];
    }
    assert BarStep(EmptyBar, a) == Ok(Bar(id, None, None, None));
  }
}
