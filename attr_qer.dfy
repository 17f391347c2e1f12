/**
 * Decoding of a QoS enforcement rule (QER) and of its two bit-rate
 * attribute lists.  The maximum (MBR) and guaranteed (GBR) bit rates have
 * identical layouts and decoders in the library; both are `BitRate` here,
 * decoded by `DecodeBitRate`.
 */
module QerAttr {
  import opened Wire
  import opened Nla

  const QER_ID: nat := 3
  const QER_GATE: nat := 4
  const QER_MBR: nat := 5
  const QER_GBR: nat := 6
  const QER_CORR_ID: nat := 7
  const QER_RQI: nat := 8
  const QER_QFI: nat := 9
  const QER_PPI: nat := 10
  const QER_RCSR: nat := 11
  const QER_RELATED_TO_PDR: nat := 12
  const QER_SEID: nat := 13

  /** The same four types serve QER_MBR_* and QER_GBR_*. */
  const RATE_UL_HIGH32: nat := 1
  const RATE_UL_LOW8: nat := 2
  const RATE_DL_HIGH32: nat := 3
  const RATE_DL_LOW8: nat := 4

  /** A rate in each direction, sent as a 32-bit high part and an 8-bit low part of a 40-bit kbps value. */
  datatype BitRate = BitRate(
    ulHigh: u32, ulLow: byte, ulKbps: u64,
    dlHigh: u32, dlLow: byte, dlKbps: u64)

  datatype Qer = Qer(
    id: u32, gate: byte, mbr: BitRate, gbr: BitRate, corrId: u32,
    rqi: byte, qfi: byte, ppi: byte, pdrIds: seq<u16>, seid: Option<u64>)

  const EmptyBitRate := BitRate(0, 0, 0, 0, 0, 0)
  const EmptyQer := Qer(0, 0, EmptyBitRate, EmptyBitRate, 0, 0, 0, 0, [], None)

  /** `uint64(high)<<8 + uint64(low)`: the 40-bit rate whose high 32 bits and low 8 bits are the two parts. */
  function Kbps(high: u32, low: byte): (k: u64)
    ensures k < 0x100_0000_0000
    ensures k / 0x100 == high && k % 0x100 == low
  {
    high * 0x100 + low
  }

  // ----- bit rates -----

  function BitRateStep(r: BitRate, a: Attr): Result<BitRate>
  {
    var t := a.Tag();
    if t == RATE_UL_HIGH32 then var v :- PayloadU32(a); Ok(r.(ulHigh := v))
    else if t == RATE_UL_LOW8 then var v :- ByteAt(a); Ok(r.(ulLow := v))
    else if t == RATE_DL_HIGH32 then var v :- PayloadU32(a); Ok(r.(dlHigh := v))
    else if t == RATE_DL_LOW8 then var v :- ByteAt(a); Ok(r.(dlLow := v))
    else Ok(r)
  }

  /** The loop, then the two kbps values computed from the parts it found. */
  function BitRateSpec(b: seq<byte>): Result<BitRate>
  {
    var r :- Scan(b, EmptyBitRate, BitRateStep);
    Ok(r.(ulKbps := Kbps(r.ulHigh, r.ulLow), dlKbps := Kbps(r.dlHigh, r.dlLow)))
  }

  /** DecodeMBR and DecodeGBR. */
  method DecodeBitRate(b0: seq<byte>) returns (res: Result<BitRate>)
    ensures res == BitRateSpec(b0)
  {
    var r := EmptyBitRate;
    var b := b0;
    while |b| > 0
      invariant Scan(b, r, BitRateStep) == Scan(b0, EmptyBitRate, BitRateStep)
      decreases |b|
    {
      var hdr :- DecodeAttrHdr(b);
      var a := Attr(hdr, b);
      var t := MaskedType(hdr);
      if t == RATE_UL_HIGH32 {
        var v :- PayloadU32(a);
        r := r.(ulHigh := v);
      } else if t == RATE_UL_LOW8 {
        var v :- ByteAt(a);
        r := r.(ulLow := v);
      } else if t == RATE_DL_HIGH32 {
        var v :- PayloadU32(a);
        r := r.(dlHigh := v);
      } else if t == RATE_DL_LOW8 {
        var v :- ByteAt(a);
        r := r.(dlLow := v);
      }
      b :- Advance(a);
    }
    r := r.(ulKbps := Kbps(r.ulHigh, r.ulLow));
    r := r.(dlKbps := Kbps(r.dlHigh, r.dlLow));
    return Ok(r);
  }

  /** The state of the loop: the last part of each kind (0 when absent), with the rates not yet filled in. */
  function BitRateParts(attrs: seq<Attr>): BitRate
  {
    BitRate(
      LastOr(attrs, RATE_UL_HIGH32, PayloadU32, 0), LastOr(attrs, RATE_UL_LOW8, ByteAt, 0), 0,
      LastOr(attrs, RATE_DL_HIGH32, PayloadU32, 0), LastOr(attrs, RATE_DL_LOW8, ByteAt, 0), 0)
  }

  /** The parts, and the rates they give. */
  function BitRateView(attrs: seq<Attr>): BitRate
  {
    var p := BitRateParts(attrs);
    p.(ulKbps := Kbps(p.ulHigh, p.ulLow), dlKbps := Kbps(p.dlHigh, p.dlLow))
  }

  lemma BitRatePartsSteps()
    ensures forall attrs: seq<Attr>, a: Attr :: BitRateStep(BitRateParts(attrs), a).Ok? ==>
              BitRateStep(BitRateParts(attrs), a).value == BitRateParts(attrs + [a])
  {
    forall attrs: seq<Attr>, a: Attr
      ensures BitRateStep(BitRateParts(attrs), a).Ok? ==> BitRateStep(BitRateParts(attrs), a).value == BitRateParts(attrs + [a])
    {
      LastSnoc(attrs, a, RATE_UL_HIGH32, PayloadU32);
      LastSnoc(attrs, a, RATE_UL_LOW8, ByteAt);
      LastSnoc(attrs, a, RATE_DL_HIGH32, PayloadU32);
      LastSnoc(attrs, a, RATE_DL_LOW8, ByteAt);
    }
  }

  lemma BitRateFailsByAttr()
    ensures forall s: BitRate, a: Attr :: BitRateStep(s, a).Ok? == BitRateStep(EmptyBitRate, a).Ok?
  {
  }

  /** The loop reaches the end exactly when the walk does and every part reads. */
  lemma BitRateScanAccepts(b: seq<byte>)
    ensures Scan(b, EmptyBitRate, BitRateStep).Ok? <==>
              WalkCompletes(b) && forall a <- Attrs(b) :: BitRateStep(EmptyBitRate, a).Ok?
  {
    BitRateFailsByAttr();
    var accepts := a => BitRateStep(EmptyBitRate, a).Ok?;
    ScanAccepts(b, EmptyBitRate, BitRateStep, accepts);
  }

  /** The loop leaves the last part of each kind. */
  lemma BitRateScanParts(b: seq<byte>)
    ensures Scan(b, EmptyBitRate, BitRateStep).Ok? ==>
              Scan(b, EmptyBitRate, BitRateStep).value == BitRateParts(Attrs(b))
  {
    assert BitRateParts([]) == EmptyBitRate;
    assert [] + Attrs(b) == Attrs(b);
    assert Scan(b, BitRateParts([]), BitRateStep).Ok? ==>
             Scan(b, BitRateParts([]), BitRateStep).value == BitRateParts([] + Attrs(b)) by {
      BitRatePartsSteps();
      ScanView(b, [], BitRateStep, BitRateParts);
    }
  }

  /** Both rates agree with their parts: `kbps >> 8 == high` and `kbps & 0xFF == low`. */
  predicate RatesAgree(r: BitRate)
  {
    r.ulKbps / 0x100 == r.ulHigh && r.ulKbps % 0x100 == r.ulLow &&
    r.dlKbps / 0x100 == r.dlHigh && r.dlKbps % 0x100 == r.dlLow
  }

  /**
   * A bit rate decodes exactly when the walk reaches the end and every part
   * reads; each part is then the last of its kind and each rate the 40-bit
   * value of its parts.
   */
  lemma BitRateDecodes(b: seq<byte>)
    ensures BitRateSpec(b).Ok? <==> WalkCompletes(b) && forall a <- Attrs(b) :: BitRateStep(EmptyBitRate, a).Ok?
    ensures BitRateSpec(b).Ok? ==> BitRateSpec(b).value == BitRateView(Attrs(b))
    ensures BitRateSpec(b).Ok? ==> RatesAgree(BitRateSpec(b).value)
  {
    BitRateScanAccepts(b);
    BitRateScanParts(b);
  }

  // ----- QER -----

  function ReadBitRate(a: Attr): Result<BitRate>
  {
    var p :- Payload(a);
    BitRateSpec(p)
  }

  /** No default case: the deprecated RCSR and any other type are skipped. */
  function QerStep(qer: Qer, a: Attr): Result<Qer>
  {
    var t := a.Tag();
    if t == QER_ID then var v :- PayloadU32(a); Ok(qer.(id := v))
    else if t == QER_GATE then var v :- ByteAt(a); Ok(qer.(gate := v))
    else if t == QER_MBR then var v :- ReadBitRate(a); Ok(qer.(mbr := v))
    else if t == QER_GBR then var v :- ReadBitRate(a); Ok(qer.(gbr := v))
    else if t == QER_CORR_ID then var v :- PayloadU32(a); Ok(qer.(corrId := v))
    else if t == QER_RQI then var v :- ByteAt(a); Ok(qer.(rqi := v))
    else if t == QER_QFI then var v :- ByteAt(a); Ok(qer.(qfi := v))
    else if t == QER_PPI then var v :- ByteAt(a); Ok(qer.(ppi := v))
    else if t == QER_RELATED_TO_PDR then var ids :- PayloadU16List(a); Ok(qer.(pdrIds := qer.pdrIds + ids))
    else if t == QER_SEID then var v :- PayloadU64(a); Ok(qer.(seid := Some(v)))
    else Ok(qer)
  }

  function QerSpec(b: seq<byte>): Result<Qer>
  {
    Scan(b, EmptyQer, QerStep)
  }

  method DecodeQER(b0: seq<byte>) returns (r: Result<Qer>)
    ensures r == QerSpec(b0)
  {
    var qer := EmptyQer;
    var b := b0;
    while |b| > 0
      invariant Scan(b, qer, QerStep) == QerSpec(b0)
      decreases |b|
    {
      var hdr :- DecodeAttrHdr(b);
      var a := Attr(hdr, b);
      var t := MaskedType(hdr);
      if t == QER_ID {
        var v :- PayloadU32(a);
        qer := qer.(id := v);
      } else if t == QER_GATE {
        var v :- ByteAt(a);
        qer := qer.(gate := v);
      } else if t == QER_MBR {
        var p :- Payload(a);
        var mbr :- DecodeBitRate(p);
        qer := qer.(mbr := mbr);
      } else if t == QER_GBR {
        var p :- Payload(a);
        var gbr :- DecodeBitRate(p);
        qer := qer.(gbr := gbr);
      } else if t == QER_CORR_ID {
        var v :- PayloadU32(a);
        qer := qer.(corrId := v);
      } else if t == QER_RQI {
        var v :- ByteAt(a);
        qer := qer.(rqi := v);
      } else if t == QER_QFI {
        var v :- ByteAt(a);
        qer := qer.(qfi := v);
      } else if t == QER_PPI {
        var v :- ByteAt(a);
        qer := qer.(ppi := v);
      } else if t == QER_RELATED_TO_PDR {
        var d :- Payload(a);
        var ids :- DecodeUint16s(qer.pdrIds, d);
        qer := qer.(pdrIds := ids);
      } else if t == QER_SEID {
        var v :- PayloadU64(a);
        qer := qer.(seid := Some(v));
      }
      b :- Advance(a);
    }
    return Ok(qer);
  }

  /**
   * Field by field: every scalar and both rates are the last of their type
   * (zero when absent), the SEID the last (nil when absent), and the PDR ids
   * every RELATED_TO_PDR payload's ids concatenated in wire order.
   */
  function QerView(attrs: seq<Attr>): Qer
  {
    Qer(
      LastOr(attrs, QER_ID, PayloadU32, 0),
      LastOr(attrs, QER_GATE, ByteAt, 0),
      LastOr(attrs, QER_MBR, ReadBitRate, EmptyBitRate),
      LastOr(attrs, QER_GBR, ReadBitRate, EmptyBitRate),
      LastOr(attrs, QER_CORR_ID, PayloadU32, 0),
      LastOr(attrs, QER_RQI, ByteAt, 0),
      LastOr(attrs, QER_QFI, ByteAt, 0),
      LastOr(attrs, QER_PPI, ByteAt, 0),
      Concat(attrs, QER_RELATED_TO_PDR, PayloadU16List),
      Last(attrs, QER_SEID, PayloadU64))
  }

  lemma QerStepView(attrs: seq<Attr>, a: Attr)
    ensures QerStep(QerView(attrs), a).Ok? ==> QerStep(QerView(attrs), a).value == QerView(attrs + [a])
  {
    LastSnoc(attrs, a, QER_ID, PayloadU32);
    LastSnoc(attrs, a, QER_GATE, ByteAt);
    LastSnoc(attrs, a, QER_MBR, ReadBitRate);
    LastSnoc(attrs, a, QER_GBR, ReadBitRate);
    LastSnoc(attrs, a, QER_CORR_ID, PayloadU32);
    LastSnoc(attrs, a, QER_RQI, ByteAt);
    LastSnoc(attrs, a, QER_QFI, ByteAt);
    LastSnoc(attrs, a, QER_PPI, ByteAt);
    ConcatSnoc(attrs, a, QER_RELATED_TO_PDR, PayloadU16List);
    LastSnoc(attrs, a, QER_SEID, PayloadU64);
  }

  lemma QerViewSteps()
    ensures forall attrs: seq<Attr>, a: Attr :: QerStep(QerView(attrs), a).Ok? ==>
              QerStep(QerView(attrs), a).value == QerView(attrs + [a])
  {
    forall attrs: seq<Attr>, a: Attr
      ensures QerStep(QerView(attrs), a).Ok? ==> QerStep(QerView(attrs), a).value == QerView(attrs + [a])
    {
      QerStepView(attrs, a);
    }
  }

  lemma QerFailsByAttr()
    ensures forall s: Qer, a: Attr :: QerStep(s, a).Ok? == QerStep(EmptyQer, a).Ok?
  {
  }

  /**
   * DecodeQER succeeds exactly when the walk reaches the end and every read
   * succeeds (a bit rate that fails to decode fails the QER); the QER is then
   * the field-by-field view.
   */
  lemma QerDecodes(b: seq<byte>)
    ensures QerSpec(b).Ok? <==> WalkCompletes(b) && forall a <- Attrs(b) :: QerStep(EmptyQer, a).Ok?
    ensures QerSpec(b).Ok? ==> QerSpec(b).value == QerView(Attrs(b))
  {
    assert QerSpec(b).Ok? <==> WalkCompletes(b) && forall a <- Attrs(b) :: QerStep(EmptyQer, a).Ok? by {
      QerFailsByAttr();
      var accepts := a => QerStep(EmptyQer, a).Ok?;
      ScanAccepts(b, EmptyQer, QerStep, accepts);
    }
    assert QerSpec(b).Ok? ==> QerSpec(b).value == QerView(Attrs(b)) by {
      QerViewSteps();
      assert QerView([]) == EmptyQer;
      ScanView(b, [], QerStep, QerView);
      assert [] + Attrs(b) == Attrs(b);
    }
  }

  /** Whatever the buffer holds, both rates of a decoded QER agree with their parts. */
  lemma QerRatesConsistent(b: seq<byte>)
    requires QerSpec(b).Ok?
    ensures RatesAgree(QerSpec(b).value.mbr) && RatesAgree(QerSpec(b).value.gbr)
  {
    QerDecodes(b);
    LastRatesAgree(Attrs(b), QER_MBR);
    LastRatesAgree(Attrs(b), QER_GBR);
  }

  lemma {:induction false} LastRatesAgree(attrs: seq<Attr>, t: nat)
    ensures Last(attrs, t, ReadBitRate).Some? ==> RatesAgree(Last(attrs, t, ReadBitRate).value)
  {
    if attrs != [] {
      var a := attrs[|attrs| - 1];
      if !(a.Tag() == t && ReadBitRate(a).Ok?) {
        LastRatesAgree(attrs[..|attrs| - 1], t);
      }
    }
  }
}
