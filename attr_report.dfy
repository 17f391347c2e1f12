/**
 * Decoding of a usage report and of a volume measurement.  Both decoders
 * read their integers from `b[n:]`, everything after the header, instead of
 * from the attribute's own payload `b[n:attrLen]`.
 */
module ReportAttr {
  import opened Wire
  import opened Nla

  const UR_URRID: nat := 3
  const UR_USAGE_REPORT_TRIGGER: nat := 4
  const UR_URSEQN: nat := 5
  const UR_QUERY_URR_REFERENCE: nat := 6
  const UR_VOLUME_MEASUREMENT: nat := 7

  const UR_VOLUME_MEASUREMENT_FLAGS: nat := 1
  const UR_VOLUME_MEASUREMENT_TOVOL: nat := 2
  const UR_VOLUME_MEASUREMENT_UVOL: nat := 3
  const UR_VOLUME_MEASUREMENT_DVOL: nat := 4
  const UR_VOLUME_MEASUREMENT_TOPACKET: nat := 5
  const UR_VOLUME_MEASUREMENT_UPACKET: nat := 6
  const UR_VOLUME_MEASUREMENT_DPACKET: nat := 7

  datatype VolumeMeasurement = VolumeMeasurement(
    flag: byte, totalVolume: u64, uplinkVolume: u64, downlinkVolume: u64,
    totalPktNum: u64, uplinkPktNum: u64, downlinkPktNum: u64)

  datatype UsaReport = UsaReport(
    urrId: u32, urSeqn: u32, usarTrigger: u32, volMeasurement: VolumeMeasurement, queryUrrRef: u32)

  const EmptyVolumeMeasurement := VolumeMeasurement(0, 0, 0, 0, 0, 0, 0)
  const EmptyReport := UsaReport(0, 0, 0, EmptyVolumeMeasurement, 0)

  // ----- volume measurement -----

  function VolumeMeasurementStep(m: VolumeMeasurement, a: Attr): Result<VolumeMeasurement>
  {
    var t := a.Tag();
    if t == UR_VOLUME_MEASUREMENT_FLAGS then var v :- ByteAt(a); Ok(m.(flag := v))
    else if t == UR_VOLUME_MEASUREMENT_TOVOL then var v :- TailU64(a); Ok(m.(totalVolume := v))
    else if t == UR_VOLUME_MEASUREMENT_UVOL then var v :- TailU64(a); Ok(m.(uplinkVolume := v))
    else if t == UR_VOLUME_MEASUREMENT_DVOL then var v :- TailU64(a); Ok(m.(downlinkVolume := v))
    else if t == UR_VOLUME_MEASUREMENT_TOPACKET then var v :- TailU64(a); Ok(m.(totalPktNum := v))
    else if t == UR_VOLUME_MEASUREMENT_UPACKET then var v :- TailU64(a); Ok(m.(uplinkPktNum := v))
    else if t == UR_VOLUME_MEASUREMENT_DPACKET then var v :- TailU64(a); Ok(m.(downlinkPktNum := v))
    else Ok(m)
  }

  function VolumeMeasurementSpec(b: seq<byte>): Result<VolumeMeasurement>
  {
    Scan(b, EmptyVolumeMeasurement, VolumeMeasurementStep)
  }

  method DecodeVolumeMeasurement(b0: seq<byte>) returns (r: Result<VolumeMeasurement>)
    ensures r == VolumeMeasurementSpec(b0)
  {
    var m := EmptyVolumeMeasurement;
    var b := b0;
    while |b| > 0
      invariant Scan(b, m, VolumeMeasurementStep) == VolumeMeasurementSpec(b0)
      decreases |b|
    {
      var hdr :- DecodeAttrHdr(b);
      var a := Attr(hdr, b);
      var t := MaskedType(hdr);
      if t == UR_VOLUME_MEASUREMENT_FLAGS {
        var v :- ByteAt(a);
        m := m.(flag := v);
      } else if t == UR_VOLUME_MEASUREMENT_TOVOL {
        var v :- TailU64(a);
        m := m.(totalVolume := v);
      } else if t == UR_VOLUME_MEASUREMENT_UVOL {
        var v :- TailU64(a);
        m := m.(uplinkVolume := v);
      } else if t == UR_VOLUME_MEASUREMENT_DVOL {
        var v :- TailU64(a);
        m := m.(downlinkVolume := v);
      } else if t == UR_VOLUME_MEASUREMENT_TOPACKET {
        var v :- TailU64(a);
        m := m.(totalPktNum := v);
      } else if t == UR_VOLUME_MEASUREMENT_UPACKET {
        var v :- TailU64(a);
        m := m.(uplinkPktNum := v);
      } else if t == UR_VOLUME_MEASUREMENT_DPACKET {
        var v :- TailU64(a);
        m := m.(downlinkPktNum := v);
      }
      b :- Advance(a);
    }
    return Ok(m);
  }

  /** The flag and each counter are the last attribute of their type; absent counters stay 0. */
  function VolumeMeasurementView(attrs: seq<Attr>): VolumeMeasurement
  {
    VolumeMeasurement(
      LastOr(attrs, UR_VOLUME_MEASUREMENT_FLAGS, ByteAt, 0),
      LastOr(attrs, UR_VOLUME_MEASUREMENT_TOVOL, TailU64, 0),
      LastOr(attrs, UR_VOLUME_MEASUREMENT_UVOL, TailU64, 0),
      LastOr(attrs, UR_VOLUME_MEASUREMENT_DVOL, TailU64, 0),
      LastOr(attrs, UR_VOLUME_MEASUREMENT_TOPACKET, TailU64, 0),
      LastOr(attrs, UR_VOLUME_MEASUREMENT_UPACKET, TailU64, 0),
      LastOr(attrs, UR_VOLUME_MEASUREMENT_DPACKET, TailU64, 0))
  }

  lemma VolumeMeasurementStepView(attrs: seq<Attr>, a: Attr)
    ensures VolumeMeasurementStep(VolumeMeasurementView(attrs), a).Ok? ==>
              VolumeMeasurementStep(VolumeMeasurementView(attrs), a).value == VolumeMeasurementView(attrs + [a])
  {
    LastSnoc(attrs, a, UR_VOLUME_MEASUREMENT_FLAGS, ByteAt);
    LastSnoc(attrs, a, UR_VOLUME_MEASUREMENT_TOVOL, TailU64);
    LastSnoc(attrs, a, UR_VOLUME_MEASUREMENT_UVOL, TailU64);
    LastSnoc(attrs, a, UR_VOLUME_MEASUREMENT_DVOL, TailU64);
    LastSnoc(attrs, a, UR_VOLUME_MEASUREMENT_TOPACKET, TailU64);
    LastSnoc(attrs, a, UR_VOLUME_MEASUREMENT_UPACKET, TailU64);
    LastSnoc(attrs, a, UR_VOLUME_MEASUREMENT_DPACKET, TailU64);
  }

  lemma VolumeMeasurementViewSteps()
    ensures forall attrs: seq<Attr>, a: Attr :: VolumeMeasurementStep(VolumeMeasurementView(attrs), a).Ok? ==>
              VolumeMeasurementStep(VolumeMeasurementView(attrs), a).value == VolumeMeasurementView(attrs + [a])
  {
    forall attrs: seq<Attr>, a: Attr
      ensures VolumeMeasurementStep(VolumeMeasurementView(attrs), a).Ok? ==>
                VolumeMeasurementStep(VolumeMeasurementView(attrs), a).value == VolumeMeasurementView(attrs + [a])
    {
      VolumeMeasurementStepView(attrs, a);
    }
  }

  lemma VolumeMeasurementViewEmpty()
    ensures VolumeMeasurementView([]) == EmptyVolumeMeasurement
  {
  }

  lemma VolumeMeasurementFailsByAttr()
    ensures forall s: VolumeMeasurement, a: Attr ::
              VolumeMeasurementStep(s, a).Ok? == VolumeMeasurementStep(EmptyVolumeMeasurement, a).Ok?
  {
  }

  lemma VolumeMeasurementAccepts(b: seq<byte>)
    ensures VolumeMeasurementSpec(b).Ok? <==>
              WalkCompletes(b) && forall a <- Attrs(b) :: VolumeMeasurementStep(EmptyVolumeMeasurement, a).Ok?
  {
    VolumeMeasurementFailsByAttr();
    var accepts := a => VolumeMeasurementStep(EmptyVolumeMeasurement, a).Ok?;
    ScanAccepts(b, EmptyVolumeMeasurement, VolumeMeasurementStep, accepts);
  }

  lemma VolumeMeasurementViewed(b: seq<byte>)
    ensures VolumeMeasurementSpec(b).Ok? ==> VolumeMeasurementSpec(b).value == VolumeMeasurementView(Attrs(b))
  {
    VolumeMeasurementViewSteps();
    VolumeMeasurementViewEmpty();
    ScanView(b, [], VolumeMeasurementStep, VolumeMeasurementView);
    assert [] + Attrs(b) == Attrs(b);
  }

  /**
   * A volume measurement decodes exactly when the walk reaches the end and
   * every field reads (a counter needs 8 bytes after its header, wherever its
   * own length ends); each field is then the last of its type.
   */
  lemma VolumeMeasurementDecodes(b: seq<byte>)
    ensures VolumeMeasurementSpec(b).Ok? <==>
              WalkCompletes(b) && forall a <- Attrs(b) :: VolumeMeasurementStep(EmptyVolumeMeasurement, a).Ok?
    ensures VolumeMeasurementSpec(b).Ok? ==> VolumeMeasurementSpec(b).value == VolumeMeasurementView(Attrs(b))
  {
    VolumeMeasurementAccepts(b);
    VolumeMeasurementViewed(b);
  }

  // ----- usage report -----

  /** The case for UR_VOLUME_MEASUREMENT is commented out: it and QUERY_URR_REFERENCE are skipped. */
  function ReportStep(report: UsaReport, a: Attr): Result<UsaReport>
  {
    var t := a.Tag();
    if t == UR_URRID then var v :- TailU32(a); Ok(report.(urrId := v))
    else if t == UR_USAGE_REPORT_TRIGGER then var v :- TailU32(a); Ok(report.(usarTrigger := v))
    else if t == UR_URSEQN then var v :- TailU32(a); Ok(report.(urSeqn := v))
    else Ok(report)
  }

  function ReportSpec(b: seq<byte>): Result<UsaReport>
  {
    Scan(b, EmptyReport, ReportStep)
  }

  method DecodeReport(b0: seq<byte>) returns (r: Result<UsaReport>)
    ensures r == ReportSpec(b0)
  {
    var report := EmptyReport;
    var b := b0;
    while |b| > 0
      invariant Scan(b, report, ReportStep) == ReportSpec(b0)
      decreases |b|
    {
      var hdr :- DecodeAttrHdr(b);
      var a := Attr(hdr, b);
      var t := MaskedType(hdr);
      if t == UR_URRID {
        var v :- TailU32(a);
        report := report.(urrId := v);
      } else if t == UR_USAGE_REPORT_TRIGGER {
        var v :- TailU32(a);
        report := report.(usarTrigger := v);
      } else if t == UR_URSEQN {
        var v :- TailU32(a);
        report := report.(urSeqn := v);
      }
      b :- Advance(a);
    }
    return Ok(report);
  }

  /** The three words a report carries, each the last of its type; the measurement and the reference stay zero. */
  function ReportView(attrs: seq<Attr>): UsaReport
  {
    UsaReport(
      LastOr(attrs, UR_URRID, TailU32, 0),
      LastOr(attrs, UR_URSEQN, TailU32, 0),
      LastOr(attrs, UR_USAGE_REPORT_TRIGGER, TailU32, 0),
      EmptyVolumeMeasurement,
      0)
  }

  lemma ReportViewSteps()
    ensures forall attrs: seq<Attr>, a: Attr :: ReportStep(ReportView(attrs), a).Ok? ==>
              ReportStep(ReportView(attrs), a).value == ReportView(attrs + [a])
  {
    forall attrs: seq<Attr>, a: Attr
      ensures ReportStep(ReportView(attrs), a).Ok? ==> ReportStep(ReportView(attrs), a).value == ReportView(attrs + [a])
    {
      LastSnoc(attrs, a, UR_URRID, TailU32);
      LastSnoc(attrs, a, UR_URSEQN, TailU32);
      LastSnoc(attrs, a, UR_USAGE_REPORT_TRIGGER, TailU32);
    }
  }

  lemma ReportFailsByAttr()
    ensures forall s: UsaReport, a: Attr :: ReportStep(s, a).Ok? == ReportStep(EmptyReport, a).Ok?
  {
  }

  /**
   * DecodeReport succeeds exactly when the walk reaches the end of the
   * buffer and every URRID, trigger and sequence number has 4 bytes after its
   * header; the report is then the view, whatever other attributes the
   * buffer holds.
   */
  lemma ReportDecodes(b: seq<byte>)
    ensures ReportSpec(b).Ok? <==> WalkCompletes(b) && forall a <- Attrs(b) :: ReportStep(EmptyReport, a).Ok?
    ensures ReportSpec(b).Ok? ==> ReportSpec(b).value == ReportView(Attrs(b))
  {
    assert ReportSpec(b).Ok? <==> WalkCompletes(b) && forall a <- Attrs(b) :: ReportStep(EmptyReport, a).Ok? by {
      ReportFailsByAttr();
      var accepts := a => ReportStep(EmptyReport, a).Ok?;
      ScanAccepts(b, EmptyReport, ReportStep, accepts);
    }
    assert ReportSpec(b).Ok? ==> ReportSpec(b).value == ReportView(Attrs(b)) by {
      ReportViewSteps();
      assert ReportView([]) == EmptyReport;
      ScanView(b, [], ReportStep, ReportView);
      assert [] + Attrs(b) == Attrs(b);
    }
  }

  /** With the volume-measurement case commented out, a decoded report never carries a measurement or a reference. */
  lemma ReportLeavesMeasurementZero(b: seq<byte>)
    requires ReportSpec(b).Ok?
    ensures ReportSpec(b).value.volMeasurement == EmptyVolumeMeasurement
    ensures ReportSpec(b).value.queryUrrRef == 0
  {
    ReportDecodes(b);
  }

  /** Reading from `b[n:]` agrees with reading the payload wherever the payload holds the word. */
  lemma TailAgreesWithPayload(a: Attr)
    requires PayloadU32(a).Ok?
    ensures TailU32(a) == PayloadU32(a)
  {
    var p := Payload(a).value;
    assert p[..4] == a.buf[SizeofAttrHdr..][..4];
  }

  /**
   * A URRID attribute whose payload is only 2 bytes long still decodes: its
   * word takes 2 bytes from the padding or from the next attribute, where
   * the payload read fails.
   */
  lemma TailReadsPastAttribute()
    ensures var a := Attr(AttrHdr(6, UR_URRID), [6, 0, 3, 0, 1, 2, 0, 0]);
            PayloadU32(a).Err? && TailU32(a) == Ok(0x201)
  {
    var a := Attr(AttrHdr(6, UR_URRID), [6, 0, 3, 0, 1, 2, 0, 0]);
    assert a.buf[SizeofAttrHdr..] == [1, 2, 0, 0];
    assert Payload(a).value == [1, 2];
  }
}
