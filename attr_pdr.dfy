/**
 * Decoding of a packet detection rule (PDR) and of the attribute lists
 * nested in it: the packet detection information (PDI), the fully
 * qualified tunnel endpoint id (F-TEID), the service data flow filter and
 * its flow description.
 *
 * Each decoder is a loop over the attributes of its buffer (module Nla):
 * `XStep` is the body of the loop's switch, `XSpec` the whole loop as a
 * function, `DecodeX` the loop itself, and `XView` the same result stated
 * field by field over the attributes the loop visits.
 */
module PdrAttr {
  import opened Wire
  import opened Nla

  const PDR_ID: nat := 3
  const PDR_PRECEDENCE: nat := 4
  const PDR_PDI: nat := 5
  const PDR_OUTER_HEADER_REMOVAL: nat := 6
  const PDR_FAR_ID: nat := 7
  const PDR_ROLE_ADDR_IPV4: nat := 8
  const PDR_UNIX_SOCKET_PATH: nat := 9
  const PDR_QER_ID: nat := 10
  const PDR_SEID: nat := 11
  const PDR_URR_ID: nat := 12

  const PDI_UE_ADDR_IPV4: nat := 1
  const PDI_F_TEID: nat := 2
  const PDI_SDF_FILTER: nat := 3
  const PDI_SRC_INTF: nat := 4

  const F_TEID_I_TEID: nat := 1
  const F_TEID_GTPU_ADDR_IPV4: nat := 2

  const SDF_FILTER_FLOW_DESCRIPTION: nat := 1
  const SDF_FILTER_TOS_TRAFFIC_CLASS: nat := 2
  const SDF_FILTER_SECURITY_PARAMETER_INDEX: nat := 3
  const SDF_FILTER_FLOW_LABEL: nat := 4
  const SDF_FILTER_SDF_FILTER_ID: nat := 5

  const FLOW_DESCRIPTION_ACTION: nat := 1
  const FLOW_DESCRIPTION_DIRECTION: nat := 2
  const FLOW_DESCRIPTION_PROTOCOL: nat := 3
  const FLOW_DESCRIPTION_SRC_IPV4: nat := 4
  const FLOW_DESCRIPTION_SRC_MASK: nat := 5
  const FLOW_DESCRIPTION_DEST_IPV4: nat := 6
  const FLOW_DESCRIPTION_DEST_MASK: nat := 7
  const FLOW_DESCRIPTION_SRC_PORT: nat := 8
  const FLOW_DESCRIPTION_DEST_PORT: nat := 9

  /** An address and mask; `None` is Go's nil slice. */
  datatype IpNet = IpNet(ip: Option<Ip4>, mask: Option<Ip4>)

  /** A port entry: `[p]` for a single port, `[lb, ub]` for a range. */
  type PortEntry = seq<u16>

  datatype FlowDesc = FlowDesc(
    action: byte, dir: byte, proto: byte,
    src: IpNet, dst: IpNet,
    srcPorts: seq<PortEntry>, dstPorts: seq<PortEntry>)

  datatype SdfFilter = SdfFilter(
    fd: Option<FlowDesc>, ttc: Option<u16>, spi: Option<u32>, fl: Option<u32>, bid: Option<u32>)

  datatype Fteid = Fteid(teid: u32, gtpuAddr: Option<Ip4>)

  datatype Pdi = Pdi(ueAddr: Option<Ip4>, fteid: Option<Fteid>, sdf: Option<SdfFilter>)

  datatype Pdr = Pdr(
    id: u16, precedence: Option<u32>, pdi: Option<Pdi>, outerHdrRemoval: Option<byte>,
    farId: Option<u32>, qerIds: seq<u32>, urrIds: seq<u32>, seid: Option<u64>)

  const EmptyFlowDesc := FlowDesc(0, 0, 0, IpNet(None, None), IpNet(None, None), [], [])
  const EmptySdfFilter := SdfFilter(None, None, None, None, None)
  const EmptyFteid := Fteid(0, None)
  const EmptyPdi := Pdi(None, None, None)
  const EmptyPdr := Pdr(0, None, None, None, None, [], [], None)

  // ----- port words -----

  /** One port word: the high half is the lower bound, the low half the upper bound, dropped when equal. */
  function PortWord(v: u32): (e: PortEntry)
    ensures |e| == 1 || |e| == 2
    ensures e[0] == v / 0x1_0000
    ensures |e| == 2 <==> v % 0x1_0000 != v / 0x1_0000
    ensures e[|e| - 1] == v % 0x1_0000
  {
    var lb := v / 0x1_0000;
    var ub := v % 0x1_0000;
    if ub != lb then [lb, ub] else [lb]
  }

  /** The word a well-formed port entry packs into: lower bound in the high half. */
  function PackPorts(e: PortEntry): u32
    requires |e| == 1 || (|e| == 2 && e[0] != e[1])
  {
    if |e| == 1 then e[0] as int * 0x1_0000 + e[0] as int else e[0] as int * 0x1_0000 + e[1] as int
  }

  lemma PortWordPack(e: PortEntry)
    requires |e| == 1 || (|e| == 2 && e[0] != e[1])
    ensures PortWord(PackPorts(e)) == e
  {
  }

  /** The words of a port attribute from offset `n` to its length `end`, one `native.Uint32(b[n:end])` each. */
  function PortWords(buf: seq<byte>, n: nat, end: nat): (r: Result<seq<PortEntry>>)
    ensures r.Err? ==> r.error == OutOfRange
    decreases end - n
  {
    if n >= end then Ok([])
    else if end > |buf| || end - n < 4 then Err(OutOfRange)
    else
      var rest :- PortWords(buf, n + 4, end);
      Ok([PortWord(Le32(buf[n..end]))] + rest)
  }

  /** The ports a SRC_PORT or DEST_PORT attribute adds. */
  function Ports(a: Attr): Result<seq<PortEntry>>
  {
    PortWords(a.buf, SizeofAttrHdr, a.hdr.len)
  }

  /** A port attribute decodes when its length reaches no further than 4 or its payload is a whole number of words inside the buffer. */
  lemma {:induction false} PortWordsOk(buf: seq<byte>, n: nat, end: nat)
    ensures PortWords(buf, n, end).Ok? <==> end <= n || (end <= |buf| && (end - n) % 4 == 0)
    decreases end - n
  {
    if n < end && end <= |buf| && end - n >= 4 {
      PortWordsOk(buf, n + 4, end);
    }
  }

  /** A decoded port attribute has one entry per word, in order. */
  lemma {:induction false} PortWordsShape(buf: seq<byte>, n: nat, end: nat)
    requires PortWords(buf, n, end).Ok?
    ensures var ps := PortWords(buf, n, end).value;
            |ps| == (if end <= n then 0 else (end - n) / 4) &&
            forall i :: 0 <= i < |ps| ==> n + 4 * i + 4 <= |buf| && ps[i] == PortWord(Le32(buf[n + 4 * i..]))
    decreases end - n
  {
    if n < end {
      PortWordsShape(buf, n + 4, end);
      var ps := PortWords(buf, n, end).value;
      forall i | 0 <= i < |ps|
        ensures n + 4 * i + 4 <= |buf| && ps[i] == PortWord(Le32(buf[n + 4 * i..]))
      {
        if i == 0 {
          assert buf[n..end][..4] == buf[n..][..4];
        } else {
          assert n + 4 * i == n + 4 + 4 * (i - 1);
        }
      }
    }
  }

  /** The loop `for n < attrLen` over one port attribute. */
  method DecodePorts(a: Attr) returns (r: Result<seq<PortEntry>>)
    ensures r == Ports(a)
  {
    var n := SizeofAttrHdr;
    var attrLen := a.hdr.len as nat;
    var ports: seq<PortEntry> := [];
    while n < attrLen
      invariant Ports(a).Ok? <==> PortWords(a.buf, n, attrLen).Ok?
      invariant PortWords(a.buf, n, attrLen).Ok? ==> Ports(a).value == ports + PortWords(a.buf, n, attrLen).value
      decreases attrLen - n
    {
      if attrLen > |a.buf| || attrLen - n < 4 {
        return Err(OutOfRange);
      }
      var v := Le32(a.buf[n..attrLen]);
      ports := ports + [PortWord(v)];
      n := n + 4;
    }
    assert ports + [] == ports;
    return Ok(ports);
  }

  // ----- flow description -----

  function FlowDescStep(fd: FlowDesc, a: Attr): Result<FlowDesc>
  {
    var t := a.Tag();
    if t == FLOW_DESCRIPTION_ACTION then var v :- ByteAt(a); Ok(fd.(action := v))
    else if t == FLOW_DESCRIPTION_DIRECTION then var v :- ByteAt(a); Ok(fd.(dir := v))
    else if t == FLOW_DESCRIPTION_PROTOCOL then var v :- ByteAt(a); Ok(fd.(proto := v))
    else if t == FLOW_DESCRIPTION_SRC_IPV4 then var v :- Ip4At(a); Ok(fd.(src := fd.src.(ip := Some(v))))
    else if t == FLOW_DESCRIPTION_SRC_MASK then var v :- Ip4At(a); Ok(fd.(src := fd.src.(mask := Some(v))))
    else if t == FLOW_DESCRIPTION_DEST_IPV4 then var v :- Ip4At(a); Ok(fd.(dst := fd.dst.(ip := Some(v))))
    else if t == FLOW_DESCRIPTION_DEST_MASK then var v :- Ip4At(a); Ok(fd.(dst := fd.dst.(mask := Some(v))))
    else if t == FLOW_DESCRIPTION_SRC_PORT then var ps :- Ports(a); Ok(fd.(srcPorts := fd.srcPorts + ps))
    else if t == FLOW_DESCRIPTION_DEST_PORT then var ps :- Ports(a); Ok(fd.(dstPorts := fd.dstPorts + ps))
    else Ok(fd)
  }

  function FlowDescSpec(b: seq<byte>): Result<FlowDesc>
  {
    Scan(b, EmptyFlowDesc, FlowDescStep)
  }

  method DecodeFlowDesc(b0: seq<byte>) returns (r: Result<FlowDesc>)
    ensures r == FlowDescSpec(b0)
  {
    var fd := EmptyFlowDesc;
    var b := b0;
    while |b| > 0
      invariant Scan(b, fd, FlowDescStep) == FlowDescSpec(b0)
      decreases |b|
    {
      var hdr :- DecodeAttrHdr(b);
      var a := Attr(hdr, b);
      var t := MaskedType(hdr);
      if t == FLOW_DESCRIPTION_ACTION {
        var v :- ByteAt(a);
        fd := fd.(action := v);
      } else if t == FLOW_DESCRIPTION_DIRECTION {
        var v :- ByteAt(a);
        fd := fd.(dir := v);
      } else if t == FLOW_DESCRIPTION_PROTOCOL {
        var v :- ByteAt(a);
        fd := fd.(proto := v);
      } else if t == FLOW_DESCRIPTION_SRC_IPV4 {
        var v :- Ip4At(a);
        fd := fd.(src := fd.src.(ip := Some(v)));
      } else if t == FLOW_DESCRIPTION_SRC_MASK {
        var v :- Ip4At(a);
        fd := fd.(src := fd.src.(mask := Some(v)));
      } else if t == FLOW_DESCRIPTION_DEST_IPV4 {
        var v :- Ip4At(a);
        fd := fd.(dst := fd.dst.(ip := Some(v)));
      } else if t == FLOW_DESCRIPTION_DEST_MASK {
        var v :- Ip4At(a);
        fd := fd.(dst := fd.dst.(mask := Some(v)));
      } else if t == FLOW_DESCRIPTION_SRC_PORT {
        var ps :- DecodePorts(a);
        fd := fd.(srcPorts := fd.srcPorts + ps);
      } else if t == FLOW_DESCRIPTION_DEST_PORT {
        var ps :- DecodePorts(a);
        fd := fd.(dstPorts := fd.dstPorts + ps);
      }
      b :- Advance(a);
    }
    return Ok(fd);
  }

  /** Field by field: the last action, direction, protocol, address and mask; all port entries in wire order. */
  function FlowDescView(attrs: seq<Attr>): FlowDesc
  {
    FlowDesc(
      LastOr(attrs, FLOW_DESCRIPTION_ACTION, ByteAt, 0),
      LastOr(attrs, FLOW_DESCRIPTION_DIRECTION, ByteAt, 0),
      LastOr(attrs, FLOW_DESCRIPTION_PROTOCOL, ByteAt, 0),
      IpNet(Last(attrs, FLOW_DESCRIPTION_SRC_IPV4, Ip4At), Last(attrs, FLOW_DESCRIPTION_SRC_MASK, Ip4At)),
      IpNet(Last(attrs, FLOW_DESCRIPTION_DEST_IPV4, Ip4At), Last(attrs, FLOW_DESCRIPTION_DEST_MASK, Ip4At)),
      Concat(attrs, FLOW_DESCRIPTION_SRC_PORT, Ports),
      Concat(attrs, FLOW_DESCRIPTION_DEST_PORT, Ports))
  }

  lemma FlowDescStepView(attrs: seq<Attr>, a: Attr)
    ensures FlowDescStep(FlowDescView(attrs), a).Ok? ==> FlowDescStep(FlowDescView(attrs), a).value == FlowDescView(attrs + [a])
  {
    LastSnoc(attrs, a, FLOW_DESCRIPTION_ACTION, ByteAt);
    LastSnoc(attrs, a, FLOW_DESCRIPTION_DIRECTION, ByteAt);
    LastSnoc(attrs, a, FLOW_DESCRIPTION_PROTOCOL, ByteAt);
    LastSnoc(attrs, a, FLOW_DESCRIPTION_SRC_IPV4, Ip4At);
    LastSnoc(attrs, a, FLOW_DESCRIPTION_SRC_MASK, Ip4At);
    LastSnoc(attrs, a, FLOW_DESCRIPTION_DEST_IPV4, Ip4At);
    LastSnoc(attrs, a, FLOW_DESCRIPTION_DEST_MASK, Ip4At);
    ConcatSnoc(attrs, a, FLOW_DESCRIPTION_SRC_PORT, Ports);
    ConcatSnoc(attrs, a, FLOW_DESCRIPTION_DEST_PORT, Ports);
  }

  /**
   * The flow description loop succeeds exactly when it reaches the end of
   * the buffer and every attribute's field read succeeds, and then each
   * field is what the field-by-field view says.
   */
  lemma FlowDescDecodes(b: seq<byte>)
    ensures FlowDescSpec(b).Ok? <==> WalkCompletes(b) && forall a <- Attrs(b) :: FlowDescStep(EmptyFlowDesc, a).Ok?
    ensures FlowDescSpec(b).Ok? ==> FlowDescSpec(b).value == FlowDescView(Attrs(b))
  {
    assert FlowDescSpec(b).Ok? <==> WalkCompletes(b) && forall a <- Attrs(b) :: FlowDescStep(EmptyFlowDesc, a).Ok? by {
      FlowDescFailsByAttr();
      var accepts := a => FlowDescStep(EmptyFlowDesc, a).Ok?;
      ScanAccepts(b, EmptyFlowDesc, FlowDescStep, accepts);
    }
    assert FlowDescSpec(b).Ok? ==> FlowDescSpec(b).value == FlowDescView(Attrs(b)) by {
      FlowDescViewSteps();
      FlowDescViewEmpty();
      ScanView(b, [], FlowDescStep, FlowDescView);
      assert [] + Attrs(b) == Attrs(b);
    }
  }

  lemma FlowDescViewEmpty()
    ensures FlowDescView([]) == EmptyFlowDesc
  {
  }

  lemma FlowDescViewSteps()
    ensures forall attrs: seq<Attr>, a: Attr :: FlowDescStep(FlowDescView(attrs), a).Ok? ==>
              FlowDescStep(FlowDescView(attrs), a).value == FlowDescView(attrs + [a])
  {
    forall attrs: seq<Attr>, a: Attr
      ensures FlowDescStep(FlowDescView(attrs), a).Ok? ==> FlowDescStep(FlowDescView(attrs), a).value == FlowDescView(attrs + [a])
    {
      FlowDescStepView(attrs, a);
    }
  }

  lemma FlowDescFailsByAttr()
    ensures forall s: FlowDesc, a: Attr :: FlowDescStep(s, a).Ok? == FlowDescStep(EmptyFlowDesc, a).Ok?
  {
  }

  // ----- service data flow filter -----

  /** A nested flow description: its payload decoded on its own. */
  function ReadFlowDesc(a: Attr): Result<FlowDesc>
  {
    var p :- Payload(a);
    FlowDescSpec(p)
  }

  function SdfFilterStep(sdf: SdfFilter, a: Attr): Result<SdfFilter>
  {
    var t := a.Tag();
    if t == SDF_FILTER_FLOW_DESCRIPTION then var fd :- ReadFlowDesc(a); Ok(sdf.(fd := Some(fd)))
    else if t == SDF_FILTER_TOS_TRAFFIC_CLASS then var v :- PayloadU16(a); Ok(sdf.(ttc := Some(v)))
    else if t == SDF_FILTER_SECURITY_PARAMETER_INDEX then var v :- PayloadU32(a); Ok(sdf.(spi := Some(v)))
    else if t == SDF_FILTER_FLOW_LABEL then var v :- PayloadU32(a); Ok(sdf.(fl := Some(v)))
    else if t == SDF_FILTER_SDF_FILTER_ID then var v :- PayloadU32(a); Ok(sdf.(bid := Some(v)))
    else Ok(sdf)
  }

  function SdfFilterSpec(b: seq<byte>): Result<SdfFilter>
  {
    Scan(b, EmptySdfFilter, SdfFilterStep)
  }

  method DecodeSDFFilter(b0: seq<byte>) returns (r: Result<SdfFilter>)
    ensures r == SdfFilterSpec(b0)
  {
    var sdf := EmptySdfFilter;
    var b := b0;
    while |b| > 0
      invariant Scan(b, sdf, SdfFilterStep) == SdfFilterSpec(b0)
      decreases |b|
    {
      var hdr :- DecodeAttrHdr(b);
      var a := Attr(hdr, b);
      var t := MaskedType(hdr);
      if t == SDF_FILTER_FLOW_DESCRIPTION {
        var p :- Payload(a);
        var fd :- DecodeFlowDesc(p);
        sdf := sdf.(fd := Some(fd));
      } else if t == SDF_FILTER_TOS_TRAFFIC_CLASS {
        var v :- PayloadU16(a);
        sdf := sdf.(ttc := Some(v));
      } else if t == SDF_FILTER_SECURITY_PARAMETER_INDEX {
        var v :- PayloadU32(a);
        sdf := sdf.(spi := Some(v));
      } else if t == SDF_FILTER_FLOW_LABEL {
        var v :- PayloadU32(a);
        sdf := sdf.(fl := Some(v));
      } else if t == SDF_FILTER_SDF_FILTER_ID {
        var v :- PayloadU32(a);
        sdf := sdf.(bid := Some(v));
      }
      b :- Advance(a);
    }
    return Ok(sdf);
  }

  /** Field by field: each field is the last attribute of its type, or nil. */
  function SdfFilterView(attrs: seq<Attr>): SdfFilter
  {
    SdfFilter(
      Last(attrs, SDF_FILTER_FLOW_DESCRIPTION, ReadFlowDesc),
      Last(attrs, SDF_FILTER_TOS_TRAFFIC_CLASS, PayloadU16),
      Last(attrs, SDF_FILTER_SECURITY_PARAMETER_INDEX, PayloadU32),
      Last(attrs, SDF_FILTER_FLOW_LABEL, PayloadU32),
      Last(attrs, SDF_FILTER_SDF_FILTER_ID, PayloadU32))
  }

  lemma SdfFilterStepView(attrs: seq<Attr>, a: Attr)
    ensures SdfFilterStep(SdfFilterView(attrs), a).Ok? ==> SdfFilterStep(SdfFilterView(attrs), a).value == SdfFilterView(attrs + [a])
  {
    LastSnoc(attrs, a, SDF_FILTER_FLOW_DESCRIPTION, ReadFlowDesc);
    LastSnoc(attrs, a, SDF_FILTER_TOS_TRAFFIC_CLASS, PayloadU16);
    LastSnoc(attrs, a, SDF_FILTER_SECURITY_PARAMETER_INDEX, PayloadU32);
    LastSnoc(attrs, a, SDF_FILTER_FLOW_LABEL, PayloadU32);
    LastSnoc(attrs, a, SDF_FILTER_SDF_FILTER_ID, PayloadU32);
  }

  lemma SdfFilterViewSteps()
    ensures forall attrs: seq<Attr>, a: Attr :: SdfFilterStep(SdfFilterView(attrs), a).Ok? ==>
              SdfFilterStep(SdfFilterView(attrs), a).value == SdfFilterView(attrs + [a])
  {
    forall attrs: seq<Attr>, a: Attr
      ensures SdfFilterStep(SdfFilterView(attrs), a).Ok? ==> SdfFilterStep(SdfFilterView(attrs), a).value == SdfFilterView(attrs + [a])
    {
      SdfFilterStepView(attrs, a);
    }
  }

  lemma SdfFilterFailsByAttr()
    ensures forall s: SdfFilter, a: Attr :: SdfFilterStep(s, a).Ok? == SdfFilterStep(EmptySdfFilter, a).Ok?
  {
  }

  /**
   * The filter loop succeeds exactly when it reaches the end of the buffer
   * and every attribute's field read succeeds (a nested flow description
   * that fails to decode fails the filter), and then each field is the last
   * attribute of its type.
   */
  lemma SdfFilterDecodes(b: seq<byte>)
    ensures SdfFilterSpec(b).Ok? <==> WalkCompletes(b) && forall a <- Attrs(b) :: SdfFilterStep(EmptySdfFilter, a).Ok?
    ensures SdfFilterSpec(b).Ok? ==> SdfFilterSpec(b).value == SdfFilterView(Attrs(b))
  {
    assert SdfFilterSpec(b).Ok? <==> WalkCompletes(b) && forall a <- Attrs(b) :: SdfFilterStep(EmptySdfFilter, a).Ok? by {
      SdfFilterFailsByAttr();
      var accepts := a => SdfFilterStep(EmptySdfFilter, a).Ok?;
      ScanAccepts(b, EmptySdfFilter, SdfFilterStep, accepts);
    }
    assert SdfFilterSpec(b).Ok? ==> SdfFilterSpec(b).value == SdfFilterView(Attrs(b)) by {
      SdfFilterViewSteps();
      assert SdfFilterView([]) == EmptySdfFilter;
      ScanView(b, [], SdfFilterStep, SdfFilterView);
      assert [] + Attrs(b) == Attrs(b);
    }
  }

  // ----- F-TEID -----

  function FteidStep(f: Fteid, a: Attr): Result<Fteid>
  {
    var t := a.Tag();
    if t == F_TEID_I_TEID then var v :- PayloadU32(a); Ok(f.(teid := v))
    else if t == F_TEID_GTPU_ADDR_IPV4 then var v :- Ip4At(a); Ok(f.(gtpuAddr := Some(v)))
    else Ok(f)
  }

  function FteidSpec(b: seq<byte>): Result<Fteid>
  {
    Scan(b, EmptyFteid, FteidStep)
  }

  method DecodeFTEID(b0: seq<byte>) returns (r: Result<Fteid>)
    ensures r == FteidSpec(b0)
  {
    var fteid := EmptyFteid;
    var b := b0;
    while |b| > 0
      invariant Scan(b, fteid, FteidStep) == FteidSpec(b0)
      decreases |b|
    {
      var hdr :- DecodeAttrHdr(b);
      var a := Attr(hdr, b);
      var t := MaskedType(hdr);
      if t == F_TEID_I_TEID {
        var v :- PayloadU32(a);
        fteid := fteid.(teid := v);
      } else if t == F_TEID_GTPU_ADDR_IPV4 {
        var v :- Ip4At(a);
        fteid := fteid.(gtpuAddr := Some(v));
      }
      b :- Advance(a);
    }
    return Ok(fteid);
  }

  /** The last TEID (0 when absent) and the last GTP-U address (nil when absent). */
  function FteidView(attrs: seq<Attr>): Fteid
  {
    Fteid(LastOr(attrs, F_TEID_I_TEID, PayloadU32, 0), Last(attrs, F_TEID_GTPU_ADDR_IPV4, Ip4At))
  }

  lemma FteidViewSteps()
    ensures forall attrs: seq<Attr>, a: Attr :: FteidStep(FteidView(attrs), a).Ok? ==>
              FteidStep(FteidView(attrs), a).value == FteidView(attrs + [a])
  {
    forall attrs: seq<Attr>, a: Attr
      ensures FteidStep(FteidView(attrs), a).Ok? ==> FteidStep(FteidView(attrs), a).value == FteidView(attrs + [a])
    {
      LastSnoc(attrs, a, F_TEID_I_TEID, PayloadU32);
      LastSnoc(attrs, a, F_TEID_GTPU_ADDR_IPV4, Ip4At);
    }
  }

  lemma FteidDecodes(b: seq<byte>)
    ensures FteidSpec(b).Ok? <==> WalkCompletes(b) && forall a <- Attrs(b) :: FteidStep(EmptyFteid, a).Ok?
    ensures FteidSpec(b).Ok? ==> FteidSpec(b).value == FteidView(Attrs(b))
  {
    assert FteidSpec(b).Ok? <==> WalkCompletes(b) && forall a <- Attrs(b) :: FteidStep(EmptyFteid, a).Ok? by {
      FteidFailsByAttr();
      var accepts := a => FteidStep(EmptyFteid, a).Ok?;
      ScanAccepts(b, EmptyFteid, FteidStep, accepts);
    }
    assert FteidSpec(b).Ok? ==> FteidSpec(b).value == FteidView(Attrs(b)) by {
      FteidViewSteps();
      assert FteidView([]) == EmptyFteid;
      ScanView(b, [], FteidStep, FteidView);
      assert [] + Attrs(b) == Attrs(b);
    }
  }

  // ----- PDI -----

  function ReadFteid(a: Attr): Result<Fteid>
  {
    var p :- Payload(a);
    FteidSpec(p)
  }

  function ReadSdfFilter(a: Attr): Result<SdfFilter>
  {
    var p :- Payload(a);
    SdfFilterSpec(p)
  }

  /** The PDI switch has no default case: other types, such as the source interface, are skipped. */
  function PdiStep(pdi: Pdi, a: Attr): Result<Pdi>
  {
    var t := a.Tag();
    if t == PDI_UE_ADDR_IPV4 then var v :- Ip4At(a); Ok(pdi.(ueAddr := Some(v)))
    else if t == PDI_F_TEID then var f :- ReadFteid(a); Ok(pdi.(fteid := Some(f)))
    else if t == PDI_SDF_FILTER then var sdf :- ReadSdfFilter(a); Ok(pdi.(sdf := Some(sdf)))
    else Ok(pdi)
  }

  function PdiSpec(b: seq<byte>): Result<Pdi>
  {
    Scan(b, EmptyPdi, PdiStep)
  }

  method DecodePDI(b0: seq<byte>) returns (r: Result<Pdi>)
    ensures r == PdiSpec(b0)
  {
    var pdi := EmptyPdi;
    var b := b0;
    while |b| > 0
      invariant Scan(b, pdi, PdiStep) == PdiSpec(b0)
      decreases |b|
    {
      var hdr :- DecodeAttrHdr(b);
      var a := Attr(hdr, b);
      var t := MaskedType(hdr);
      if t == PDI_UE_ADDR_IPV4 {
        var v :- Ip4At(a);
        pdi := pdi.(ueAddr := Some(v));
      } else if t == PDI_F_TEID {
        var p :- Payload(a);
        var f :- DecodeFTEID(p);
        pdi := pdi.(fteid := Some(f));
      } else if t == PDI_SDF_FILTER {
        var p :- Payload(a);
        var sdf :- DecodeSDFFilter(p);
        pdi := pdi.(sdf := Some(sdf));
      }
      b :- Advance(a);
    }
    return Ok(pdi);
  }

  function PdiView(attrs: seq<Attr>): Pdi
  {
    Pdi(Last(attrs, PDI_UE_ADDR_IPV4, Ip4At), Last(attrs, PDI_F_TEID, ReadFteid), Last(attrs, PDI_SDF_FILTER, ReadSdfFilter))
  }

  lemma PdiViewSteps()
    ensures forall attrs: seq<Attr>, a: Attr :: PdiStep(PdiView(attrs), a).Ok? ==>
              PdiStep(PdiView(attrs), a).value == PdiView(attrs + [a])
  {
    forall attrs: seq<Attr>, a: Attr
      ensures PdiStep(PdiView(attrs), a).Ok? ==> PdiStep(PdiView(attrs), a).value == PdiView(attrs + [a])
    {
      LastSnoc(attrs, a, PDI_UE_ADDR_IPV4, Ip4At);
      LastSnoc(attrs, a, PDI_F_TEID, ReadFteid);
      LastSnoc(attrs, a, PDI_SDF_FILTER, ReadSdfFilter);
    }
  }

  /**
   * The PDI loop succeeds exactly when it reaches the end of the buffer and
   * every address read and nested F-TEID and filter decode succeeds; each
   * field is then the last attribute of its type, or nil.
   */
  lemma PdiDecodes(b: seq<byte>)
    ensures PdiSpec(b).Ok? <==> WalkCompletes(b) && forall a <- Attrs(b) :: PdiStep(EmptyPdi, a).Ok?
    ensures PdiSpec(b).Ok? ==> PdiSpec(b).value == PdiView(Attrs(b))
  {
    assert PdiSpec(b).Ok? <==> WalkCompletes(b) && forall a <- Attrs(b) :: PdiStep(EmptyPdi, a).Ok? by {
      PdiFailsByAttr();
      var accepts := a => PdiStep(EmptyPdi, a).Ok?;
      ScanAccepts(b, EmptyPdi, PdiStep, accepts);
    }
    assert PdiSpec(b).Ok? ==> PdiSpec(b).value == PdiView(Attrs(b)) by {
      PdiViewSteps();
      assert PdiView([]) == EmptyPdi;
      ScanView(b, [], PdiStep, PdiView);
      assert [] + Attrs(b) == Attrs(b);
    }
  }

  // ----- PDR -----

  function ReadPdi(a: Attr): Result<Pdi>
  {
    var p :- Payload(a);
    PdiSpec(p)
  }

  /** The PDR switch; the role address and socket path types fall to the logging default and are skipped. */
  function PdrStep(pdr: Pdr, a: Attr): Result<Pdr>
  {
    var t := a.Tag();
    if t == PDR_ID then var v :- PayloadU16(a); Ok(pdr.(id := v))
    else if t == PDR_PRECEDENCE then var v :- PayloadU32(a); Ok(pdr.(precedence := Some(v)))
    else if t == PDR_PDI then var pdi :- ReadPdi(a); Ok(pdr.(pdi := Some(pdi)))
    else if t == PDR_OUTER_HEADER_REMOVAL then var v :- ByteAt(a); Ok(pdr.(outerHdrRemoval := Some(v)))
    else if t == PDR_FAR_ID then var v :- PayloadU32(a); Ok(pdr.(farId := Some(v)))
    else if t == PDR_QER_ID then var v :- PayloadU32(a); Ok(pdr.(qerIds := pdr.qerIds + [v]))
    else if t == PDR_URR_ID then var v :- PayloadU32(a); Ok(pdr.(urrIds := pdr.urrIds + [v]))
    else if t == PDR_SEID then var v :- PayloadU64(a); Ok(pdr.(seid := Some(v)))
    else Ok(pdr)
  }

  function PdrSpec(b: seq<byte>): Result<Pdr>
  {
    Scan(b, EmptyPdr, PdrStep)
  }

  method DecodePDR(b0: seq<byte>) returns (r: Result<Pdr>)
    ensures r == PdrSpec(b0)
  {
    var pdr := EmptyPdr;
    var b := b0;
    while |b| > 0
      invariant Scan(b, pdr, PdrStep) == PdrSpec(b0)
      decreases |b|
    {
      var hdr :- DecodeAttrHdr(b);
      var a := Attr(hdr, b);
      var t := MaskedType(hdr);
      if t == PDR_ID {
        var v :- PayloadU16(a);
        pdr := pdr.(id := v);
      } else if t == PDR_PRECEDENCE {
        var v :- PayloadU32(a);
        pdr := pdr.(precedence := Some(v));
      } else if t == PDR_PDI {
        var p :- Payload(a);
        var pdi :- DecodePDI(p);
        pdr := pdr.(pdi := Some(pdi));
      } else if t == PDR_OUTER_HEADER_REMOVAL {
        var v :- ByteAt(a);
        pdr := pdr.(outerHdrRemoval := Some(v));
      } else if t == PDR_FAR_ID {
        var v :- PayloadU32(a);
        pdr := pdr.(farId := Some(v));
      } else if t == PDR_QER_ID {
        var v :- PayloadU32(a);
        pdr := pdr.(qerIds := pdr.qerIds + [v]);
      } else if t == PDR_URR_ID {
        var v :- PayloadU32(a);
        pdr := pdr.(urrIds := pdr.urrIds + [v]);
      } else if t == PDR_SEID {
        var v :- PayloadU64(a);
        pdr := pdr.(seid := Some(v));
      }
      b :- Advance(a);
    }
    return Ok(pdr);
  }

  /**
   * Field by field: the id is the last PDR_ID (0 when absent), each
   * optional field the last attribute of its type (nil when absent), and
   * the QER and URR id lists hold one entry per attribute, in wire order.
   */
  function PdrView(attrs: seq<Attr>): Pdr
  {
    Pdr(
      LastOr(attrs, PDR_ID, PayloadU16, 0),
      Last(attrs, PDR_PRECEDENCE, PayloadU32),
      Last(attrs, PDR_PDI, ReadPdi),
      Last(attrs, PDR_OUTER_HEADER_REMOVAL, ByteAt),
      Last(attrs, PDR_FAR_ID, PayloadU32),
      Every(attrs, PDR_QER_ID, PayloadU32),
      Every(attrs, PDR_URR_ID, PayloadU32),
      Last(attrs, PDR_SEID, PayloadU64))
  }

  lemma PdrStepView(attrs: seq<Attr>, a: Attr)
    ensures PdrStep(PdrView(attrs), a).Ok? ==> PdrStep(PdrView(attrs), a).value == PdrView(attrs + [a])
  {
    LastSnoc(attrs, a, PDR_ID, PayloadU16);
    LastSnoc(attrs, a, PDR_PRECEDENCE, PayloadU32);
    LastSnoc(attrs, a, PDR_PDI, ReadPdi);
    LastSnoc(attrs, a, PDR_OUTER_HEADER_REMOVAL, ByteAt);
    LastSnoc(attrs, a, PDR_FAR_ID, PayloadU32);
    EverySnoc(attrs, a, PDR_QER_ID, PayloadU32);
    EverySnoc(attrs, a, PDR_URR_ID, PayloadU32);
    LastSnoc(attrs, a, PDR_SEID, PayloadU64);
  }

  lemma PdrViewSteps()
    ensures forall attrs: seq<Attr>, a: Attr :: PdrStep(PdrView(attrs), a).Ok? ==>
              PdrStep(PdrView(attrs), a).value == PdrView(attrs + [a])
  {
    forall attrs: seq<Attr>, a: Attr
      ensures PdrStep(PdrView(attrs), a).Ok? ==> PdrStep(PdrView(attrs), a).value == PdrView(attrs + [a])
    {
      PdrStepView(attrs, a);
    }
  }

  lemma PdrFailsByAttr()
    ensures forall s: Pdr, a: Attr :: PdrStep(s, a).Ok? == PdrStep(EmptyPdr, a).Ok?
  {
  }

  /**
   * DecodePDR succeeds exactly when the walk reaches the end of the buffer
   * and every attribute's field read (and nested PDI decode) succeeds; the
   * PDR is then the field-by-field view of the visited attributes.
   */
  lemma PdrDecodes(b: seq<byte>)
    ensures PdrSpec(b).Ok? <==> WalkCompletes(b) && forall a <- Attrs(b) :: PdrStep(EmptyPdr, a).Ok?
    ensures PdrSpec(b).Ok? ==> PdrSpec(b).value == PdrView(Attrs(b))
  {
    assert PdrSpec(b).Ok? <==> WalkCompletes(b) && forall a <- Attrs(b) :: PdrStep(EmptyPdr, a).Ok? by {
      PdrFailsByAttr();
      var accepts := a => PdrStep(EmptyPdr, a).Ok?;
      ScanAccepts(b, EmptyPdr, PdrStep, accepts);
    }
    assert PdrSpec(b).Ok? ==> PdrSpec(b).value == PdrView(Attrs(b)) by {
      PdrViewSteps();
      assert PdrView([]) == EmptyPdr;
      ScanView(b, [], PdrStep, PdrView);
      assert [] + Attrs(b) == Attrs(b);
    }
  }

  /** The number of QER ids is the number of QER_ID attributes in the walk, and likewise for URR ids. */
  lemma PdrIdCounts(b: seq<byte>)
    requires PdrSpec(b).Ok?
    ensures |PdrSpec(b).value.qerIds| == CountTag(Attrs(b), PDR_QER_ID)
    ensures |PdrSpec(b).value.urrIds| == CountTag(Attrs(b), PDR_URR_ID)
  {
    var attrs := Attrs(b);
    assert PdrSpec(b).value == PdrView(attrs) && forall a <- attrs :: PdrStep(EmptyPdr, a).Ok? by {
      PdrDecodes(b);
    }
    assert forall a <- attrs :: a.Tag() == PDR_QER_ID ==> PayloadU32(a).Ok? by {
      forall a <- attrs | a.Tag() == PDR_QER_ID ensures PayloadU32(a).Ok? {
        assert PdrStep(EmptyPdr, a).Ok?;
      }
    }
    assert forall a <- attrs :: a.Tag() == PDR_URR_ID ==> PayloadU32(a).Ok? by {
      forall a <- attrs | a.Tag() == PDR_URR_ID ensures PayloadU32(a).Ok? {
        assert PdrStep(EmptyPdr, a).Ok?;
      }
    }
    EveryCount(attrs, PDR_QER_ID, PayloadU32);
    EveryCount(attrs, PDR_URR_ID, PayloadU32);
  }

  lemma FteidFailsByAttr()
    ensures forall s: Fteid, a: Attr :: FteidStep(s, a).Ok? == FteidStep(EmptyFteid, a).Ok?
  {
  }

  lemma PdiFailsByAttr()
    ensures forall s: Pdi, a: Attr :: PdiStep(s, a).Ok? == PdiStep(EmptyPdi, a).Ok?
  {
  }
}
