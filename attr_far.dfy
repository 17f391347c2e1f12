/**
 * Decoding of a forwarding action rule (FAR), its forwarding parameters
 * and the outer header creation nested in them.  Same shape as PdrAttr:
 * step, loop function, loop method, field-by-field view.
 */
module FarAttr {
  import opened Wire
  import opened Nla

  const FAR_ID: nat := 3
  const FAR_APPLY_ACTION: nat := 4
  const FAR_FORWARDING_PARAMETER: nat := 5
  const FAR_RELATED_TO_PDR: nat := 6
  const FAR_UL_OR_DL: nat := 7
  const FAR_SEID: nat := 8
  const FAR_BAR_ID: nat := 9

  const FORWARDING_PARAMETER_OUTER_HEADER_CREATION: nat := 1
  const FORWARDING_PARAMETER_FORWARDING_POLICY: nat := 2
  const FORWARDING_PARAMETER_PFCPSM_REQ_FLAGS: nat := 3
  const FORWARDING_PARAMETER_TOS_TC: nat := 4

  const OUTER_HEADER_CREATION_DESCRIPTION: nat := 1
  const OUTER_HEADER_CREATION_O_TEID: nat := 2
  const OUTER_HEADER_CREATION_PEER_ADDR_IPV4: nat := 3
  const OUTER_HEADER_CREATION_PORT: nat := 4

  datatype HeaderCreation = HeaderCreation(desc: u16, teid: u32, peerAddr: Option<Ip4>, port: u16)

  /** The forwarding policy is kept as the bytes of its payload. */
  datatype ForwardParam = ForwardParam(creation: Option<HeaderCreation>, policy: Option<seq<byte>>, tosTc: byte)

  datatype Far = Far(
    id: u32, action: u16, param: Option<ForwardParam>, pdrIds: seq<u16>,
    barId: Option<byte>, seid: Option<u64>, ulOrDl: byte)

  const EmptyHeaderCreation := HeaderCreation(0, 0, None, 0)
  const EmptyForwardParam := ForwardParam(None, None, 0)
  const EmptyFar := Far(0, 0, None, [], None, None, 0)

  // ----- outer header creation -----

  function HeaderCreationStep(hc: HeaderCreation, a: Attr): Result<HeaderCreation>
  {
    var t := a.Tag();
    if t == OUTER_HEADER_CREATION_DESCRIPTION then var v :- PayloadU16(a); Ok(hc.(desc := v))
    else if t == OUTER_HEADER_CREATION_O_TEID then var v :- PayloadU32(a); Ok(hc.(teid := v))
    else if t == OUTER_HEADER_CREATION_PEER_ADDR_IPV4 then var v :- Ip4At(a); Ok(hc.(peerAddr := Some(v)))
    else if t == OUTER_HEADER_CREATION_PORT then var v :- PayloadU16(a); Ok(hc.(port := v))
    else Ok(hc)
  }

  function HeaderCreationSpec(b: seq<byte>): Result<HeaderCreation>
  {
    Scan(b, EmptyHeaderCreation, HeaderCreationStep)
  }

  method DecodeHeaderCreation(b0: seq<byte>) returns (r: Result<HeaderCreation>)
    ensures r == HeaderCreationSpec(b0)
  {
    var hc := EmptyHeaderCreation;
    var b := b0;
    while |b| > 0
      invariant Scan(b, hc, HeaderCreationStep) == HeaderCreationSpec(b0)
      decreases |b|
    {
      var hdr :- DecodeAttrHdr(b);
      var a := Attr(hdr, b);
      var t := MaskedType(hdr);
      if t == OUTER_HEADER_CREATION_DESCRIPTION {
        var v :- PayloadU16(a);
        hc := hc.(desc := v);
      } else if t == OUTER_HEADER_CREATION_O_TEID {
        var v :- PayloadU32(a);
        hc := hc.(teid := v);
      } else if t == OUTER_HEADER_CREATION_PEER_ADDR_IPV4 {
        var v :- Ip4At(a);
        hc := hc.(peerAddr := Some(v));
      } else if t == OUTER_HEADER_CREATION_PORT {
        var v :- PayloadU16(a);
        hc := hc.(port := v);
      }
      b :- Advance(a);
    }
    return Ok(hc);
  }

  /** The last description, TEID, peer address and port; 0 (nil for the address) when absent. */
  function HeaderCreationView(attrs: seq<Attr>): HeaderCreation
  {
    HeaderCreation(
      LastOr(attrs, OUTER_HEADER_CREATION_DESCRIPTION, PayloadU16, 0),
      LastOr(attrs, OUTER_HEADER_CREATION_O_TEID, PayloadU32, 0),
      Last(attrs, OUTER_HEADER_CREATION_PEER_ADDR_IPV4, Ip4At),
      LastOr(attrs, OUTER_HEADER_CREATION_PORT, PayloadU16, 0))
  }

  lemma HeaderCreationViewSteps()
    ensures forall attrs: seq<Attr>, a: Attr :: HeaderCreationStep(HeaderCreationView(attrs), a).Ok? ==>
              HeaderCreationStep(HeaderCreationView(attrs), a).value == HeaderCreationView(attrs + [a])
  {
    forall attrs: seq<Attr>, a: Attr
      ensures HeaderCreationStep(HeaderCreationView(attrs), a).Ok? ==>
                HeaderCreationStep(HeaderCreationView(attrs), a).value == HeaderCreationView(attrs + [a])
    {
      LastSnoc(attrs, a, OUTER_HEADER_CREATION_DESCRIPTION, PayloadU16);
      LastSnoc(attrs, a, OUTER_HEADER_CREATION_O_TEID, PayloadU32);
      LastSnoc(attrs, a, OUTER_HEADER_CREATION_PEER_ADDR_IPV4, Ip4At);
      LastSnoc(attrs, a, OUTER_HEADER_CREATION_PORT, PayloadU16);
    }
  }

  lemma HeaderCreationDecodes(b: seq<byte>)
    ensures HeaderCreationSpec(b).Ok? <==>
              WalkCompletes(b) && forall a <- Attrs(b) :: HeaderCreationStep(EmptyHeaderCreation, a).Ok?
    ensures HeaderCreationSpec(b).Ok? ==> HeaderCreationSpec(b).value == HeaderCreationView(Attrs(b))
  {
    assert HeaderCreationSpec(b).Ok? <==> WalkCompletes(b) && forall a <- Attrs(b) :: HeaderCreationStep(EmptyHeaderCreation, a).Ok? by {
      HeaderCreationFailsByAttr();
      var accepts := a => HeaderCreationStep(EmptyHeaderCreation, a).Ok?;
      ScanAccepts(b, EmptyHeaderCreation, HeaderCreationStep, accepts);
    }
    assert HeaderCreationSpec(b).Ok? ==> HeaderCreationSpec(b).value == HeaderCreationView(Attrs(b)) by {
      HeaderCreationViewSteps();
      assert HeaderCreationView([]) == EmptyHeaderCreation;
      ScanView(b, [], HeaderCreationStep, HeaderCreationView);
      assert [] + Attrs(b) == Attrs(b);
    }
  }

  // ----- forwarding parameters -----

  function ReadHeaderCreation(a: Attr): Result<HeaderCreation>
  {
    var p :- Payload(a);
    HeaderCreationSpec(p)
  }

  /** No default case: the PFCPSM request flags and any other type are skipped. */
  function ForwardParamStep(param: ForwardParam, a: Attr): Result<ForwardParam>
  {
    var t := a.Tag();
    if t == FORWARDING_PARAMETER_OUTER_HEADER_CREATION then
      var hc :- ReadHeaderCreation(a); Ok(param.(creation := Some(hc)))
    else if t == FORWARDING_PARAMETER_FORWARDING_POLICY then
      var p :- Payload(a); Ok(param.(policy := Some(p)))
    else if t == FORWARDING_PARAMETER_TOS_TC then
      var v :- ByteAt(a); Ok(param.(tosTc := v))
    else Ok(param)
  }

  function ForwardParamSpec(b: seq<byte>): Result<ForwardParam>
  {
    Scan(b, EmptyForwardParam, ForwardParamStep)
  }

  method DecodeForwardParam(b0: seq<byte>) returns (r: Result<ForwardParam>)
    ensures r == ForwardParamSpec(b0)
  {
    var param := EmptyForwardParam;
    var b := b0;
    while |b| > 0
      invariant Scan(b, param, ForwardParamStep) == ForwardParamSpec(b0)
      decreases |b|
    {
      var hdr :- DecodeAttrHdr(b);
      var a := Attr(hdr, b);
      var t := MaskedType(hdr);
      if t == FORWARDING_PARAMETER_OUTER_HEADER_CREATION {
        var p :- Payload(a);
        var hc :- DecodeHeaderCreation(p);
        param := param.(creation := Some(hc));
      } else if t == FORWARDING_PARAMETER_FORWARDING_POLICY {
        var p :- Payload(a);
        param := param.(policy := Some(p));
      } else if t == FORWARDING_PARAMETER_TOS_TC {
        var v :- ByteAt(a);
        param := param.(tosTc := v);
      }
      b :- Advance(a);
    }
    return Ok(param);
  }

  function ForwardParamView(attrs: seq<Attr>): ForwardParam
  {
    ForwardParam(
      Last(attrs, FORWARDING_PARAMETER_OUTER_HEADER_CREATION, ReadHeaderCreation),
      Last(attrs, FORWARDING_PARAMETER_FORWARDING_POLICY, Payload),
      LastOr(attrs, FORWARDING_PARAMETER_TOS_TC, ByteAt, 0))
  }

  lemma ForwardParamViewSteps()
    ensures forall attrs: seq<Attr>, a: Attr :: ForwardParamStep(ForwardParamView(attrs), a).Ok? ==>
              ForwardParamStep(ForwardParamView(attrs), a).value == ForwardParamView(attrs + [a])
  {
    forall attrs: seq<Attr>, a: Attr
      ensures ForwardParamStep(ForwardParamView(attrs), a).Ok? ==>
                ForwardParamStep(ForwardParamView(attrs), a).value == ForwardParamView(attrs + [a])
    {
      LastSnoc(attrs, a, FORWARDING_PARAMETER_OUTER_HEADER_CREATION, ReadHeaderCreation);
      LastSnoc(attrs, a, FORWARDING_PARAMETER_FORWARDING_POLICY, Payload);
      LastSnoc(attrs, a, FORWARDING_PARAMETER_TOS_TC, ByteAt);
    }
  }

  /**
   * The parameter loop succeeds exactly when it reaches the end of the
   * buffer and every read succeeds; only the header creation, the policy
   * and the TOS/traffic class are set, whatever else the buffer holds.
   */
  lemma ForwardParamDecodes(b: seq<byte>)
    ensures ForwardParamSpec(b).Ok? <==>
              WalkCompletes(b) && forall a <- Attrs(b) :: ForwardParamStep(EmptyForwardParam, a).Ok?
    ensures ForwardParamSpec(b).Ok? ==> ForwardParamSpec(b).value == ForwardParamView(Attrs(b))
  {
    assert ForwardParamSpec(b).Ok? <==> WalkCompletes(b) && forall a <- Attrs(b) :: ForwardParamStep(EmptyForwardParam, a).Ok? by {
      ForwardParamFailsByAttr();
      var accepts := a => ForwardParamStep(EmptyForwardParam, a).Ok?;
      ScanAccepts(b, EmptyForwardParam, ForwardParamStep, accepts);
    }
    assert ForwardParamSpec(b).Ok? ==> ForwardParamSpec(b).value == ForwardParamView(Attrs(b)) by {
      ForwardParamViewSteps();
      assert ForwardParamView([]) == EmptyForwardParam;
      ScanView(b, [], ForwardParamStep, ForwardParamView);
      assert [] + Attrs(b) == Attrs(b);
    }
  }

  // ----- FAR -----

  function ReadForwardParam(a: Attr): Result<ForwardParam>
  {
    var p :- Payload(a);
    ForwardParamSpec(p)
  }

  function FarStep(far: Far, a: Attr): Result<Far>
  {
    var t := a.Tag();
    if t == FAR_ID then var v :- PayloadU32(a); Ok(far.(id := v))
    else if t == FAR_APPLY_ACTION then var v :- PayloadU16(a); Ok(far.(action := v))
    else if t == FAR_FORWARDING_PARAMETER then var p :- ReadForwardParam(a); Ok(far.(param := Some(p)))
    else if t == FAR_RELATED_TO_PDR then var ids :- PayloadU16List(a); Ok(far.(pdrIds := far.pdrIds + ids))
    else if t == FAR_BAR_ID then var v :- ByteAt(a); Ok(far.(barId := Some(v)))
    else if t == FAR_SEID then var v :- PayloadU64(a); Ok(far.(seid := Some(v)))
    else if t == FAR_UL_OR_DL then var v :- ByteAt(a); Ok(far.(ulOrDl := v))
    else Ok(far)
  }

  function FarSpec(b: seq<byte>): Result<Far>
  {
    Scan(b, EmptyFar, FarStep)
  }

  method DecodeFAR(b0: seq<byte>) returns (r: Result<Far>)
    ensures r == FarSpec(b0)
  {
    var far := EmptyFar;
    var b := b0;
    while |b| > 0
      invariant Scan(b, far, FarStep) == FarSpec(b0)
      decreases |b|
    {
      var hdr :- DecodeAttrHdr(b);
      var a := Attr(hdr, b);
      var t := MaskedType(hdr);
      if t == FAR_ID {
        var v :- PayloadU32(a);
        far := far.(id := v);
      } else if t == FAR_APPLY_ACTION {
        var v :- PayloadU16(a);
        far := far.(action := v);
      } else if t == FAR_FORWARDING_PARAMETER {
        var p :- Payload(a);
        var param :- DecodeForwardParam(p);
        far := far.(param := Some(param));
      } else if t == FAR_RELATED_TO_PDR {
        var d :- Payload(a);
        var ids :- DecodeUint16s(far.pdrIds, d);
        far := far.(pdrIds := ids);
      } else if t == FAR_BAR_ID {
        var v :- ByteAt(a);
        far := far.(barId := Some(v));
      } else if t == FAR_SEID {
        var v :- PayloadU64(a);
        far := far.(seid := Some(v));
      } else if t == FAR_UL_OR_DL {
        var v :- ByteAt(a);
        far := far.(ulOrDl := v);
      }
      b :- Advance(a);
    }
    return Ok(far);
  }

  /**
   * Field by field: id, apply action and direction are the last of their
   * type (0 when absent), the parameters, BAR id and SEID the last of
   * their type (nil when absent), and the PDR ids are every
   * RELATED_TO_PDR payload's ids concatenated in wire order.
   */
  function FarView(attrs: seq<Attr>): Far
  {
    Far(
      LastOr(attrs, FAR_ID, PayloadU32, 0),
      LastOr(attrs, FAR_APPLY_ACTION, PayloadU16, 0),
      Last(attrs, FAR_FORWARDING_PARAMETER, ReadForwardParam),
      Concat(attrs, FAR_RELATED_TO_PDR, PayloadU16List),
      Last(attrs, FAR_BAR_ID, ByteAt),
      Last(attrs, FAR_SEID, PayloadU64),
      LastOr(attrs, FAR_UL_OR_DL, ByteAt, 0))
  }

  lemma FarStepView(attrs: seq<Attr>, a: Attr)
    ensures FarStep(FarView(attrs), a).Ok? ==> FarStep(FarView(attrs), a).value == FarView(attrs + [a])
  {
    LastSnoc(attrs, a, FAR_ID, PayloadU32);
    LastSnoc(attrs, a, FAR_APPLY_ACTION, PayloadU16);
    LastSnoc(attrs, a, FAR_FORWARDING_PARAMETER, ReadForwardParam);
    ConcatSnoc(attrs, a, FAR_RELATED_TO_PDR, PayloadU16List);
    LastSnoc(attrs, a, FAR_BAR_ID, ByteAt);
    LastSnoc(attrs, a, FAR_SEID, PayloadU64);
    LastSnoc(attrs, a, FAR_UL_OR_DL, ByteAt);
  }

  lemma FarViewSteps()
    ensures forall attrs: seq<Attr>, a: Attr :: FarStep(FarView(attrs), a).Ok? ==>
              FarStep(FarView(attrs), a).value == FarView(attrs + [a])
  {
    forall attrs: seq<Attr>, a: Attr
      ensures FarStep(FarView(attrs), a).Ok? ==> FarStep(FarView(attrs), a).value == FarView(attrs + [a])
    {
      FarStepView(attrs, a);
    }
  }

  lemma FarFailsByAttr()
    ensures forall s: Far, a: Attr :: FarStep(s, a).Ok? == FarStep(EmptyFar, a).Ok?
  {
  }

  /**
   * DecodeFAR succeeds exactly when the walk reaches the end of the buffer
   * and every read succeeds (a RELATED_TO_PDR payload of odd length, or
   * parameters that fail to decode, fail the FAR); the FAR is then the
   * field-by-field view.
   */
  lemma FarDecodes(b: seq<byte>)
    ensures FarSpec(b).Ok? <==> WalkCompletes(b) && forall a <- Attrs(b) :: FarStep(EmptyFar, a).Ok?
    ensures FarSpec(b).Ok? ==> FarSpec(b).value == FarView(Attrs(b))
  {
    assert FarSpec(b).Ok? <==> WalkCompletes(b) && forall a <- Attrs(b) :: FarStep(EmptyFar, a).Ok? by {
      FarFailsByAttr();
      var accepts := a => FarStep(EmptyFar, a).Ok?;
      ScanAccepts(b, EmptyFar, FarStep, accepts);
    }
    assert FarSpec(b).Ok? ==> FarSpec(b).value == FarView(Attrs(b)) by {
      FarViewSteps();
      assert FarView([]) == EmptyFar;
      ScanView(b, [], FarStep, FarView);
      assert [] + Attrs(b) == Attrs(b);
    }
  }

  lemma HeaderCreationFailsByAttr()
    ensures forall s: HeaderCreation, a: Attr :: HeaderCreationStep(s, a).Ok? == HeaderCreationStep(EmptyHeaderCreation, a).Ok?
  {
  }

  lemma ForwardParamFailsByAttr()
    ensures forall s: ForwardParam, a: Attr :: ForwardParamStep(s, a).Ok? == ForwardParamStep(EmptyForwardParam, a).Ok?
  {
  }
}
