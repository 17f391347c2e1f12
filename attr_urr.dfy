/**
 * Decoding of a usage reporting rule (URR).  The volume threshold and the
 * volume quota have identical layouts and decoders in the library; both
 * are `Volume` here, decoded by `DecodeVolume`.
 */
module UrrAttr {
  import opened Wire
  import opened Nla

  const URR_ID: nat := 3
  const URR_MEASUREMENT_METHOD: nat := 4
  const URR_REPORTING_TRIGGER: nat := 5
  const URR_MEASUREMENT_PERIOD: nat := 6
  const URR_MEASUREMENT_INFO: nat := 7
  const URR_SEID: nat := 8
  const URR_VOLUME_THRESHOLD: nat := 9
  const URR_VOLUME_QUOTA: nat := 10
  const URR_MULTI_SEID_URRID: nat := 11
  const URR_NUM: nat := 12

  /** The same four types serve URR_VOLUME_THRESHOLD_* and URR_VOLUME_QUOTA_*. */
  const VOLUME_FLAG: nat := 1
  const VOLUME_TOVOL: nat := 2
  const VOLUME_UVOL: nat := 3
  const VOLUME_DVOL: nat := 4

  datatype Volume = Volume(flag: byte, totalVolume: u64, uplinkVolume: u64, downlinkVolume: u64)

  datatype Urr = Urr(
    id: u32, measurementMethod: byte, trigger: u32, period: Option<u32>,
    info: Option<byte>, seid: Option<u64>, volThreshold: Option<Volume>, volQuota: Option<Volume>)

  const EmptyVolume := Volume(0, 0, 0, 0)
  const EmptyUrr := Urr(0, 0, 0, None, None, None, None, None)

  // ----- volume threshold and quota -----

  function VolumeStep(v: Volume, a: Attr): Result<Volume>
  {
    var t := a.Tag();
    if t == VOLUME_FLAG then var x :- ByteAt(a); Ok(v.(flag := x))
    else if t == VOLUME_TOVOL then var x :- PayloadU64(a); Ok(v.(totalVolume := x))
    else if t == VOLUME_UVOL then var x :- PayloadU64(a); Ok(v.(uplinkVolume := x))
    else if t == VOLUME_DVOL then var x :- PayloadU64(a); Ok(v.(downlinkVolume := x))
    else Ok(v)
  }

  function VolumeSpec(b: seq<byte>): Result<Volume>
  {
    Scan(b, EmptyVolume, VolumeStep)
  }

  /** decodeVolumeThreshold and decodeVolumeQuota. */
  method DecodeVolume(b0: seq<byte>) returns (r: Result<Volume>)
    ensures r == VolumeSpec(b0)
  {
    var v := EmptyVolume;
    var b := b0;
    while |b| > 0
      invariant Scan(b, v, VolumeStep) == VolumeSpec(b0)
      decreases |b|
    {
      var hdr :- DecodeAttrHdr(b);
      var a := Attr(hdr, b);
      var t := MaskedType(hdr);
      if t == VOLUME_FLAG {
        var x :- ByteAt(a);
        v := v.(flag := x);
      } else if t == VOLUME_TOVOL {
        var x :- PayloadU64(a);
        v := v.(totalVolume := x);
      } else if t == VOLUME_UVOL {
        var x :- PayloadU64(a);
        v := v.(uplinkVolume := x);
      } else if t == VOLUME_DVOL {
        var x :- PayloadU64(a);
        v := v.(downlinkVolume := x);
      }
      b :- Advance(a);
    }
    return Ok(v);
  }

  /** Each field is the last attribute of its type, 0 when there is none. */
  function VolumeView(attrs: seq<Attr>): Volume
  {
    Volume(
      LastOr(attrs, VOLUME_FLAG, ByteAt, 0),
      LastOr(attrs, VOLUME_TOVOL, PayloadU64, 0),
      LastOr(attrs, VOLUME_UVOL, PayloadU64, 0),
      LastOr(attrs, VOLUME_DVOL, PayloadU64, 0))
  }

  lemma VolumeViewSteps()
    ensures forall attrs: seq<Attr>, a: Attr :: VolumeStep(VolumeView(attrs), a).Ok? ==>
              VolumeStep(VolumeView(attrs), a).value == VolumeView(attrs + [a])
  {
    forall attrs: seq<Attr>, a: Attr
      ensures VolumeStep(VolumeView(attrs), a).Ok? ==> VolumeStep(VolumeView(attrs), a).value == VolumeView(attrs + [a])
    {
      LastSnoc(attrs, a, VOLUME_FLAG, ByteAt);
      LastSnoc(attrs, a, VOLUME_TOVOL, PayloadU64);
      LastSnoc(attrs, a, VOLUME_UVOL, PayloadU64);
      LastSnoc(attrs, a, VOLUME_DVOL, PayloadU64);
    }
  }

  lemma VolumeFailsByAttr()
    ensures forall s: Volume, a: Attr :: VolumeStep(s, a).Ok? == VolumeStep(EmptyVolume, a).Ok?
  {
  }

  /**
   * A volume decodes exactly when the walk reaches the end and every field
   * reads (a flag attribute needs a payload byte, a volume 8); each field is
   * then the last of its type.
   */
  lemma VolumeDecodes(b: seq<byte>)
    ensures VolumeSpec(b).Ok? <==> WalkCompletes(b) && forall a <- Attrs(b) :: VolumeStep(EmptyVolume, a).Ok?
    ensures VolumeSpec(b).Ok? ==> VolumeSpec(b).value == VolumeView(Attrs(b))
  {
    assert VolumeSpec(b).Ok? <==> WalkCompletes(b) && forall a <- Attrs(b) :: VolumeStep(EmptyVolume, a).Ok? by {
      VolumeFailsByAttr();
      var accepts := a => VolumeStep(EmptyVolume, a).Ok?;
      ScanAccepts(b, EmptyVolume, VolumeStep, accepts);
    }
    assert VolumeSpec(b).Ok? ==> VolumeSpec(b).value == VolumeView(Attrs(b)) by {
      VolumeViewSteps();
      assert VolumeView([]) == EmptyVolume;
      ScanView(b, [], VolumeStep, VolumeView);
      assert [] + Attrs(b) == Attrs(b);
    }
  }

  function ReadVolume(a: Attr): Result<Volume>
  {
    var p :- Payload(a);
    VolumeSpec(p)
  }

  // ----- URR -----

  /** MULTI_SEID_URRID, NUM and any other type are skipped. */
  function UrrStep(urr: Urr, a: Attr): Result<Urr>
  {
    var t := a.Tag();
    if t == URR_ID then var v :- PayloadU32(a); Ok(urr.(id := v))
    else if t == URR_MEASUREMENT_METHOD then var v :- ByteAt(a); Ok(urr.(measurementMethod := v))
    else if t == URR_REPORTING_TRIGGER then var v :- PayloadU32(a); Ok(urr.(trigger := v))
    else if t == URR_MEASUREMENT_PERIOD then var v :- PayloadU32(a); Ok(urr.(period := Some(v)))
    else if t == URR_MEASUREMENT_INFO then var v :- ByteAt(a); Ok(urr.(info := Some(v)))
    else if t == URR_SEID then var v :- PayloadU64(a); Ok(urr.(seid := Some(v)))
    else if t == URR_VOLUME_THRESHOLD then var v :- ReadVolume(a); Ok(urr.(volThreshold := Some(v)))
    else if t == URR_VOLUME_QUOTA then var v :- ReadVolume(a); Ok(urr.(volQuota := Some(v)))
    else Ok(urr)
  }

  function UrrSpec(b: seq<byte>): Result<Urr>
  {
    Scan(b, EmptyUrr, UrrStep)
  }

  method DecodeURR(b0: seq<byte>) returns (r: Result<Urr>)
    ensures r == UrrSpec(b0)
  {
    var urr := EmptyUrr;
    var b := b0;
    while |b| > 0
      invariant Scan(b, urr, UrrStep) == UrrSpec(b0)
      decreases |b|
    {
      var hdr :- DecodeAttrHdr(b);
      var a := Attr(hdr, b);
      var t := MaskedType(hdr);
      if t == URR_ID {
        var v :- PayloadU32(a);
        urr := urr.(id := v);
      } else if t == URR_MEASUREMENT_METHOD {
        var v :- ByteAt(a);
        urr := urr.(measurementMethod := v);
      } else if t == URR_REPORTING_TRIGGER {
        var v :- PayloadU32(a);
        urr := urr.(trigger := v);
      } else if t == URR_MEASUREMENT_PERIOD {
        var v :- PayloadU32(a);
        urr := urr.(period := Some(v));
      } else if t == URR_MEASUREMENT_INFO {
        var v :- ByteAt(a);
        urr := urr.(info := Some(v));
      } else if t == URR_SEID {
        var v :- PayloadU64(a);
        urr := urr.(seid := Some(v));
      } else if t == URR_VOLUME_THRESHOLD {
        var p :- Payload(a);
        var v :- DecodeVolume(p);
        urr := urr.(volThreshold := Some(v));
      } else if t == URR_VOLUME_QUOTA {
        var p :- Payload(a);
        var v :- DecodeVolume(p);
        urr := urr.(volQuota := Some(v));
      }
      b :- Advance(a);
    }
    return Ok(urr);
  }

  /**
   * Field by field: the id, method and trigger are the last of their type
   * (0 when absent); the period, info, SEID, threshold and quota are the last
   * of their type, nil when absent.
   */
  function UrrView(attrs: seq<Attr>): Urr
  {
    Urr(
      LastOr(attrs, URR_ID, PayloadU32, 0),
      LastOr(attrs, URR_MEASUREMENT_METHOD, ByteAt, 0),
      LastOr(attrs, URR_REPORTING_TRIGGER, PayloadU32, 0),
      Last(attrs, URR_MEASUREMENT_PERIOD, PayloadU32),
      Last(attrs, URR_MEASUREMENT_INFO, ByteAt),
      Last(attrs, URR_SEID, PayloadU64),
      Last(attrs, URR_VOLUME_THRESHOLD, ReadVolume),
      Last(attrs, URR_VOLUME_QUOTA, ReadVolume))
  }

  lemma UrrStepView(attrs: seq<Attr>, a: Attr)
    ensures UrrStep(UrrView(attrs), a).Ok? ==> UrrStep(UrrView(attrs), a).value == UrrView(attrs + [a])
  {
    LastSnoc(attrs, a, URR_ID, PayloadU32);
    LastSnoc(attrs, a, URR_MEASUREMENT_METHOD, ByteAt);
    LastSnoc(attrs, a, URR_REPORTING_TRIGGER, PayloadU32);
    LastSnoc(attrs, a, URR_MEASUREMENT_PERIOD, PayloadU32);
    LastSnoc(attrs, a, URR_MEASUREMENT_INFO, ByteAt);
    LastSnoc(attrs, a, URR_SEID, PayloadU64);
    LastSnoc(attrs, a, URR_VOLUME_THRESHOLD, ReadVolume);
    LastSnoc(attrs, a, URR_VOLUME_QUOTA, ReadVolume);
  }

  lemma UrrViewSteps()
    ensures forall attrs: seq<Attr>, a: Attr :: UrrStep(UrrView(attrs), a).Ok? ==>
              UrrStep(UrrView(attrs), a).value == UrrView(attrs + [a])
  {
    forall attrs: seq<Attr>, a: Attr
      ensures UrrStep(UrrView(attrs), a).Ok? ==> UrrStep(UrrView(attrs), a).value == UrrView(attrs + [a])
    {
      UrrStepView(attrs, a);
    }
  }

  lemma UrrFailsByAttr()
    ensures forall s: Urr, a: Attr :: UrrStep(s, a).Ok? == UrrStep(EmptyUrr, a).Ok?
  {
  }

  lemma UrrAccepts(b: seq<byte>)
    ensures UrrSpec(b).Ok? <==> WalkCompletes(b) && forall a <- Attrs(b) :: UrrStep(EmptyUrr, a).Ok?
  {
    UrrFailsByAttr();
    var accepts := a => UrrStep(EmptyUrr, a).Ok?;
    ScanAccepts(b, EmptyUrr, UrrStep, accepts);
  }

  lemma UrrViewEmpty()
    ensures UrrView([]) == EmptyUrr
  {
  }

  lemma UrrViewed(b: seq<byte>)
    ensures UrrSpec(b).Ok? ==> UrrSpec(b).value == UrrView(Attrs(b))
  {
    UrrViewSteps();
    UrrViewEmpty();
    ScanView(b, [], UrrStep, UrrView);
    assert [] + Attrs(b) == Attrs(b);
  }

  /**
   * DecodeURR succeeds exactly when the walk reaches the end and every read
   * succeeds (a threshold or quota that fails to decode fails the URR); the
   * URR is then the field-by-field view.
   */
  lemma UrrDecodes(b: seq<byte>)
    ensures UrrSpec(b).Ok? <==> WalkCompletes(b) && forall a <- Attrs(b) :: UrrStep(EmptyUrr, a).Ok?
    ensures UrrSpec(b).Ok? ==> UrrSpec(b).value == UrrView(Attrs(b))
  {
    UrrAccepts(b);
    UrrViewed(b);
  }

  /** An optional field is set exactly when an attribute of its type reads: e.g. the SEID. */
  lemma UrrSeidPresent(b: seq<byte>)
    requires UrrSpec(b).Ok?
    ensures UrrSpec(b).value.seid.Some? <==> exists a <- Attrs(b) :: a.Tag() == URR_SEID
  {
    UrrDecodes(b);
    LastPresent(Attrs(b), URR_SEID, PayloadU64);
  }

  /** In a walk where every read succeeds, `Last` finds a value exactly when some attribute has the type. */
  lemma {:induction false} LastPresent<V>(attrs: seq<Attr>, t: nat, read: Attr -> Result<V>)
    requires forall a <- attrs :: a.Tag() == t ==> read(a).Ok?
    ensures Last(attrs, t, read).Some? <==> exists a <- attrs :: a.Tag() == t
  {
    if attrs != [] {
      var a := attrs[|attrs| - 1];
      var init := attrs[..|attrs| - 1];
      assert attrs == init + [a];
      if a.Tag() != t {
        LastPresent(init, t, read);
      }
    }
  }
}
