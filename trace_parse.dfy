/**
 * The trace decoder's attribute parser: a walk over netlink attributes
 * that never fails.  It stops quietly at a truncated header or a length
 * that does not fit, skips headers of length 0, names each attribute by its
 * masked type through a table, parses the payloads of container types into
 * dictionaries of their own and decodes every other payload by name.
 */
module TraceParse {
  import opened Wire
  import opened Text
  import opened PyDict
  import opened TraceValue
  import opened Bits
  import Nla

  /** A table from masked attribute types to attribute names. */
  type Mapping = map<nat, string>

  /** `GTP5G_COMMON_ATTRS`. */
  const CommonAttrs: Mapping := map[
      1 := "GTP5G_LINK",
      2 := "GTP5G_NET_NS_FD"]

  /** `GTP5G_PDR_ATTRS`. */
  const PdrAttrs: Mapping := CommonAttrs + map[
      3 := "GTP5G_PDR_ID",
      4 := "GTP5G_PDR_PRECEDENCE",
      5 := "GTP5G_PDR_PDI",
      6 := "GTP5G_OUTER_HEADER_REMOVAL",
      7 := "GTP5G_PDR_FAR_ID",
      8 := "GTP5G_PDR_ROLE_ADDR_IPV4",
      9 := "GTP5G_PDR_UNIX_SOCKET_PATH",
      10 := "GTP5G_PDR_QER_ID",
      11 := "GTP5G_PDR_SEID",
      12 := "GTP5G_PDR_URR_ID"]

  /** `GTP5G_FAR_ATTRS`. */
  const FarAttrs: Mapping := CommonAttrs + map[
      3 := "GTP5G_FAR_ID",
      4 := "GTP5G_FAR_APPLY_ACTION",
      5 := "GTP5G_FAR_FORWARDING_PARAMETER",
      6 := "GTP5G_FAR_RELATED_TO_PDR",
      7 := "GTP5G_FAR_SEID",
      8 := "GTP5G_FAR_BAR_ID"]

  /** `GTP5G_QER_ATTRS`. */
  const QerAttrs: Mapping := CommonAttrs + map[
      3 := "GTP5G_QER_ID",
      4 := "GTP5G_QER_GATE",
      5 := "GTP5G_QER_MBR",
      6 := "GTP5G_QER_GBR",
      7 := "GTP5G_QER_CORR_ID",
      8 := "GTP5G_QER_RQI",
      9 := "GTP5G_QER_QFI",
      10 := "GTP5G_QER_PPI",
      11 := "GTP5G_QER_RCSR",
      12 := "GTP5G_QER_RELATED_TO_PDR",
      13 := "GTP5G_QER_SEID"]

  /** `GTP5G_URR_ATTRS`. */
  const UrrAttrs: Mapping := CommonAttrs + map[
      3 := "GTP5G_URR_ID",
      4 := "GTP5G_URR_MEASUREMENT_METHOD",
      5 := "GTP5G_URR_REPORTING_TRIGGER",
      6 := "GTP5G_URR_MEASUREMENT_PERIOD",
      7 := "GTP5G_URR_MEASUREMENT_INFO",
      8 := "GTP5G_URR_SEID",
      9 := "GTP5G_URR_VOLUME_THRESHOLD",
      10 := "GTP5G_URR_VOLUME_QUOTA",
      11 := "GTP5G_URR_MULTI_SEID_URRID",
      12 := "GTP5G_URR_NUM",
      13 := "GTP5G_URR_RELATED_TO_PDR"]

  /** `GTP5G_BAR_ATTRS`. */
  const BarAttrs: Mapping := CommonAttrs + map[
      3 := "GTP5G_BAR_ID",
      4 := "GTP5G_DOWNLINK_DATA_NOTIFICATION_DELAY",
      5 := "GTP5G_BUFFERING_PACKETS_COUNT",
      6 := "GTP5G_BAR_SEID"]

  /** `GTP5G_REPORT_ATTRS`. */
  const ReportAttrs: Mapping := CommonAttrs + map[
      3 := "GTP5G_UR_URRID",
      4 := "GTP5G_UR_USAGE_REPORT_TRIGGER",
      5 := "GTP5G_UR_URSEQN",
      6 := "GTP5G_UR_VOLUME_MEASUREMENT",
      7 := "GTP5G_UR_QUERY_URR_REFERENCE",
      8 := "GTP5G_UR_START_TIME",
      9 := "GTP5G_UR_END_TIME",
      10 := "GTP5G_UR_SEID"]

  /** `GTP5G_PDI_ATTRS`. */
  const PdiAttrs: Mapping := map[
      1 := "GTP5G_PDI_UE_ADDR_IPV4",
      2 := "GTP5G_PDI_F_TEID",
      3 := "GTP5G_PDI_SDF_FILTER",
      4 := "GTP5G_PDI_SRC_INTF"]

  /** `GTP5G_F_TEID_ATTRS`. */
  const FTeidAttrs: Mapping := map[
      1 := "GTP5G_F_TEID_I_TEID",
      2 := "GTP5G_F_TEID_GTPU_ADDR_IPV4"]

  /** `GTP5G_SDF_FILTER_ATTRS`. */
  const SdfFilterAttrs: Mapping := map[
      1 := "GTP5G_SDF_FILTER_FLOW_DESCRIPTION",
      2 := "GTP5G_SDF_FILTER_TOS_TRAFFIC_CLASS",
      3 := "GTP5G_SDF_FILTER_SECURITY_PARAMETER_INDEX",
      4 := "GTP5G_SDF_FILTER_FLOW_LABEL",
      5 := "GTP5G_SDF_FILTER_SDF_FILTER_ID"]

  /** `GTP5G_FAR_FP_ATTRS`. */
  const ForwardingParamAttrs: Mapping := map[
      1 := "GTP5G_FORWARDING_PARAMETER_OUTER_HEADER_CREATION",
      2 := "GTP5G_FORWARDING_PARAMETER_FORWARDING_POLICY",
      3 := "GTP5G_FORWARDING_PARAMETER_PFCPSM_REQ_FLAGS",
      4 := "GTP5G_FORWARDING_PARAMETER_TOS_TC"]

  /** `GTP5G_OHC_ATTRS`. */
  const OuterHeaderCreationAttrs: Mapping := map[
      1 := "GTP5G_OUTER_HEADER_CREATION_DESCRIPTION",
      2 := "GTP5G_OUTER_HEADER_CREATION_O_TEID",
      3 := "GTP5G_OUTER_HEADER_CREATION_PEER_ADDR_IPV4",
      4 := "GTP5G_OUTER_HEADER_CREATION_PORT"]

  /** `GTP5G_QER_MBR_ATTRS`. */
  const MbrAttrs: Mapping := map[
      1 := "GTP5G_QER_MBR_UL_HIGH32",
      2 := "GTP5G_QER_MBR_UL_LOW8",
      3 := "GTP5G_QER_MBR_DL_HIGH32",
      4 := "GTP5G_QER_MBR_DL_LOW8"]

  /** `GTP5G_QER_GBR_ATTRS`. */
  const GbrAttrs: Mapping := map[
      1 := "GTP5G_QER_GBR_UL_HIGH32",
      2 := "GTP5G_QER_GBR_UL_LOW8",
      3 := "GTP5G_QER_GBR_DL_HIGH32",
      4 := "GTP5G_QER_GBR_DL_LOW8"]

  /** `GTP5G_URR_VOLUME_THRESHOLD_ATTRS`. */
  const VolumeThresholdAttrs: Mapping := map[
      1 := "GTP5G_URR_VOLUME_THRESHOLD_FLAG",
      2 := "GTP5G_URR_VOLUME_THRESHOLD_TOVOL",
      3 := "GTP5G_URR_VOLUME_THRESHOLD_UVOL",
      4 := "GTP5G_URR_VOLUME_THRESHOLD_DVOL"]

  /** `GTP5G_URR_VOLUME_QUOTA_ATTRS`. */
  const VolumeQuotaAttrs: Mapping := map[
      1 := "GTP5G_URR_VOLUME_QUOTA_FLAG",
      2 := "GTP5G_URR_VOLUME_QUOTA_TOVOL",
      3 := "GTP5G_URR_VOLUME_QUOTA_UVOL",
      4 := "GTP5G_URR_VOLUME_QUOTA_DVOL"]

  /** `GTP5G_UR_VOLUME_MEASUREMENT_ATTRS`. */
  const VolumeMeasurementAttrs: Mapping := map[
      1 := "GTP5G_UR_VOLUME_MEASUREMENT_FLAGS",
      2 := "GTP5G_UR_VOLUME_MEASUREMENT_TOVOL",
      3 := "GTP5G_UR_VOLUME_MEASUREMENT_UVOL",
      4 := "GTP5G_UR_VOLUME_MEASUREMENT_DVOL",
      5 := "GTP5G_UR_VOLUME_MEASUREMENT_TOPACKET",
      6 := "GTP5G_UR_VOLUME_MEASUREMENT_UPACKET",
      7 := "GTP5G_UR_VOLUME_MEASUREMENT_DPACKET"]

  /** `GTP5G_MULTI_REPORT_ATTRS`. */
  const MultiReportAttrs: Mapping := CommonAttrs + map[
      5 := "GTP5G_UR",
      11 := "GTP5G_URR_MULTI_SEID_URRID",
      12 := "GTP5G_URR_NUM"]

  /** `GTP5G_USAGE_STATISTIC_ATTRS`. */
  const UsageStatisticAttrs: Mapping := CommonAttrs + map[
      1 := "GTP5G_USTAT_UL_VOL_RX",
      2 := "GTP5G_USTAT_UL_VOL_TX",
      3 := "GTP5G_USTAT_DL_VOL_RX",
      4 := "GTP5G_USTAT_DL_VOL_TX",
      5 := "GTP5G_USTAT_UL_PKT_RX",
      6 := "GTP5G_USTAT_UL_PKT_TX",
      7 := "GTP5G_USTAT_DL_PKT_RX",
      8 := "GTP5G_USTAT_DL_PKT_TX"]

  /** `GTP5G_URR_MULTI_SEID_URRID_ATTRS`. */
  const MultiSeidUrridAttrs: Mapping := map[
      3 := "GTP5G_URR_ID",
      8 := "GTP5G_URR_SEID"]

  /** `GTP5G_FLOW_DESCRIPTION_ATTRS`. */
  const FlowDescriptionAttrs: Mapping := map[
      1 := "GTP5G_FLOW_DESCRIPTION_ACTION",
      2 := "GTP5G_FLOW_DESCRIPTION_DIRECTION",
      3 := "GTP5G_FLOW_DESCRIPTION_PROTOCOL",
      4 := "GTP5G_FLOW_DESCRIPTION_SRC_IPV4",
      5 := "GTP5G_FLOW_DESCRIPTION_SRC_MASK",
      6 := "GTP5G_FLOW_DESCRIPTION_DEST_IPV4",
      7 := "GTP5G_FLOW_DESCRIPTION_DEST_MASK",
      8 := "GTP5G_FLOW_DESCRIPTION_SRC_PORT",
      9 := "GTP5G_FLOW_DESCRIPTION_DEST_PORT"]

  /** The attributes whose payload is itself a run of attributes, with the table for that run. */
  const NestedMappings: map<string, Mapping> := map[
    "GTP5G_PDI_F_TEID" := FTeidAttrs,
    "GTP5G_PDI_SDF_FILTER" := SdfFilterAttrs,
    "GTP5G_SDF_FILTER_FLOW_DESCRIPTION" := FlowDescriptionAttrs,
    "GTP5G_FAR_FORWARDING_PARAMETER" := ForwardingParamAttrs,
    "GTP5G_FORWARDING_PARAMETER_OUTER_HEADER_CREATION" := OuterHeaderCreationAttrs,
    "GTP5G_QER_MBR" := MbrAttrs,
    "GTP5G_QER_GBR" := GbrAttrs,
    "GTP5G_URR_VOLUME_THRESHOLD" := VolumeThresholdAttrs,
    "GTP5G_URR_VOLUME_QUOTA" := VolumeQuotaAttrs,
    "GTP5G_UR_VOLUME_MEASUREMENT" := VolumeMeasurementAttrs,
    "GTP5G_UR" := ReportAttrs,
    "GTP5G_URR_MULTI_SEID_URRID" := MultiSeidUrridAttrs,
    "GTP5G_PDR_PDI" := PdiAttrs]

  /** The attribute type without the nested and the byte-order flag: its low 14 bits. */
  function TypeId(t: u16): (id: nat)
    ensures id < 0x4000
  {
    t % 0x4000
  }

  /** `nla_type & 0x3FFF` keeps the low 14 bits. */
  method MaskType(t: u16) returns (id: nat)
    ensures id == TypeId(t)
  {
    id := And(t, 0x3FFF);
    AndLowBits(t, 14);
  }

  /** `mapping.get(type_id, f"UNKNOWN_ATTR_{type_id}")`. */
  function NameOf(m: Mapping, id: nat): string
  {
    if id in m then m[id] else "UNKNOWN_ATTR_" + Decimal(id)
  }

  /** Which attribute names are containers, and the table for the attributes inside each. */
  type Containers = map<string, Mapping>

  /**
   * The loop of `parse_attributes` from a position on: `rest` is what is
   * left of the data and `acc` the dictionary so far.
   */
  function Walk(rest: seq<byte>, m: Mapping, nested: Containers, acc: Dict): Dict
    decreases |rest|, 2
  {
    if |rest| < 4 then acc
    else
      var len := Le16(rest);
      if len == 0 then Walk(rest[4..], m, nested, acc)
      else if len < 4 || len > |rest| then acc
      else Walk(Drop(rest, Nla.Align(len)), m, nested, Stored(acc, m, nested, TypeId(Le16(rest[2..])), rest[4..len]))
  }

  /**
   * What one attribute does to the dictionary: a type 0 container merges
   * its own attributes, parsed with the same table; a container name gets
   * the dictionary of its payload, parsed with its table; any other name
   * gets its decoded value.
   */
  function Stored(acc: Dict, m: Mapping, nested: Containers, id: nat, payload: seq<byte>): Dict
    decreases |payload|, 4
  {
    var name := NameOf(m, id);
    if id == 0 then Merge(acc, Parse(payload, m, nested))
    else if name in nested then Put(acc, name, Nested(Parse(payload, nested[name], nested)))
    else Put(acc, name, DecodeValue(name, payload))
  }

  /** The parse of a whole run of attributes. */
  function Parse(data: seq<byte>, m: Mapping, nested: Containers): Dict
    decreases |data|, 3
  {
    Walk(data, m, nested, [])
  }

  /** `parse_attributes(data, mapping)`: the parse with the decoder's own container table. */
  function Attributes(data: seq<byte>, m: Mapping): Dict
  {
    Parse(data, m, NestedMappings)
  }

  lemma DropDrop(data: seq<byte>, i: nat, j: nat)
    requires i < |data|
    ensures Drop(Drop(data, i), j) == Drop(data, i + j)
  {
  }

  /** A header of length 0 at `offset` is stepped over. */
  lemma WalkSkips(data: seq<byte>, offset: nat, m: Mapping, nested: Containers, acc: Dict)
    requires offset + 4 <= |data| && Le16(data[offset..offset + 4]) == 0
    ensures Walk(Drop(data, offset), m, nested, acc) == Walk(Drop(data, offset + 4), m, nested, acc)
  {
    var rest := Drop(data, offset);
    assert rest[..4] == data[offset..offset + 4];
    DropDrop(data, offset, 4);
  }

  /** The walk ends at the end of the data, before a partial header, or at a length that does not fit. */
  lemma WalkStops(data: seq<byte>, offset: nat, m: Mapping, nested: Containers, acc: Dict)
    requires offset + 4 > |data| ||
             var len := Le16(data[offset..offset + 4]); 0 < len < 4 || len > |data| - offset
    ensures Walk(Drop(data, offset), m, nested, acc) == acc
  {
    if offset + 4 <= |data| {
      assert Drop(data, offset)[..4] == data[offset..offset + 4];
    }
  }

  /** An attribute that fits in `rest` is stored, and the walk goes on after its padding. */
  lemma WalkStep(rest: seq<byte>, m: Mapping, nested: Containers, acc: Dict)
    requires |rest| >= 4 && 4 <= Le16(rest) <= |rest|
    ensures Walk(rest, m, nested, acc) ==
            Walk(Drop(rest, Nla.Align(Le16(rest))), m, nested,
                 Stored(acc, m, nested, TypeId(Le16(rest[2..])), rest[4..Le16(rest)]))
  {
  }

  /** The same step, read at `offset` of the whole data: `id`, `payload` and `next` are the attribute's type, payload and end. */
  lemma WalkStores(data: seq<byte>, offset: nat, m: Mapping, nested: Containers, acc: Dict, id: nat, payload: seq<byte>, next: nat)
    requires offset + 4 <= |data|
    requires var len := Le16(data[offset..offset + 4]);
             4 <= len <= |data| - offset &&
             id == TypeId(Le16(data[offset + 2..offset + 4])) &&
             payload == data[offset + 4..offset + len] &&
             next == offset + Nla.Align(len)
    ensures Walk(Drop(data, next), m, nested, Stored(acc, m, nested, id, payload)) == Walk(Drop(data, offset), m, nested, acc)
  {
    var len := Le16(data[offset..offset + 4]);
    var rest := Drop(data, offset);
    assert Le16(rest) == len;
    assert Le16(rest[2..]) == Le16(data[offset + 2..offset + 4]);
    assert rest[4..len] == payload;
    DropDrop(data, offset, Nla.Align(len));
    WalkStep(rest, m, nested, acc);
  }

  /** `parse_attributes`: the container table is the decoder's own. */
  method ParseAttributes(data: seq<byte>, mapping: Mapping) returns (attrs: Dict)
    ensures attrs == Attributes(data, mapping)
  {
    attrs := ParseWith(data, mapping, NestedMappings);
  }

  /** The parser's loop, with the dictionary updated in place. */
  method ParseWith(data: seq<byte>, mapping: Mapping, nested: Containers) returns (attrs: Dict)
    ensures attrs == Parse(data, mapping, nested)
    decreases |data|, 1
  {
    attrs := [];
    var offset := 0;
    var length := |data|;
    while offset < length
      invariant 0 <= offset
      invariant Walk(Drop(data, offset), mapping, nested, attrs) == Parse(data, mapping, nested)
      decreases length - offset
    {
      if length - offset < 4 {
        assert attrs == Parse(data, mapping, nested) by {
          WalkStops(data, offset, mapping, nested, attrs);
        }
        break;
      }
      var nlaLen := Le16(data[offset..offset + 4]);
      if nlaLen == 0 {
        assert Walk(Drop(data, offset + 4), mapping, nested, attrs) == Parse(data, mapping, nested) by {
          WalkSkips(data, offset, mapping, nested, attrs);
        }
        offset := offset + 4;
        continue;
      }
      if nlaLen < 4 || nlaLen > length - offset {
        assert attrs == Parse(data, mapping, nested) by {
          WalkStops(data, offset, mapping, nested, attrs);
        }
        break;
      }
      attrs, offset := StoreAt(data, offset, mapping, nested, attrs);
    }
    if offset >= length {
      assert attrs == Parse(data, mapping, nested) by {
        WalkStops(data, offset, mapping, nested, attrs);
      }
    }
  }

  /** The end of the loop body: the attribute at `offset` is stored and `offset` moves past its padding. */
  method StoreAt(data: seq<byte>, offset: nat, mapping: Mapping, nested: Containers, attrs: Dict)
    returns (r: Dict, next: nat)
    requires offset + 4 <= |data|
    requires 4 <= Le16(data[offset..offset + 4]) <= |data| - offset
    ensures next == offset + Nla.Align(Le16(data[offset..offset + 4]))
    ensures Walk(Drop(data, next), mapping, nested, r) == Walk(Drop(data, offset), mapping, nested, attrs)
    decreases |data|, 0
  {
    var nlaLen := Le16(data[offset..offset + 4]);
    var nlaType := Le16(data[offset + 2..offset + 4]);
    var typeId := MaskType(nlaType);
    var attrName := NameOf(mapping, typeId);
    var payload := data[offset + 4..offset + nlaLen];
    r := Store(attrs, mapping, nested, typeId, attrName, payload);
    next := offset + Nla.Align(nlaLen);
    WalkStores(data, offset, mapping, nested, attrs, typeId, payload, next);
  }

  /** The body of the loop that stores one attribute under `name`, the name of `id`. */
  method Store(attrs: Dict, mapping: Mapping, nested: Containers, id: nat, name: string, payload: seq<byte>)
    returns (r: Dict)
    requires name == NameOf(mapping, id)
    ensures r == Stored(attrs, mapping, nested, id, payload)
    decreases |payload|, 2
  {
    if id == 0 {
      var nestedAttrs := ParseWith(payload, mapping, nested);
      r := Merge(attrs, nestedAttrs);
    } else if name in nested {
      var nestedAttrs := ParseWith(payload, nested[name], nested);
      r := Put(attrs, name, Nested(nestedAttrs));
    } else {
      r := Put(attrs, name, DecodeValue(name, payload));
    }
  }

  /** Every attribute keeps the keys unique. */
  lemma StoredUnique(acc: Dict, m: Mapping, nested: Containers, id: nat, payload: seq<byte>)
    requires UniqueKeys(acc)
    ensures UniqueKeys(Stored(acc, m, nested, id, payload))
  {
    var name := NameOf(m, id);
    if id == 0 {
      MergeUnique(acc, Parse(payload, m, nested));
    } else if name in nested {
      PutKeys(acc, name, Nested(Parse(payload, nested[name], nested)));
    } else {
      PutKeys(acc, name, DecodeValue(name, payload));
    }
  }

  /** The walk builds a dictionary: no name appears twice. */
  lemma {:induction false} WalkUnique(rest: seq<byte>, m: Mapping, nested: Containers, acc: Dict)
    requires UniqueKeys(acc)
    ensures UniqueKeys(Walk(rest, m, nested, acc))
    decreases |rest|
  {
    if |rest| >= 4 {
      var len := Le16(rest);
      if len == 0 {
        WalkUnique(rest[4..], m, nested, acc);
      } else if 4 <= len <= |rest| {
        var acc' := Stored(acc, m, nested, TypeId(Le16(rest[2..])), rest[4..len]);
        StoredUnique(acc, m, nested, TypeId(Le16(rest[2..])), rest[4..len]);
        WalkUnique(Drop(rest, Nla.Align(len)), m, nested, acc');
      }
    }
  }

  /** A name the table gives to some masked type: its own name, or `UNKNOWN_ATTR_` and the number. */
  ghost predicate Named(m: Mapping, k: string)
  {
    exists id :: NameOf(m, id) == k
  }

  /** The names the table can give are its values and the names of the types it lacks. */
  lemma NamedForms(m: Mapping, k: string)
    ensures Named(m, k) <==> k in m.Values || exists n: nat :: n !in m && k == "UNKNOWN_ATTR_" + Decimal(n)
  {
    if k in m.Values {
      var id :| id in m && m[id] == k;
      assert NameOf(m, id) == k;
    }
    if exists n: nat :: n !in m && k == "UNKNOWN_ATTR_" + Decimal(n) {
      var n: nat :| n !in m && k == "UNKNOWN_ATTR_" + Decimal(n);
      assert NameOf(m, n) == k;
    }
  }

  /** Every key an attribute adds is a name of the table. */
  lemma {:induction false} StoredKeys(acc: Dict, m: Mapping, nested: Containers, id: nat, payload: seq<byte>)
    ensures forall k :: k in Keys(Stored(acc, m, nested, id, payload)) ==> k in Keys(acc) || Named(m, k)
    decreases |payload|, 1
  {
    var name := NameOf(m, id);
    if id == 0 {
      MergeKeySet(acc, Parse(payload, m, nested));
      WalkKeys(payload, m, nested, []);
    } else if name in nested {
      PutKeySet(acc, name, Nested(Parse(payload, nested[name], nested)));
    } else {
      PutKeySet(acc, name, DecodeValue(name, payload));
    }
  }

  /** Every key the walk adds is a name of the table, even through type 0 containers. */
  lemma {:induction false} WalkKeys(rest: seq<byte>, m: Mapping, nested: Containers, acc: Dict)
    ensures forall k :: k in Keys(Walk(rest, m, nested, acc)) ==> k in Keys(acc) || Named(m, k)
    decreases |rest|, 0
  {
    if |rest| >= 4 {
      var len := Le16(rest);
      if len == 0 {
        WalkKeys(rest[4..], m, nested, acc);
      } else if 4 <= len <= |rest| {
        var acc' := Stored(acc, m, nested, TypeId(Le16(rest[2..])), rest[4..len]);
        StoredKeys(acc, m, nested, TypeId(Le16(rest[2..])), rest[4..len]);
        WalkKeys(Drop(rest, Nla.Align(len)), m, nested, acc');
      }
    }
  }

  /** `parse_attributes` returns a dictionary whose keys are all names of the table it was given. */
  lemma AttributesNamed(data: seq<byte>, m: Mapping)
    ensures UniqueKeys(Attributes(data, m))
    ensures forall k :: k in Keys(Attributes(data, m)) ==> Named(m, k)
  {
    WalkUnique(data, m, NestedMappings, []);
    WalkKeys(data, m, NestedMappings, []);
  }

  /**
   * What one attribute does to a lookup: a type 0 container answers for
   * the names it holds; any other type answers for its own name, with the
   * nested dictionary or the decoded value; every other name keeps its value.
   */
  lemma StoredGet(acc: Dict, m: Mapping, nested: Containers, id: nat, payload: seq<byte>, k: string)
    ensures var inner := Parse(payload, m, nested);
            id == 0 ==> Get(Stored(acc, m, nested, id, payload), k) == if Has(inner, k) then Get(inner, k) else Get(acc, k)
    ensures var name := NameOf(m, id);
            id != 0 && name in nested ==>
              Get(Stored(acc, m, nested, id, payload), k) ==
              if k == name then Some(Nested(Parse(payload, nested[name], nested))) else Get(acc, k)
    ensures var name := NameOf(m, id);
            id != 0 && name !in nested ==>
              Get(Stored(acc, m, nested, id, payload), k) == if k == name then Some(DecodeValue(name, payload)) else Get(acc, k)
  {
    var name := NameOf(m, id);
    if id == 0 {
      WalkUnique(payload, m, nested, []);
      MergeGet(acc, Parse(payload, m, nested), k);
    } else if name in nested {
      PutGet(acc, name, Nested(Parse(payload, nested[name], nested)), k);
    } else {
      PutGet(acc, name, DecodeValue(name, payload), k);
    }
  }

  /** A well-formed encoded attribute is read back: its masked type and its exact payload are stored. */
  lemma WalkEncoded(t: u16, p: seq<byte>, rest: seq<byte>, m: Mapping, nested: Containers, acc: Dict)
    requires Nla.SizeofAttrHdr + |p| < 0x1_0000
    ensures Walk(Nla.EncodeAttr(t, p) + rest, m, nested, acc) == Walk(rest, m, nested, Stored(acc, m, nested, TypeId(t), p))
  {
    var b := Nla.EncodeAttr(t, p) + rest;
    var len := 4 + |p|;
    Le16Put16(len, b[2..]);
    assert b[2..] == Put16(t) + (p + Nla.Padding(|p|) + rest);
    Le16Put16(t, p + Nla.Padding(|p|) + rest);
    assert b[4..len] == p;
    assert Drop(b, Nla.Align(len)) == rest;
    WalkStep(b, m, nested, acc);
  }

  /** A header of length 0 is skipped whatever its type. */
  lemma WalkZeroLength(t: u16, rest: seq<byte>, m: Mapping, nested: Containers, acc: Dict)
    ensures Walk(Put16(0) + Put16(t) + rest, m, nested, acc) == Walk(rest, m, nested, acc)
  {
    var b := Put16(0) + Put16(t) + rest;
    Le16Put16(0, Put16(t) + rest);
    assert b[4..] == rest;
  }

  /** The walk stops, keeping what it has, at a length below the header's or beyond the data. */
  lemma WalkBadLength(len: u16, t: u16, rest: seq<byte>, m: Mapping, nested: Containers, acc: Dict)
    requires 0 < len < 4 || len > 4 + |rest|
    ensures Walk(Put16(len) + Put16(t) + rest, m, nested, acc) == acc
  {
    Le16Put16(len, Put16(t) + rest);
  }

  /** One attribute with its type and payload, as a sender would build it. */
  datatype Raw = Raw(t: u16, payload: seq<byte>)

  predicate Encodable(attrs: seq<Raw>)
  {
    forall i :: 0 <= i < |attrs| ==> Nla.SizeofAttrHdr + |attrs[i].payload| < 0x1_0000
  }

  /** The attributes one after another, each padded to four bytes. */
  function EncodeAll(attrs: seq<Raw>): seq<byte>
    requires Encodable(attrs)
  {
    if |attrs| == 0 then [] else Nla.EncodeAttr(attrs[0].t, attrs[0].payload) + EncodeAll(attrs[1..])
  }

  /** The attributes stored into `acc` in their order. */
  function StoreAll(acc: Dict, m: Mapping, nested: Containers, attrs: seq<Raw>): Dict
    decreases |attrs|
  {
    if |attrs| == 0 then acc
    else StoreAll(Stored(acc, m, nested, TypeId(attrs[0].t), attrs[0].payload), m, nested, attrs[1..])
  }

  /** Parsing well-formed encoded attributes stores each of them, in the order they were sent. */
  lemma {:induction false} ParseEncoded(attrs: seq<Raw>, m: Mapping, nested: Containers, acc: Dict)
    requires Encodable(attrs)
    ensures Walk(EncodeAll(attrs), m, nested, acc) == StoreAll(acc, m, nested, attrs)
  {
    if |attrs| > 0 {
      WalkEncoded(attrs[0].t, attrs[0].payload, EncodeAll(attrs[1..]), m, nested, acc);
      ParseEncoded(attrs[1..], m, nested, Stored(acc, m, nested, TypeId(attrs[0].t), attrs[0].payload));
    }
  }
}
