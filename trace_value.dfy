/**
 * How the trace decoder turns one attribute payload into a value: the
 * attribute's name alone chooses the reading (a dotted IPv4 address, a
 * little-endian number of 8, 4, 2 or 1 bytes, a big-endian mask, a list of
 * port ranges, a text), and a payload too short for that reading falls
 * through to the next rule, ending with the payload in hex.
 */
module TraceValue {
  import opened Wire
  import opened Text
  import opened PyDict

  const VolumeNames: seq<string> := [
    "GTP5G_URR_VOLUME_THRESHOLD_TOVOL", "GTP5G_URR_VOLUME_THRESHOLD_UVOL",
    "GTP5G_URR_VOLUME_THRESHOLD_DVOL",
    "GTP5G_URR_VOLUME_QUOTA_TOVOL", "GTP5G_URR_VOLUME_QUOTA_UVOL",
    "GTP5G_URR_VOLUME_QUOTA_DVOL",
    "GTP5G_UR_VOLUME_MEASUREMENT_TOVOL", "GTP5G_UR_VOLUME_MEASUREMENT_UVOL",
    "GTP5G_UR_VOLUME_MEASUREMENT_DVOL",
    "GTP5G_UR_VOLUME_MEASUREMENT_TOPACKET", "GTP5G_UR_VOLUME_MEASUREMENT_UPACKET",
    "GTP5G_UR_VOLUME_MEASUREMENT_DPACKET"]

  const U32Names: seq<string> := [
    "GTP5G_LINK", "GTP5G_NET_NS_FD",
    "GTP5G_FAR_ID", "GTP5G_QER_ID", "GTP5G_QER_CORR_ID",
    "GTP5G_PDR_FAR_ID", "GTP5G_PDR_QER_ID", "GTP5G_PDR_URR_ID",
    "GTP5G_URR_ID", "GTP5G_URR_MEASUREMENT_METHOD",
    "GTP5G_URR_REPORTING_TRIGGER", "GTP5G_URR_MEASUREMENT_PERIOD",
    "GTP5G_URR_NUM",
    "GTP5G_PDR_PRECEDENCE", "GTP5G_F_TEID_I_TEID",
    "GTP5G_OUTER_HEADER_CREATION_O_TEID",
    "GTP5G_SDF_FILTER_SECURITY_PARAMETER_INDEX",
    "GTP5G_SDF_FILTER_FLOW_LABEL", "GTP5G_SDF_FILTER_SDF_FILTER_ID",
    "GTP5G_UR_URRID", "GTP5G_UR_URSEQN", "GTP5G_UR_QUERY_URR_REFERENCE",
    "GTP5G_UR_USAGE_REPORT_TRIGGER",
    "GTP5G_QER_MBR_UL_HIGH32", "GTP5G_QER_MBR_DL_HIGH32",
    "GTP5G_QER_GBR_UL_HIGH32", "GTP5G_QER_GBR_DL_HIGH32"]

  const MaskNames: seq<string> := ["GTP5G_FLOW_DESCRIPTION_SRC_MASK", "GTP5G_FLOW_DESCRIPTION_DEST_MASK"]

  const PortNames: seq<string> := ["GTP5G_FLOW_DESCRIPTION_SRC_PORT", "GTP5G_FLOW_DESCRIPTION_DEST_PORT"]

  const PdrIdName: string := "GTP5G_PDR_ID"

  const U16Names: seq<string> := [
    "GTP5G_FAR_RELATED_TO_PDR", "GTP5G_QER_RELATED_TO_PDR",
    "GTP5G_URR_RELATED_TO_PDR", "GTP5G_OUTER_HEADER_CREATION_PORT",
    "GTP5G_OUTER_HEADER_CREATION_DESCRIPTION",
    "GTP5G_SDF_FILTER_TOS_TRAFFIC_CLASS",
    "GTP5G_BUFFERING_PACKETS_COUNT",
    "GTP5G_FAR_APPLY_ACTION"]

  const U8Names: seq<string> := [
    "GTP5G_OUTER_HEADER_REMOVAL",
    "GTP5G_PDI_SRC_INTF", "GTP5G_QER_GATE", "GTP5G_BAR_ID",
    "GTP5G_QER_RQI", "GTP5G_QER_QFI", "GTP5G_QER_PPI", "GTP5G_QER_RCSR",
    "GTP5G_URR_MEASUREMENT_INFO", "GTP5G_DOWNLINK_DATA_NOTIFICATION_DELAY",
    "GTP5G_QER_MBR_UL_LOW8", "GTP5G_QER_MBR_DL_LOW8",
    "GTP5G_QER_GBR_UL_LOW8", "GTP5G_QER_GBR_DL_LOW8",
    "GTP5G_FORWARDING_PARAMETER_PFCPSM_REQ_FLAGS",
    "GTP5G_FORWARDING_PARAMETER_TOS_TC",
    "GTP5G_UR_VOLUME_MEASUREMENT_FLAGS",
    "GTP5G_URR_VOLUME_THRESHOLD_FLAG", "GTP5G_URR_VOLUME_QUOTA_FLAG",
    "GTP5G_FLOW_DESCRIPTION_ACTION", "GTP5G_FLOW_DESCRIPTION_DIRECTION",
    "GTP5G_FLOW_DESCRIPTION_PROTOCOL"]

  const StringNames: seq<string> := [
    "GTP5G_PDR_UNIX_SOCKET_PATH",
    "GTP5G_FORWARDING_PARAMETER_FORWARDING_POLICY",
    "GTP5G_SDF_FILTER_FLOW_DESCRIPTION"]

  /** Four numbers in dotted decimal. */
  function Dotted(a: nat, b: nat, c: nat, d: nat): string
  {
    Decimal(a) + "." + Decimal(b) + "." + Decimal(c) + "." + Decimal(d)
  }

  /** A mask: the first four bytes as a big-endian word, printed a byte at a time from the top. */
  function MaskText(data: seq<byte>): string
    requires |data| >= 4
  {
    var m := BigEndian(data[..4]);
    Dotted(m / 0x100_0000 % 0x100, m / 0x1_0000 % 0x100, m / 0x100 % 0x100, m % 0x100)
  }

  /** A mask prints its four bytes in the order they are sent, just like an address. */
  lemma MaskIsDotted(data: seq<byte>)
    requires |data| >= 4
    ensures MaskText(data) == Dotted(data[0], data[1], data[2], data[3])
  {
    var b := data[..4];
    assert b[..3][..2][..1][..0] == [];
    assert BigEndian(b[..3][..2][..1]) == data[0];
    assert BigEndian(b[..3][..2]) == data[0] as int * 0x100 + data[1] as int;
    assert BigEndian(b[..3]) == data[0] as int * 0x1_0000 + data[1] as int * 0x100 + data[2] as int;
    var m := BigEndian(b);
    assert m == data[0] as int * 0x100_0000 + data[1] as int * 0x1_0000 + data[2] as int * 0x100 + data[3] as int;
    WordBytes(data[0], data[1], data[2], data[3]);
  }

  lemma WordBytes(a: byte, b: byte, c: byte, d: byte)
    ensures var m := a * 0x100_0000 + b * 0x1_0000 + c * 0x100 + d;
      m / 0x100_0000 % 0x100 == a && m / 0x1_0000 % 0x100 == b && m / 0x100 % 0x100 == c && m % 0x100 == d
  {
    var m := a * 0x100_0000 + b * 0x1_0000 + c * 0x100 + d;
    assert m / 0x100_0000 == a;
    assert m / 0x1_0000 == a * 0x100 + b;
    assert m / 0x100 == a * 0x1_0000 + b * 0x100 + c;
  }

  /** One port range whose ends are `a` and `b`: the port alone when they agree, else `min-max`. */
  function RangeText(a: nat, b: nat): (s: string)
  {
    if a == b then Decimal(a)
    else if a < b then Decimal(a) + "-" + Decimal(b)
    else Decimal(b) + "-" + Decimal(a)
  }

  /** One 32-bit port word: its low 16 bits and its high 16 bits are the two ends. */
  function PortText(w: nat): string
  {
    RangeText(w % 0x1_0000, w / 0x1_0000 % 0x1_0000)
  }

  /** One entry per whole little-endian 32-bit word; a shorter tail is ignored. */
  function PortEntries(data: seq<byte>): (r: seq<string>)
    ensures |r| == |data| / 4
    decreases |data|
  {
    if |data| < 4 then [] else [PortText(Le32(data))] + PortEntries(data[4..])
  }

  /** The rest of `data` from position `i`, empty once `i` has passed the end. */
  function Drop(data: seq<byte>, i: nat): seq<byte>
  {
    if i >= |data| then [] else data[i..]
  }

  /** The entries joined with commas, `(none)` when there are none. */
  function PortsText(data: seq<byte>): string
  {
    var e := PortEntries(data);
    if |data| == 0 || |e| == 0 then "(none)" else Join(e, ",")
  }

  /** Entry `k` is the range between the two little-endian halves of word `k`. */
  lemma {:induction false} PortWordHalves(data: seq<byte>, k: nat)
    requires k < |data| / 4
    ensures PortEntries(data)[k] == RangeText(Le16(data[4 * k..]), Le16(data[4 * k + 2..]))
  {
    if k == 0 {
      var w := Le32(data);
      assert w % 0x1_0000 == Le16(data);
      assert w / 0x1_0000 % 0x1_0000 == Le16(data[2..]);
    } else {
      PortWordHalves(data[4..], k - 1);
      assert data[4..][4 * (k - 1)..] == data[4 * k..];
      assert data[4..][4 * (k - 1) + 2..] == data[4 * k + 2..];
    }
  }

  lemma PortStep(data: seq<byte>, i: nat)
    requires i + 4 <= |data|
    ensures PortEntries(Drop(data, i)) == [PortText(Le32(data[i..i + 4]))] + PortEntries(Drop(data, i + 4))
  {
    assert Drop(data, i)[4..] == Drop(data, i + 4);
    assert Le32(Drop(data, i)) == Le32(data[i..i + 4]);
  }

  /** The port loop: one text per whole word, then the comma-joined list. */
  method PortRanges(data: seq<byte>) returns (s: string)
    ensures s == PortsText(data)
  {
    if |data| == 0 {
      return "(none)";
    }
    var ranges: seq<string> := [];
    var i := 0;
    while i < |data|
      invariant 0 <= i
      invariant ranges + PortEntries(Drop(data, i)) == PortEntries(data)
      decreases |data| - i
    {
      if i + 4 <= |data| {
        var w := Le32(data[i..i + 4]);
        var p1 := w % 0x1_0000;
        var p2 := w / 0x1_0000 % 0x1_0000;
        PortStep(data, i);
        assert RangeText(p1, p2) == PortText(w);
        ranges := ranges + [RangeText(p1, p2)];
      } else {
        assert Drop(data, i + 4) == [];
      }
      i := i + 4;
    }
    assert Drop(data, i) == [];
    assert ranges == PortEntries(data);
    s := if |ranges| > 0 then Join(ranges, ",") else "(none)";
  }

  /** `data.decode('utf-8', errors='ignore')` for ASCII text: bytes above 0x7F are dropped. */
  function DecodeIgnoring(data: seq<byte>): (s: string)
    ensures |s| <= |data|
    ensures forall i :: 0 <= i < |s| ==> s[i] as int < 0x80
  {
    if |data| == 0 then ""
    else (if data[0] < 0x80 then [data[0] as char] else []) + DecodeIgnoring(data[1..])
  }

  /** The last rule: the payload in hex after `0x`, or `(empty)`. */
  function Fallback(data: seq<byte>): string
  {
    if |data| == 0 then "(empty)" else "0x" + Hex(data)
  }

  /** `decode_value(attr_name, data)`. */
  function DecodeValue(name: string, data: seq<byte>): Value
  {
    if (Contains(name, "IPV4") || Contains(name, "ADDR_IPV4")) && |data| >= 4 then
      Str(Dotted(data[0], data[1], data[2], data[3]))
    else if (Contains(name, "SEID") || Contains(name, "TIME")) && |data| >= 8 then Int(Le64(data))
    else if name in VolumeNames && |data| >= 8 then Int(Le64(data))
    else if name in VolumeNames && |data| >= 4 then Int(Le32(data))
    else if name in U32Names && |data| >= 4 then Int(Le32(data))
    else if name in MaskNames && |data| >= 4 then Str(MaskText(data))
    else if name in PortNames then Str(PortsText(data))
    else if name == PdrIdName && |data| >= 2 then Int(Le16(data))
    else if name in U16Names && |data| >= 2 then Int(Le16(data))
    else if name in U8Names && |data| >= 1 then Int(data[0])
    else if name in StringNames then Str(RStripNul(DecodeIgnoring(data)))
    else Str(Fallback(data))
  }

  /** The second name test of the address rule adds nothing to the first. */
  lemma AddressTestRedundant(name: string)
    ensures Contains(name, "ADDR_IPV4") ==> Contains(name, "IPV4")
  {
    if Contains(name, "ADDR_IPV4") {
      var i :| 0 <= i <= |name| - 9 && OccursAt(name, "ADDR_IPV4", i);
      assert name[i + 5..i + 9] == name[i..i + 9][5..];
      assert OccursAt(name, "IPV4", i + 5);
    }
  }

  /** Numbers are unsigned and at most 64 bits wide; a text rule never yields a dictionary. */
  lemma DecodedRange(name: string, data: seq<byte>)
    ensures DecodeValue(name, data).Int? ==> DecodeValue(name, data).n < 0x1_0000_0000_0000_0000
    ensures !DecodeValue(name, data).Nested?
  {
  }

  /**
   * Empty data: ports give `(none)`, texts give the empty text, and every
   * other name, known or not, falls back to `(empty)`.
   */
  lemma DecodeEmpty(name: string)
    ensures DecodeValue(name, []) ==
              if name in PortNames then Str("(none)")
              else if name in StringNames then Str("")
              else Str("(empty)")
  {
  }

  /**
   * Too little data for the width a name's rule reads (four bytes for a
   * 32-bit or volume name, two for the PDR id or a 16-bit name, one for an
   * 8-bit name) falls through every later rule to the hex fallback.
   */
  lemma ShortFallback(name: string, p: seq<byte>, w: nat)
    requires !Contains(name, "IPV4") && !Contains(name, "ADDR_IPV4")
    requires !Contains(name, "SEID") && !Contains(name, "TIME")
    requires name !in PortNames && name !in StringNames
    requires || ((name in VolumeNames || name in U32Names) && w == 4
                 && name != PdrIdName && name !in U16Names && name !in U8Names)
             || ((name == PdrIdName || name in U16Names) && w == 2
                 && name !in VolumeNames && name !in U32Names && name !in U8Names)
             || (name in U8Names && w == 1
                 && name !in VolumeNames && name !in U32Names && name != PdrIdName && name !in U16Names)
    requires |p| < w
    ensures DecodeValue(name, p) == Str(Fallback(p))
  {
  }

  /** A name that carries no tag and belongs to no group always falls back to hex, whatever its length. */
  lemma UnknownFallback(name: string, p: seq<byte>)
    requires !Contains(name, "IPV4") && !Contains(name, "ADDR_IPV4")
    requires !Contains(name, "SEID") && !Contains(name, "TIME")
    requires name !in VolumeNames && name !in U32Names && name !in MaskNames && name !in PortNames
    requires name != PdrIdName && name !in U16Names && name !in U8Names && name !in StringNames
    ensures DecodeValue(name, p) == Str(Fallback(p))
  {
  }

  /** The hex fallback can be read back: `int(text[2:], 16)` is the payload read as one big-endian number. */
  lemma FallbackReadsBack(data: seq<byte>)
    requires |data| > 0
    ensures Fallback(data)[..2] == "0x"
    ensures |Fallback(data)| == 2 + 2 * |data|
    ensures AllHex(Fallback(data)[2..])
    ensures DigitsValue(Fallback(data)[2..], 16) == BigEndian(data)
  {
    assert Fallback(data)[2..] == Hex(data);
    HexValue(data);
  }
}
