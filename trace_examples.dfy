/**
 * The trace decoder on the concrete inputs its unit tests use: values
 * decoded by name, attribute runs parsed with a table, dictionaries
 * displayed, flags and message types read from strace text.
 */
module TraceExamples {
  import opened Wire
  import opened Text
  import opened PyDict
  import opened TraceValue
  import opened TraceParse
  import opened TraceFormat
  import opened TraceFlags
  import opened Bits
  import Nla

  /** A name without a `V` is not an address name. */
  lemma NotAddress(name: string)
    requires forall k :: 0 <= k < |name| ==> name[k] != 'V'
    ensures !Contains(name, "IPV4") && !Contains(name, "ADDR_IPV4")
  {
    MissingChar(name, "IPV4", 2);
    MissingChar(name, "ADDR_IPV4", 7);
  }

  // ----- values -----

  lemma Decimal255()
    ensures Decimal(255) == "255"
  {
    assert Decimal(25) == "25" by {
      assert Decimal(2) == "2";
    }
  }

  lemma Decimal1024()
    ensures Decimal(1024) == "1024"
  {
    assert Decimal(102) == "102" by {
      assert Decimal(10) == "10" by {
        assert Decimal(1) == "1";
      }
    }
  }

  lemma Decimal2048()
    ensures Decimal(2048) == "2048"
  {
    assert Decimal(204) == "204" by {
      assert Decimal(20) == "20" by {
        assert Decimal(2) == "2";
      }
    }
  }

  /** An address attribute prints as four dotted decimals. */
  lemma RoleAddress()
    ensures DecodeValue("GTP5G_PDR_ROLE_ADDR_IPV4", [192, 168, 1, 1]) == Str("192.168.1.1")
  {
    var name := "GTP5G_PDR_ROLE_ADDR_IPV4";
    assert OccursAt(name, "IPV4", 20);
    assert Decimal(192) == "192";
    assert Decimal(168) == "168";
    assert Decimal(1) == "1";
  }

  /** A gate status is one byte. */
  lemma GateStatus()
    ensures DecodeValue("GTP5G_QER_GATE", [3]) == Int(3)
  {
  }

  /** A PDR id is a little-endian 16-bit number. */
  lemma PdrId()
    ensures DecodeValue("GTP5G_PDR_ID", [0xd2, 0x04]) == Int(1234)
  {
  }

  lemma TeidName()
    ensures var name := "GTP5G_F_TEID_I_TEID";
            !Contains(name, "IPV4") && !Contains(name, "ADDR_IPV4") && name !in VolumeNames && name in U32Names
  {
    NotAddress("GTP5G_F_TEID_I_TEID");
    assert "GTP5G_F_TEID_I_TEID" == U32Names[14];
  }

  /** A TEID is a little-endian 32-bit number. */
  lemma Teid()
    ensures DecodeValue("GTP5G_F_TEID_I_TEID", [0x78, 0x56, 0x34, 0x12]) == Int(0x12345678)
  {
    TeidName();
  }

  /** A SEID is a little-endian 64-bit number. */
  lemma Seid()
    ensures DecodeValue("GTP5G_PDR_SEID", [0xf0, 0xde, 0xbc, 0x9a, 0x78, 0x56, 0x34, 0x12]) == Int(0x123456789ABCDEF0)
  {
    var name := "GTP5G_PDR_SEID";
    NotAddress(name);
    assert OccursAt(name, "SEID", 10);
  }

  /** One port word is the range between its little-endian halves. */
  lemma OneWord(d: seq<byte>)
    requires |d| == 4
    ensures PortsText(d) == RangeText(Le16(d), Le16(d[2..]))
  {
    PortWordHalves(d, 0);
    assert |PortEntries(d)| == 1;
  }

  /** A port word whose halves agree is that one port. */
  lemma SinglePort()
    ensures PortsText([80, 0, 80, 0]) == "80"
  {
    OneWord([80, 0, 80, 0]);
    assert Decimal(80) == "80";
  }

  /** A port word whose halves differ is a range, low half first. */
  lemma PortRange()
    ensures PortsText([0x00, 0x04, 0x00, 0x08]) == "1024-2048"
  {
    OneWord([0x00, 0x04, 0x00, 0x08]);
    RangeLowHigh();
  }

  /** No port data is `(none)`. */
  lemma NoPorts()
    ensures PortsText([]) == "(none)"
  {
  }

  lemma RangeLowHigh()
    ensures RangeText(1024, 2048) == "1024-2048"
  {
    Decimal1024();
    Decimal2048();
  }

  lemma DottedC()
    ensures Dotted(255, 255, 255, 0) == "255.255.255.0"
  {
    Decimal255();
    assert Decimal(0) == "0";
  }

  lemma DottedB()
    ensures Dotted(255, 255, 0, 0) == "255.255.0.0"
  {
    Decimal255();
    assert Decimal(0) == "0";
  }

  /** A mask is read most significant byte first. */
  lemma MaskClassC()
    ensures MaskText([255, 255, 255, 0]) == "255.255.255.0"
  {
    MaskIsDotted([255, 255, 255, 0]);
    DottedC();
  }

  lemma MaskClassB()
    ensures MaskText([255, 255, 0, 0]) == "255.255.0.0"
  {
    MaskIsDotted([255, 255, 0, 0]);
    DottedB();
  }

  /** An unlisted name prints its payload in hex. */
  lemma HexFallback()
    ensures Fallback([0xde, 0xad, 0xbe, 0xef]) == "0xdeadbeef"
  {
    var d: seq<byte> := [0xde, 0xad, 0xbe, 0xef];
    assert Hex(d[..1]) == "de";
    assert Hex(d[..2]) == "dead" by {
      assert d[..2][..1] == d[..1];
    }
    assert Hex(d[..3]) == "deadbe" by {
      assert d[..3][..2] == d[..2];
    }
    assert d[..4][..3] == d[..3];
    assert d[..4] == d;
  }

  /** A path loses its terminating NUL. */
  lemma PathText()
    ensures RStripNul(DecodeIgnoring([0x2f, 0x74, 0x6d, 0x70, 0])) == "/tmp"
  {
    assert DecodeIgnoring([0x2f, 0x74, 0x6d, 0x70, 0]) == "/tmp\0";
    assert Trailing("/tmp\0", IsNul) == 1;
  }

  /** No data is `(empty)`. */
  lemma EmptyLink()
    ensures DecodeValue("GTP5G_LINK", []) == Str("(empty)")
  {
  }

  lemma FarIdName()
    ensures var name := "GTP5G_FAR_ID";
            !Contains(name, "IPV4") && !Contains(name, "ADDR_IPV4") &&
            name !in PortNames && name != PdrIdName && name !in U16Names && name !in U8Names && name !in StringNames
  {
    NotAddress("GTP5G_FAR_ID");
  }

  /** Too few bytes for a 32-bit id fall back to hex. */
  lemma ShortFarId()
    ensures DecodeValue("GTP5G_FAR_ID", [0x01, 0x02]) == Str("0x0102")
  {
    FarIdName();
    assert Hex([0x01, 0x02]) == "0102" by {
      assert [0x01, 0x02][..1] == [0x01];
    }
  }

  // ----- attribute runs -----

  /** No data parses to the empty dictionary. */
  lemma ParseEmpty()
    ensures Attributes([], CommonAttrs) == []
  {
  }

  /** A run holding one well-formed attribute parses to what that attribute stores. */
  lemma ParseOne(t: u16, p: seq<byte>, m: Mapping)
    requires Nla.SizeofAttrHdr + |p| < 0x1_0000
    ensures Attributes(Nla.EncodeAttr(t, p), m) == Stored([], m, NestedMappings, TypeId(t), p)
  {
    assert Nla.EncodeAttr(t, p) + [] == Nla.EncodeAttr(t, p);
    WalkEncoded(t, p, [], m, NestedMappings, []);
  }

  /** Two attributes one after the other are stored in their order. */
  lemma ParseTwo(t1: u16, p1: seq<byte>, t2: u16, p2: seq<byte>, m: Mapping)
    requires Nla.SizeofAttrHdr + |p1| < 0x1_0000 && Nla.SizeofAttrHdr + |p2| < 0x1_0000
    ensures Attributes(Nla.EncodeAttr(t1, p1) + Nla.EncodeAttr(t2, p2), m) ==
            Stored(Stored([], m, NestedMappings, TypeId(t1), p1), m, NestedMappings, TypeId(t2), p2)
  {
    var first := Stored([], m, NestedMappings, TypeId(t1), p1);
    WalkEncoded(t1, p1, Nla.EncodeAttr(t2, p2), m, NestedMappings, []);
    assert Nla.EncodeAttr(t2, p2) + [] == Nla.EncodeAttr(t2, p2);
    WalkEncoded(t2, p2, [], m, NestedMappings, first);
  }

  /** The 32-bit rule: a listed name that no earlier rule claims reads four little-endian bytes. */
  lemma U32Rule(name: string, p: seq<byte>)
    requires !Contains(name, "IPV4") && !Contains(name, "ADDR_IPV4")
    requires !Contains(name, "SEID") && !Contains(name, "TIME")
    requires name !in VolumeNames && name in U32Names && |p| >= 4
    ensures DecodeValue(name, p) == Int(Le32(p))
  {
  }

  lemma LinkUntagged()
    ensures var name := "GTP5G_LINK";
            !Contains(name, "IPV4") && !Contains(name, "ADDR_IPV4") && !Contains(name, "SEID") && !Contains(name, "TIME")
  {
    var name := "GTP5G_LINK";
    NotAddress(name);
    MissingChar(name, "SEID", 0);
    MissingChar(name, "TIME", 3);
  }

  lemma LinkListed()
    ensures "GTP5G_LINK" !in VolumeNames && "GTP5G_LINK" in U32Names
  {
    assert "GTP5G_LINK" == U32Names[0];
  }

  lemma LinkNotNested()
    ensures "GTP5G_LINK" !in NestedMappings
  {
  }

  lemma NetNsUntagged()
    ensures var name := "GTP5G_NET_NS_FD";
            !Contains(name, "IPV4") && !Contains(name, "ADDR_IPV4") && !Contains(name, "SEID") && !Contains(name, "TIME")
  {
    var name := "GTP5G_NET_NS_FD";
    NotAddress(name);
    MissingChar(name, "SEID", 2);
    MissingChar(name, "TIME", 1);
  }

  lemma NetNsListed()
    ensures "GTP5G_NET_NS_FD" !in VolumeNames && "GTP5G_NET_NS_FD" in U32Names
  {
    assert "GTP5G_NET_NS_FD" == U32Names[1];
  }

  lemma NetNsNotNested()
    ensures "GTP5G_NET_NS_FD" !in NestedMappings
  {
  }

  /** A single named, non-container attribute parses to its name and decoded value. */
  lemma ParseNamed(t: u16, p: seq<byte>, m: Mapping)
    requires Nla.SizeofAttrHdr + |p| < 0x1_0000
    requires TypeId(t) != 0 && TypeId(t) in m && m[TypeId(t)] !in NestedMappings
    ensures Attributes(Nla.EncodeAttr(t, p), m) == [Entry(m[TypeId(t)], DecodeValue(m[TypeId(t)], p))]
  {
    ParseOne(t, p, m);
  }

  /** A named attribute that is not a container stores its decoded value under its name. */
  lemma StoredPlain(acc: Dict, m: Mapping, id: nat, p: seq<byte>, name: string, v: Value)
    requires id != 0 && id in m && m[id] == name && name !in NestedMappings && DecodeValue(name, p) == v
    ensures Stored(acc, m, NestedMappings, id, p) == Put(acc, name, v)
  {
  }

  /** The link attribute (type 1) stores its 32-bit value under its name. */
  lemma LinkStored(acc: Dict, v: u32)
    ensures Stored(acc, CommonAttrs, NestedMappings, 1, Put32(v)) == Put(acc, "GTP5G_LINK", Int(v))
  {
    LinkUntagged();
    LinkListed();
    LinkNotNested();
    U32Rule("GTP5G_LINK", Put32(v));
    Le32Put32(v, []);
    assert Put32(v) + [] == Put32(v);
  }

  /** The namespace attribute (type 2) stores its 32-bit value under its name. */
  lemma NetNsStored(acc: Dict, v: u32)
    ensures Stored(acc, CommonAttrs, NestedMappings, 2, Put32(v)) == Put(acc, "GTP5G_NET_NS_FD", Int(v))
  {
    NetNsUntagged();
    NetNsListed();
    NetNsNotNested();
    U32Rule("GTP5G_NET_NS_FD", Put32(v));
    Le32Put32(v, []);
    assert Put32(v) + [] == Put32(v);
  }

  /** The two common attributes, link then namespace, give a dictionary of both in that order. */
  lemma LinkNetNsStored(a: u32, b: u32)
    ensures Stored(Stored([], CommonAttrs, NestedMappings, 1, Put32(a)), CommonAttrs, NestedMappings, 2, Put32(b)) ==
            [Entry("GTP5G_LINK", Int(a)), Entry("GTP5G_NET_NS_FD", Int(b))]
  {
    LinkStored([], a);
    NetNsAfterLink(Stored([], CommonAttrs, NestedMappings, 1, Put32(a)), a, b);
  }

  lemma NetNsAfterLink(d: Dict, a: u32, b: u32)
    requires d == [Entry("GTP5G_LINK", Int(a))]
    ensures Stored(d, CommonAttrs, NestedMappings, 2, Put32(b)) ==
            [Entry("GTP5G_LINK", Int(a)), Entry("GTP5G_NET_NS_FD", Int(b))]
  {
    NetNsStored(d, b);
  }

  /** The 16-bit id rule: the PDR id name reads two little-endian bytes. */
  lemma PdrIdRule(p: seq<byte>)
    requires |p| >= 2
    ensures DecodeValue(PdrIdName, p) == Int(Le16(p))
  {
    var name := PdrIdName;
    assert !Contains(name, "IPV4") && !Contains(name, "ADDR_IPV4") by {
      NotAddress(name);
    }
    assert !Contains(name, "SEID") && !Contains(name, "TIME") by {
      MissingChar(name, "SEID", 1);
      MissingChar(name, "TIME", 3);
    }
    assert name !in VolumeNames && name !in U32Names && name !in MaskNames && name !in PortNames by {
      PdrIdUnlisted();
    }
  }

  lemma PdrIdUnlisted()
    ensures PdrIdName !in VolumeNames && PdrIdName !in U32Names && PdrIdName !in MaskNames && PdrIdName !in PortNames
  {
  }

  lemma PdrIdNotNested()
    ensures PdrIdName !in NestedMappings
  {
  }

  lemma PdrIdValue(v: u16)
    ensures DecodeValue(PdrIdName, Put16(v)) == Int(v)
  {
    PdrIdRule(Put16(v));
    Le16Put16(v, []);
    assert Put16(v) + [] == Put16(v);
  }

  /** A PDR id attribute is laid out as length 6, type 3, the id and two bytes of padding. */
  lemma PdrIdLayout(v: u16)
    ensures Nla.EncodeAttr(3, Put16(v)) == Put16(6) + Put16(3) + Put16(v) + [0, 0]
  {
  }

  /** A type the table does not name is stored under `UNKNOWN_ATTR_<type>`, whatever its payload. */
  lemma StoredUnknown(acc: Dict, m: Mapping, id: nat, p: seq<byte>)
    requires id != 0 && id !in m && "UNKNOWN_ATTR_" + Decimal(id) !in NestedMappings
    ensures Has(Stored(acc, m, NestedMappings, id, p), "UNKNOWN_ATTR_" + Decimal(id))
  {
    var name := "UNKNOWN_ATTR_" + Decimal(id);
    PutGet(acc, name, DecodeValue(name, p), name);
  }

  lemma UnknownName()
    ensures "UNKNOWN_ATTR_" + Decimal(99) == "UNKNOWN_ATTR_99"
    ensures "UNKNOWN_ATTR_99" !in NestedMappings
  {
    assert Decimal(99) == "99";
  }

  /** Type 99 is not in the common table, so its attribute is stored as `UNKNOWN_ATTR_99`. */
  lemma UnknownStored(acc: Dict, p: seq<byte>)
    ensures Has(Stored(acc, CommonAttrs, NestedMappings, 99, p), "UNKNOWN_ATTR_99")
  {
    UnknownName();
    StoredUnknown(acc, CommonAttrs, 99, p);
  }

  /** A container attribute stores the dictionary of its payload, parsed with the container's table. */
  lemma StoredContainer(acc: Dict, m: Mapping, id: nat, p: seq<byte>, name: string)
    requires id != 0 && id in m && m[id] == name && name in NestedMappings
    ensures Stored(acc, m, NestedMappings, id, p) == Put(acc, name, Nested(Attributes(p, NestedMappings[name])))
  {
  }

  /** The 8-bit rule: a listed name that no earlier rule claims reads one byte. */
  lemma U8Rule(name: string, p: seq<byte>)
    requires !Contains(name, "IPV4") && !Contains(name, "ADDR_IPV4")
    requires !Contains(name, "SEID") && !Contains(name, "TIME")
    requires name !in VolumeNames && name !in U32Names && name !in MaskNames && name !in PortNames
    requires name != PdrIdName && name !in U16Names && name in U8Names && |p| >= 1
    ensures DecodeValue(name, p) == Int(p[0])
  {
  }

  lemma SrcIntfUntagged()
    ensures var name := "GTP5G_PDI_SRC_INTF";
            !Contains(name, "IPV4") && !Contains(name, "ADDR_IPV4") && !Contains(name, "SEID") && !Contains(name, "TIME")
  {
    var name := "GTP5G_PDI_SRC_INTF";
    NotAddress(name);
    MissingChar(name, "SEID", 1);
    MissingChar(name, "TIME", 3);
  }

  lemma SrcIntfWide()
    ensures var name := "GTP5G_PDI_SRC_INTF";
            name !in VolumeNames && name !in U32Names && name !in MaskNames && name !in PortNames
  {
  }

  lemma SrcIntfNarrow()
    ensures var name := "GTP5G_PDI_SRC_INTF";
            name != PdrIdName && name !in U16Names && name in U8Names
  {
    assert "GTP5G_PDI_SRC_INTF" == U8Names[1];
  }

  lemma SrcIntfNotNested()
    ensures 4 in PdiAttrs && PdiAttrs[4] == "GTP5G_PDI_SRC_INTF" && "GTP5G_PDI_SRC_INTF" !in NestedMappings
  {
  }

  /** A source interface is one byte. */
  lemma SrcIntfValue(x: byte)
    ensures DecodeValue("GTP5G_PDI_SRC_INTF", [x]) == Int(x)
  {
    SrcIntfUntagged();
    SrcIntfWide();
    SrcIntfNarrow();
    U8Rule("GTP5G_PDI_SRC_INTF", [x]);
  }

  /** A source interface attribute (type 4, length 5) parses with the PDI table to `{GTP5G_PDI_SRC_INTF: x}`. */
  lemma ParseSrcIntf(x: byte)
    ensures Attributes(Nla.EncodeAttr(4, [x]), PdiAttrs) == [Entry("GTP5G_PDI_SRC_INTF", Int(x))]
  {
    SrcIntfNotNested();
    ParseNamed(4, [x], PdiAttrs);
    SrcIntfValue(x);
  }

  lemma PdiContainer()
    ensures 5 in PdrAttrs && PdrAttrs[5] == "GTP5G_PDR_PDI"
  {
    assert 5 !in CommonAttrs;
  }

  lemma PdiTable()
    ensures "GTP5G_PDR_PDI" in NestedMappings && NestedMappings["GTP5G_PDR_PDI"] == PdiAttrs
  {
  }

  /**
   * A PDI attribute whose type carries the nested flag (`5 | 0x8000`) is
   * stored as the dictionary of the attributes inside it.
   */
  lemma PdiStored(x: byte)
    ensures Stored([], PdrAttrs, NestedMappings, TypeId(0x8005), Nla.EncodeAttr(4, [x])) ==
            [Entry("GTP5G_PDR_PDI", Nested([Entry("GTP5G_PDI_SRC_INTF", Int(x))]))]
  {
    assert TypeId(0x8005) == 5;
    PdiContainer();
    PdiTable();
    StoredContainer([], PdrAttrs, 5, Nla.EncodeAttr(4, [x]), "GTP5G_PDR_PDI");
    ParseSrcIntf(x);
  }

  // ----- header fields -----

  /** Flags in decimal. */
  lemma FlagsFive()
    ensures Flags("5") == Some(5)
  {
    FlagsDecimal(5);
    assert Decimal(5) == "5";
  }

  lemma HexDigits()
    ensures DigitsValue("05", 16) == 5
    ensures DigitsValue("300", 16) == 0x300
    ensures DigitsValue("1f", 16) == 31
  {
    assert "05"[..1] == "0";
    assert "300"[..2] == "30";
    assert "30"[..1] == "3";
    assert "1f"[..1] == "1";
  }

  /** Flags in hexadecimal, with and without a leading zero digit. */
  lemma FlagsHexFive()
    ensures Flags("0x" + "05") == Some(5)
  {
    FlagsHex("05");
    HexDigits();
  }

  lemma FlagsDump()
    ensures Flags("0x" + "300") == Some(0x300)
  {
    FlagsHex("300");
    HexDigits();
  }

  lemma RequestAckNames()
    ensures FlagName("NLM_F_REQUEST") && FlagName("NLM_F_ACK")
    ensures NameValue("NLM_F_REQUEST") == 1 && NameValue("NLM_F_ACK") == 4
  {
  }

  /** Two flag names joined by `|` give the or of their values. */
  lemma FlagsRequestAck()
    ensures Flags("NLM_F_REQUEST" + "|" + "NLM_F_ACK") == Some(5)
  {
    RequestAckNames();
    FlagsTwoNames("NLM_F_REQUEST", "NLM_F_ACK");
    assert Or(1, 4) == 5;
  }

  /** Message types in decimal and hexadecimal. */
  lemma TypeDecimal()
    ensures MsgType("31") == 31
  {
    MsgTypeDecimal(31);
    assert Decimal(31) == "31";
  }

  lemma TypeHex()
    ensures MsgType("0x" + "1f") == 31
  {
    MsgTypeHex("1f");
    HexDigits();
  }

  /** The overrun name is 4. */
  lemma TypeOverrun()
    ensures MsgType("NLMSG_OVERRUN") == 4
  {
    TrimClean("NLMSG_OVERRUN", IsSpace);
  }

  /** Any other name is 0. */
  lemma TypeUnknown()
    ensures MsgType("UNKNOWN_TYPE") == 0
  {
    TrimClean("UNKNOWN_TYPE", IsSpace);
    MsgTypeSymbolic("UNKNOWN_TYPE");
  }

  /**
   * The comment types of the test, `0x1f /* NLMSG_??? */` and
   * `31 /* GENERIC_FAMILY_??? */`: a hex message type and a decimal family, both 31.
   */
  lemma TypeComment()
    ensures MsgType("0x1f" + Comment) == 31
    ensures MsgType("31" + FamilyComment) == 31
  {
    TypeHexComment();
    TypeFamilyComment();
  }

  lemma TypeHexComment()
    ensures MsgType("0x1f" + Comment) == 31
  {
    var h := "1f";
    assert AllHex(h) && DigitsValue(h, 16) == 31;
    assert "0x" + h + Comment == "0x1f" + Comment;
    MsgTypeHexComment(h, Comment);
  }

  lemma TypeFamilyComment()
    ensures MsgType("31" + FamilyComment) == 31
  {
    DecimalComment("31", 31, FamilyComment);
  }

  lemma DecimalComment(d: string, n: nat, c: string)
    requires d == Decimal(n) && UnknownComment(c)
    ensures MsgType(d + c) == n
  {
    MsgTypeComment(n, c);
  }

  /** The example of the type parser's own documentation, `0x7 /* NLMSG_??? */`. */
  lemma TypeCommentDocumented()
    ensures MsgType("0x7" + Comment) == 7
  {
    var h := "7";
    assert AllHex(h) && DigitsValue(h, 16) == 7;
    assert "0x" + h + Comment == "0x7" + Comment;
    MsgTypeHexComment(h, Comment);
  }

  // ----- display -----

  /** An empty dictionary displays as `  (empty)`. */
  lemma FormatEmpty()
    ensures Format([], 0) == "  (empty)"
  {
  }

  /** The lines of the entries are the lines of the first entry followed by those of the rest. */
  lemma FlatCons(e: Entry, rest: Dict, indent: nat)
    ensures FlatEntries([e] + rest, indent) == FlatEntries([e], indent) + FlatEntries(rest, indent)
  {
    assert ([e] + rest)[1..] == rest;
    assert [e][1..] == [];
  }

  /** A simple entry is one line. */
  lemma FlatLine(k: string, v: Value, indent: nat)
    requires !v.Nested?
    ensures FlatEntries([Entry(k, v)], indent) == [Indent(indent + 1) + k + ": " + ValueText(v)]
  {
    assert [Entry(k, v)][1..] == [];
  }

  /** A nested entry is its `key:` line, then the lines of its dictionary. */
  lemma FlatGroup(k: string, d: Dict, indent: nat)
    ensures FlatEntries([Entry(k, Nested(d))], indent) == [Indent(indent + 1) + k + ":"] + Flat(d, indent + 1)
  {
    assert [Entry(k, Nested(d))][1..] == [];
  }

  lemma LinkLine()
    ensures Indent(1) + "GTP5G_LINK" + ": " + Decimal(5) == "  GTP5G_LINK: 5"
  {
    assert Indent(1) == "  ";
  }

  lemma FarIdLine()
    ensures Indent(1) + "GTP5G_FAR_ID" + ": " + Decimal(1) == "  GTP5G_FAR_ID: 1"
  {
    assert Indent(1) == "  ";
  }

  /** Simple entries are one `key: value` line each, indented one level. */
  lemma FlatSimple()
    ensures Flat([Entry("GTP5G_LINK", Int(5)), Entry("GTP5G_FAR_ID", Int(1))], 0) ==
            ["  GTP5G_LINK: 5", "  GTP5G_FAR_ID: 1"]
  {
    var e1, e2 := Entry("GTP5G_LINK", Int(5)), Entry("GTP5G_FAR_ID", Int(1));
    assert [e1, e2] == [e1] + [e2];
    FlatCons(e1, [e2], 0);
    FlatLine("GTP5G_LINK", Int(5), 0);
    FlatLine("GTP5G_FAR_ID", Int(1), 0);
    LinkLine();
    FarIdLine();
  }

  lemma PdiLine()
    ensures Indent(1) + "GTP5G_PDR_PDI" + ":" == "  GTP5G_PDR_PDI:"
  {
    assert Indent(1) == "  ";
  }

  lemma SrcIntfLine()
    ensures Indent(2) + "GTP5G_PDI_SRC_INTF" + ": " + Decimal(0) == "    GTP5G_PDI_SRC_INTF: 0"
  {
    var head := Indent(2) + "GTP5G_PDI_SRC_INTF";
    assert head == "    GTP5G_PDI_SRC_INTF" by {
      assert Indent(2) == "    ";
    }
    assert Decimal(0) == "0";
  }

  lemma UeAddrLine()
    ensures Indent(2) + "GTP5G_PDI_UE_ADDR_IPV4" + ": " + "10.60.0.1" == "    GTP5G_PDI_UE_ADDR_IPV4: 10.60.0.1"
  {
    var head := Indent(2) + "GTP5G_PDI_UE_ADDR_IPV4";
    assert head == "    GTP5G_PDI_UE_ADDR_IPV4" by {
      assert Indent(2) == "    ";
    }
  }

  /** A nested dictionary is a `key:` line followed by its own lines, one level deeper. */
  lemma FlatNested()
    ensures Flat([Entry("GTP5G_PDR_PDI", Nested([Entry("GTP5G_PDI_SRC_INTF", Int(0)), Entry("GTP5G_PDI_UE_ADDR_IPV4", Str("10.60.0.1"))]))], 0) ==
            ["  GTP5G_PDR_PDI:", "    GTP5G_PDI_SRC_INTF: 0", "    GTP5G_PDI_UE_ADDR_IPV4: 10.60.0.1"]
  {
    var e1, e2 := Entry("GTP5G_PDI_SRC_INTF", Int(0)), Entry("GTP5G_PDI_UE_ADDR_IPV4", Str("10.60.0.1"));
    assert [e1, e2] == [e1] + [e2];
    FlatCons(e1, [e2], 1);
    FlatLine("GTP5G_PDI_SRC_INTF", Int(0), 1);
    FlatLine("GTP5G_PDI_UE_ADDR_IPV4", Str("10.60.0.1"), 1);
    FlatGroup("GTP5G_PDR_PDI", [e1, e2], 0);
    PdiLine();
    SrcIntfLine();
    UeAddrLine();
  }
}
