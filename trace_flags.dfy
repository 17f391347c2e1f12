/**
 * The two small parsers of the trace decoder that read the netlink header
 * fields strace prints: the flags (a number, or names and numbers joined by
 * `|`) and the message type (a name, a number, or a number followed by an
 * strace comment).  Python integers are unbounded, so flags are naturals
 * and `|` is bitwise or on naturals.
 */
module TraceFlags {
  import opened Wire
  import opened Text
  import opened Bits

  /** `NLM_FLAGS`: the flag names strace prints and their values. */
  const NlmFlagValues: map<string, nat> := map[
      "NLM_F_REQUEST" := 0x01,
      "NLM_F_MULTI" := 0x02,
      "NLM_F_ACK" := 0x04,
      "NLM_F_ECHO" := 0x08,
      "NLM_F_DUMP_INTR" := 0x10,
      "NLM_F_DUMP_FILTERED" := 0x20,
      "NLM_F_ROOT" := 0x100,
      "NLM_F_MATCH" := 0x200,
      "NLM_F_ATOMIC" := 0x400,
      "NLM_F_DUMP" := 0x300,
      "NLM_F_REPLACE" := 0x100,
      "NLM_F_EXCL" := 0x200,
      "NLM_F_CREATE" := 0x400,
      "NLM_F_APPEND" := 0x800
    ]

  /**
   * The hex digits after `0x` with their single separating underscores
   * removed, or None when the text is not digits with at most one
   * underscore before each of them.
   */
  function Grouped(t: string): (r: Option<string>)
    ensures r.Some? ==> AllHex(r.value) && |r.value| <= |t|
    ensures r.Some? && |t| > 0 ==> |r.value| > 0
    decreases |t|
  {
    if |t| == 0 then Some("")
    else if t[0] == '_' then
      if |t| >= 2 && IsHexDigit(t[1]) then
        match Grouped(t[2..])
        case None => None
        case Some(ds) => Some([t[1]] + ds)
      else None
    else if IsHexDigit(t[0]) then
      match Grouped(t[1..])
      case None => None
      case Some(ds) => Some([t[0]] + ds)
    else None
  }

  /** Hex digits without underscores are taken as they are. */
  lemma {:induction false} GroupedPlain(t: string)
    requires AllHex(t)
    ensures Grouped(t) == Some(t)
  {
    if |t| > 0 {
      assert AllHex(t[1..]);
      GroupedPlain(t[1..]);
      assert [t[0]] + t[1..] == t;
    }
  }

  /** `int(s, 16)` for text starting with `0x`: None is the `ValueError` it raises. */
  function HexInt(s: string): Option<nat>
    requires StartsWith(s, "0x")
  {
    if |s| == 2 then None
    else
      match Grouped(s[2..])
      case None => None
      case Some(ds) => Some(DigitsValue(ds, 16))
  }

  /** The value one stripped `|` part contributes: unknown names count as 0. */
  function PartValue(part: string): Option<nat>
  {
    if part in NlmFlagValues then Some(NlmFlagValues[part])
    else if AllDigits(part) then Some(DigitsValue(part, 10))
    else if StartsWith(part, "0x") then HexInt(part)
    else Some(0)
  }

  /** The values of the stripped parts, in order. */
  function Values(parts: seq<string>): seq<Option<nat>>
  {
    seq(|parts|, i requires 0 <= i < |parts| => PartValue(Strip(parts[i])))
  }

  /** `total |= v` over the values in order: None as soon as one of them raised. */
  function OrAll(vs: seq<Option<nat>>): Option<nat>
  {
    if |vs| == 0 then Some(0)
    else
      match OrAll(vs[..|vs| - 1])
      case None => None
      case Some(t) =>
        match vs[|vs| - 1]
        case None => None
        case Some(v) => Some(Or(t, v))
  }

  /** `parse_nlm_flags(s)`; None is the `ValueError` of a malformed `0x` number. */
  function Flags(s: string): Option<nat>
  {
    FlagsOf(Strip(s))
  }

  /** `parse_nlm_flags` once the text is stripped. */
  function FlagsOf(t: string): Option<nat>
  {
    if AllDigits(t) then Some(DigitsValue(t, 10))
    else if StartsWith(t, "0x") then HexInt(t)
    else OrAll(Values(Split(t, '|')))
  }

  /** Once a value has raised, the whole parse raises. */
  lemma {:induction false} OrAllRaises(vs: seq<Option<nat>>, i: nat)
    requires i <= |vs| && OrAll(vs[..i]).None?
    ensures OrAll(vs).None?
    decreases |vs| - i
  {
    if i < |vs| {
      assert vs[..i + 1][..i] == vs[..i];
      OrAllRaises(vs, i + 1);
    } else {
      assert vs[..i] == vs;
    }
  }

  /** `parse_nlm_flags`: a decimal, a `0x` number, or else the or of the `|`-separated parts. */
  method ParseNlmFlags(flagsStr: string) returns (r: Option<nat>)
    ensures r == Flags(flagsStr)
  {
    var s := Strip(flagsStr);
    if AllDigits(s) {
      return Some(DigitsValue(s, 10));
    }
    if StartsWith(s, "0x") {
      return HexInt(s);
    }
    r := OrParts(Split(s, '|'));
  }

  /** The `for part in flags_str.split('|')` loop: the or of the parts' values, or `ValueError`. */
  method OrParts(parts: seq<string>) returns (r: Option<nat>)
    ensures r == OrAll(Values(parts))
  {
    ghost var vs := Values(parts);
    var total := 0;
    var i := 0;
    while i < |parts|
      invariant i <= |parts| == |vs|
      invariant OrAll(vs[..i]) == Some(total)
    {
      var part := Strip(parts[i]);
      var v := PartValue(part);
      assert vs[i] == v;
      assert vs[..i + 1][..i] == vs[..i];
      if v.None? {
        OrAllRaises(vs, i + 1);
        return None;
      }
      total := Or(total, v.value);
      i := i + 1;
    }
    assert vs[..i] == vs;
    return Some(total);
  }

  /** The parse succeeds exactly when no value raised. */
  lemma {:induction false} OrAllSome(vs: seq<Option<nat>>)
    ensures OrAll(vs).Some? <==> forall i :: 0 <= i < |vs| ==> vs[i].Some?
  {
    if |vs| > 0 {
      var init := vs[..|vs| - 1];
      OrAllSome(init);
      assert forall i :: 0 <= i < |init| ==> init[i] == vs[i];
    }
  }

  /** A bit of the result is set exactly when it is set in one of the values. */
  lemma {:induction false} OrAllBits(vs: seq<Option<nat>>, k: nat)
    requires OrAll(vs).Some?
    ensures forall i :: 0 <= i < |vs| ==> vs[i].Some?
    ensures Bit(OrAll(vs).value, k) <==> exists i :: 0 <= i < |vs| && vs[i].Some? && Bit(vs[i].value, k)
  {
    OrAllSome(vs);
    if |vs| == 0 {
      ZeroBits(k);
    } else {
      var n := |vs| - 1;
      var init := vs[..n];
      OrAllBits(init, k);
      assert forall i :: 0 <= i < |init| ==> init[i] == vs[i];
      OrBit(OrAll(init).value, vs[n].value, k);
    }
  }

  /**
   * Symbolic flags: the parse raises exactly when a part does, and a bit of
   * the result is set exactly when some part's value has it.
   */
  lemma SymbolicFlags(t: string, k: nat)
    requires !AllDigits(t) && !StartsWith(t, "0x")
    ensures FlagsOf(t).Some? <==> forall p <- Split(t, '|') :: PartValue(Strip(p)).Some?
    ensures FlagsOf(t).Some? ==>
              (Bit(FlagsOf(t).value, k) <==> exists p <- Split(t, '|') :: Bit(PartValue(Strip(p)).value, k))
  {
    var parts := Split(t, '|');
    var vs := Values(parts);
    assert |vs| == |parts| && forall i :: 0 <= i < |parts| ==> vs[i] == PartValue(Strip(parts[i]));
    assert FlagsOf(t) == OrAll(vs);
    assert OrAll(vs).Some? <==> forall p <- parts :: PartValue(Strip(p)).Some? by {
      OrAllSome(vs);
      assert forall p <- parts :: exists i :: 0 <= i < |parts| && p == parts[i];
    }
    if OrAll(vs).Some? {
      assert Bit(OrAll(vs).value, k) <==> exists p <- parts :: Bit(PartValue(Strip(p)).value, k) by {
        OrAllBits(vs, k);
        if Bit(OrAll(vs).value, k) {
          var i :| 0 <= i < |vs| && vs[i].Some? && Bit(vs[i].value, k);
          assert parts[i] in parts;
        } else {
          forall p <- parts
            ensures !Bit(PartValue(Strip(p)).value, k)
          {
            var i :| 0 <= i < |parts| && p == parts[i];
          }
        }
      }
    }
  }

  /** A name as strace prints it: upper-case letters and underscores. */
  predicate FlagName(n: string)
  {
    |n| > 0 && forall i :: 0 <= i < |n| ==> 'A' <= n[i] <= 'Z' || n[i] == '_'
  }

  /** What a name adds to the flags: its value when the table knows it, else nothing. */
  function NameValue(n: string): nat
  {
    if n in NlmFlagValues then NlmFlagValues[n] else 0
  }

  lemma NamePart(n: string)
    requires FlagName(n)
    ensures PartValue(Strip(n)) == Some(NameValue(n))
  {
    TrimClean(n, IsSpace);
    assert !AllDigits(n) && !StartsWith(n, "0x") by {
      assert !IsDigit(n[0]);
    }
  }

  /** Two names joined by `|` are neither a number nor padded, and split back into the two names. */
  lemma TwoNamesText(a: string, b: string)
    requires FlagName(a) && FlagName(b)
    ensures var t := a + "|" + b;
            Strip(t) == t && !AllDigits(t) && !StartsWith(t, "0x") && Split(t, '|') == [a, b]
  {
    var t := a + "|" + b;
    assert t[0] == a[0] && t[|t| - 1] == b[|b| - 1];
    assert Strip(t) == t by {
      TrimClean(t, IsSpace);
    }
    assert !AllDigits(t) && !StartsWith(t, "0x") by {
      assert !IsDigit(t[0]);
    }
    assert Split(t, '|') == [a, b] by {
      assert '|' !in a && '|' !in b;
      assert t == a + ['|'] + b;
      SplitFirst(a, '|', b);
      SplitNone(b, '|');
    }
  }

  /** `parse_nlm_flags("A|B")` for two names is the or of their values; a name the table does not know adds nothing. */
  lemma FlagsTwoNames(a: string, b: string)
    requires FlagName(a) && FlagName(b)
    ensures Flags(a + "|" + b) == Some(Or(NameValue(a), NameValue(b)))
  {
    var t := a + "|" + b;
    TwoNamesText(a, b);
    var vs: seq<Option<nat>> := Values([a, b]);
    assert vs == [Some(NameValue(a)), Some(NameValue(b))] by {
      NamePart(a);
      NamePart(b);
    }
    assert FlagsOf(t) == OrAll(vs);
    var first: seq<Option<nat>> := vs[..1];
    assert |first[..0]| == 0;
    assert OrAll(first) == Some(NameValue(a));
  }

  lemma StripHex(h: string)
    requires |h| > 0 && AllHex(h)
    ensures Strip("0x" + h) == "0x" + h
  {
    var s := "0x" + h;
    assert s[|s| - 1] == h[|h| - 1];
    TrimClean(s, IsSpace);
  }

  lemma StripDigits(s: string)
    requires forall k :: 0 <= k < |s| ==> IsHexDigit(s[k]) || s[k] == 'x'
    ensures Strip(s) == s
  {
    TrimClean(s, IsSpace);
  }

  /** `parse_nlm_flags(str(n)) == n`. */
  lemma FlagsDecimal(n: nat)
    ensures Flags(Decimal(n)) == Some(n)
  {
    StripDigits(Decimal(n));
    DecimalRoundTrip(n);
    assert FlagsOf(Decimal(n)) == Some(n);
  }

  /** `parse_nlm_flags("0x" + h)` for hex digits `h` is their value. */
  lemma FlagsHex(h: string)
    requires |h| > 0 && AllHex(h)
    ensures Flags("0x" + h) == Some(DigitsValue(h, 16))
  {
    var s := "0x" + h;
    StripHex(h);
    HexFlags(h);
  }

  lemma HexFlags(h: string)
    requires |h| > 0 && AllHex(h)
    ensures FlagsOf("0x" + h) == Some(DigitsValue(h, 16))
  {
    var s := "0x" + h;
    assert !AllDigits(s) by {
      assert s[1] == 'x';
    }
    assert StartsWith(s, "0x") by {
      assert s[..2] == "0x";
    }
    assert s[2..] == h;
    GroupedPlain(h);
    assert HexInt(s) == Some(DigitsValue(h, 16));
  }

  /** `parse_nlm_flags("0x" + d.hex())` is the bytes read most significant first. */
  lemma FlagsBytes(d: seq<byte>)
    requires |d| > 0
    ensures Flags("0x" + Hex(d)) == Some(BigEndian(d))
  {
    FlagsHex(Hex(d));
    HexValue(d);
  }

  /** What `re.match(r'(0x[0-9a-fA-F]+|\d+)', t)` finds at the start of `t`, as a number. */
  function LeadingNumber(t: string): Option<nat>
  {
    if StartsWith(t, "0x") && Leading(t[2..], IsHexDigit) > 0 then
      var n := Leading(t[2..], IsHexDigit);
      assert AllHex(t[2..][..n]);
      Some(DigitsValue(t[2..][..n], 16))
    else if Leading(t, IsDigit) > 0 then
      var n := Leading(t, IsDigit);
      assert AllHex(t[..n]);
      Some(DigitsValue(t[..n], 10))
    else None
  }

  /** `parse_nlmsg_type(s)`. */
  function MsgType(s: string): nat
  {
    MsgTypeOf(Strip(s))
  }

  /** `parse_nlmsg_type` once the text is stripped. */
  function MsgTypeOf(t: string): nat
  {
    if t == "NLMSG_OVERRUN" then 4
    else if (Contains(t, "NLMSG_???") || Contains(t, "GENERIC_FAMILY_???")) && LeadingNumber(t).Some? then
      LeadingNumber(t).value
    else if StartsWith(t, "0x") && Leading(t[2..], IsHexDigit) > 0 then
      var n := Leading(t[2..], IsHexDigit);
      assert AllHex(t[2..][..n]);
      DigitsValue(t[2..][..n], 16)
    else if AllDigits(t) then DigitsValue(t, 10)
    else 0
  }

  /** A type that is neither the overrun name nor starts with a digit is 0. */
  lemma MsgTypeSymbolic(s: string)
    requires Strip(s) != "NLMSG_OVERRUN"
    requires |Strip(s)| > 0 && !IsDigit(Strip(s)[0])
    ensures MsgType(s) == 0
  {
    var t := Strip(s);
    assert LeadingNumber(t).None?;
    assert !StartsWith(t, "0x");
  }

  /** The leading number of a decimal text followed by something that does not continue it. */
  lemma LeadingDecimal(n: nat, rest: string)
    requires |rest| > 0 ==> !IsDigit(rest[0]) && rest[0] != 'x'
    ensures LeadingNumber(Decimal(n) + rest) == Some(n)
  {
    var s := Decimal(n) + rest;
    assert !StartsWith(s, "0x") by {
      if |Decimal(n)| >= 2 {
        assert s[1] == Decimal(n)[1];
      } else if |s| >= 2 {
        assert s[1] == rest[0];
      }
    }
    LeadingPrefix(Decimal(n), rest, IsDigit);
    assert s[..|Decimal(n)|] == Decimal(n);
    DecimalRoundTrip(n);
  }

  /** `parse_nlmsg_type(str(n)) == n`. */
  lemma MsgTypeDecimal(n: nat)
    ensures MsgType(Decimal(n)) == n
  {
    var s := Decimal(n);
    StripDigits(s);
    MissingChar(s, "NLMSG_???", 0);
    MissingChar(s, "GENERIC_FAMILY_???", 0);
    assert s != "NLMSG_OVERRUN";
    assert !StartsWith(s, "0x") by {
      if |s| >= 2 {
        assert s[1] != 'x';
      }
    }
    DecimalRoundTrip(n);
    assert MsgTypeOf(s) == n;
  }

  /** `parse_nlmsg_type("0x" + h)` for hex digits `h` is their value. */
  lemma MsgTypeHex(h: string)
    requires |h| > 0 && AllHex(h)
    ensures MsgType("0x" + h) == DigitsValue(h, 16)
  {
    var s := "0x" + h;
    StripHex(h);
    HexMsgType(h);
  }

  lemma HexMsgType(h: string)
    requires |h| > 0 && AllHex(h)
    ensures MsgTypeOf("0x" + h) == DigitsValue(h, 16)
  {
    var s := "0x" + h;
    assert s != "NLMSG_OVERRUN" by {
      assert s[0] == '0';
    }
    forall k | 0 <= k < |s|
      ensures s[k] != 'N' && s[k] != 'G'
    {
      if k >= 2 {
        assert s[k] == h[k - 2];
      }
    }
    MissingChar(s, "NLMSG_???", 0);
    MissingChar(s, "GENERIC_FAMILY_???", 0);
    assert StartsWith(s, "0x") by {
      assert s[..2] == "0x";
    }
    assert s[2..] == h;
    LeadingPrefix(h, "", IsHexDigit);
    assert h + "" == h;
    assert h[..|h|] == h;
  }

  /** `parse_nlmsg_type("0x" + d.hex())` is the bytes read most significant first. */
  lemma MsgTypeBytes(d: seq<byte>)
    requires |d| > 0
    ensures MsgType("0x" + Hex(d)) == BigEndian(d)
  {
    MsgTypeHex(Hex(d));
    HexValue(d);
  }

  /** strace's comment after a message type it has no name for. */
  const Comment := " /* NLMSG_??? */"

  /** strace's comment after a generic netlink family it has no name for. */
  const FamilyComment := " /* GENERIC_FAMILY_??? */"

  /**
   * The comment rule: a type that mentions an unknown message or family is
   * the number found at its start, and 0 when there is none.
   */
  lemma CommentRule(t: string)
    requires t != "NLMSG_OVERRUN"
    requires Contains(t, "NLMSG_???") || Contains(t, "GENERIC_FAMILY_???")
    ensures LeadingNumber(t).Some? ==> MsgTypeOf(t) == LeadingNumber(t).value
    ensures LeadingNumber(t).None? ==> MsgTypeOf(t) == 0
  {
  }

  /** The leading number of `0x` and hex digits followed by something that does not continue them. */
  lemma LeadingHex(h: string, rest: string)
    requires |h| > 0 && AllHex(h)
    requires |rest| > 0 ==> !IsHexDigit(rest[0])
    ensures LeadingNumber("0x" + h + rest) == Some(DigitsValue(h, 16))
  {
    var s := "0x" + h + rest;
    HexPrefix(h, rest);
    assert s[2..][..|h|] == h;
  }

  lemma HexPrefix(h: string, rest: string)
    requires AllHex(h)
    requires |rest| > 0 ==> !IsHexDigit(rest[0])
    ensures StartsWith("0x" + h + rest, "0x")
    ensures ("0x" + h + rest)[2..] == h + rest
    ensures Leading(h + rest, IsHexDigit) == |h|
    ensures (h + rest)[..|h|] == h
  {
    var s := "0x" + h + rest;
    assert s[..2] == "0x";
    assert s[2..] == h + rest;
    LeadingPrefix(h, rest, IsHexDigit);
  }

  /** One of strace's two unknown-value comments. */
  predicate UnknownComment(c: string)
  {
    c == Comment || c == FamilyComment
  }

  /** A number text followed by an unknown-value comment is already stripped and falls under the comment rule. */
  lemma CommentShape(p: string, c: string)
    requires UnknownComment(c)
    requires |p| > 0 && !IsSpace(p[0])
    ensures Strip(p + c) == p + c
    ensures p + c != "NLMSG_OVERRUN"
    ensures Contains(p + c, "NLMSG_???") || Contains(p + c, "GENERIC_FAMILY_???")
  {
    var s := p + c;
    assert s[|s| - 1] == '/';
    assert s[0] == p[0];
    TrimClean(s, IsSpace);
    if c == Comment {
      CommentMarker(p, Comment, "NLMSG_???");
    } else {
      CommentMarker(p, FamilyComment, "GENERIC_FAMILY_???");
    }
  }

  /** The marker that starts at the fifth character of a comment occurs in any text ending in it. */
  lemma CommentMarker(p: string, c: string, m: string)
    requires 4 + |m| <= |c| && c[4..4 + |m|] == m
    ensures Contains(p + c, m)
  {
    var s := p + c;
    var j := |p| + 4;
    assert s[j..j + |m|] == c[4..4 + |m|];
    assert OccursAt(s, m, j);
  }

  /** A stripped text under the comment rule that starts with a number is read as that number. */
  lemma CommentNumber(s: string, v: nat)
    requires Strip(s) == s && s != "NLMSG_OVERRUN"
    requires Contains(s, "NLMSG_???") || Contains(s, "GENERIC_FAMILY_???")
    requires LeadingNumber(s) == Some(v)
    ensures MsgType(s) == v
  {
    CommentRule(s);
  }

  /** A decimal followed by an unknown-value comment is read as that decimal. */
  lemma MsgTypeComment(n: nat, c: string)
    requires UnknownComment(c)
    ensures MsgType(Decimal(n) + c) == n
  {
    var s := Decimal(n) + c;
    CommentShape(Decimal(n), c);
    LeadingDecimal(n, c);
    CommentNumber(s, n);
  }

  /** `0x` and hex digits followed by an unknown-value comment is read as their value. */
  lemma MsgTypeHexComment(h: string, c: string)
    requires |h| > 0 && AllHex(h)
    requires UnknownComment(c)
    ensures MsgType("0x" + h + c) == DigitsValue(h, 16)
  {
    var p := "0x" + h;
    var s := p + c;
    assert s == "0x" + h + c;
    CommentShape(p, c);
    LeadingHex(h, c);
    CommentNumber(s, DigitsValue(h, 16));
  }
}
