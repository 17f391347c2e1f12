/**
 * Generic netlink requests and the handling of their responses, shared by
 * every rule type.  A request is a value: its flags, its command and the
 * ordered attributes appended after the generic netlink header.  The
 * connection (`Client.Do`) is a function from a request to either an error
 * or the list of response messages.
 */
module Rpc {
  import opened Wire
  import opened Oid

  datatype Flag = Excl | Ack | Replace | Dump

  /** The gtp5g commands the library sends. */
  datatype Cmd =
    | AddPdr | DelPdr | GetPdr
    | AddFar | DelFar | GetFar
    | AddQer | DelQer | GetQer
    | AddUrr | DelUrr | GetUrr
    | AddBar | DelBar | GetBar
    | GetReport | GetVersion

  /** LINK is common to every rule type; the others are the rule type's own attribute numbers. */
  datatype AttrType = Link | Tag(n: nat)

  datatype Value = U8(b: byte) | U16(h: u16) | U32(w: u32) | U64(d: u64) | Raw(bytes: seq<byte>)

  datatype NlAttr = NlAttr(typ: AttrType, value: Value)

  datatype Request = Request(flags: set<Flag>, cmd: Cmd, attrs: seq<NlAttr>)

  /** One response message's body, generic netlink header included. */
  type Msg = seq<byte>

  type Transport = Request -> Result<seq<Msg>>

  /** `genl.SizeofHeader`. */
  const GenlHeaderLen: nat := 4

  // ----- keyed requests -----

  /** The width `nl.AttrU8/U16/U32` gives an object id. */
  datatype Width = W8 | W16 | W32

  /** How a rule type names an object: the id attribute, its width, and the SEID attribute. */
  datatype Key = Key(idType: nat, width: Width, seidType: nat)

  /** `nl.AttrUw(id)`: Go's conversion keeps the low bits of the `int`. */
  function IdValue(w: Width, id: i64): (v: Value)
    ensures w == W8 ==> v.U8? && (v.b - id) % 0x100 == 0 && (0 <= id < 0x100 ==> v.b == id)
    ensures w == W16 ==> v.U16? && (v.h - id) % 0x1_0000 == 0 && (0 <= id < 0x1_0000 ==> v.h == id)
    ensures w == W32 ==> v.U32? && (v.w - id) % 0x1_0000_0000 == 0 && (0 <= id < 0x1_0000_0000 ==> v.w == id)
  {
    match w
    case W8 => U8(AsU8(id))
    case W16 => U16(AsU16(id))
    case W32 => U32(AsU32(id))
  }

  function LinkAttr(link: int): NlAttr
  {
    NlAttr(Link, U32(AsU32(link)))
  }

  /** LINK, the object id, and the SEID attribute exactly when the OID has one. */
  function KeyAttrs(key: Key, link: int, oid: OID): seq<NlAttr>
  {
    var idAttr := NlAttr(Tag(key.idType), IdValue(key.width, ID(oid).0));
    var seidAttrs := if SEID(oid).1 then [NlAttr(Tag(key.seidType), U64(SEID(oid).0))] else [];
    [LinkAttr(link), idAttr] + seidAttrs
  }

  /** The request of a call on one object, or nothing when the OID names none. */
  function Prepared(flags: set<Flag>, cmd: Cmd, key: Key, link: int, oid: OID, extra: seq<NlAttr>): Option<Request>
  {
    if ID(oid).1 then Some(Request(flags, cmd, KeyAttrs(key, link, oid) + extra)) else None
  }

  /**
   * The shared prologue of every Create/Update/Remove/Get call: the header,
   * the id check (an empty OID is rejected before anything is sent), then the
   * attributes appended in the order the calls append them.
   */
  method NewKeyedRequest(flags: set<Flag>, cmd: Cmd, key: Key, link: int, oid: OID, extra: seq<NlAttr>)
    returns (req: Option<Request>)
    ensures req == Prepared(flags, cmd, key, link, oid, extra)
  {
    var (id, ok) := ID(oid);
    if !ok {
      return None;
    }
    var attrs := [LinkAttr(link), NlAttr(Tag(key.idType), IdValue(key.width, id))];
    var (seid, hasSeid) := SEID(oid);
    if hasSeid {
      attrs := attrs + [NlAttr(Tag(key.seidType), U64(seid))];
    }
    assert attrs == KeyAttrs(key, link, oid);
    attrs := attrs + extra;
    return Some(Request(flags, cmd, attrs));
  }

  /**
   * A prepared request exists exactly for a non-empty OID; it carries the
   * flags and command given, starts with LINK and the id attribute holding
   * `ID(oid)`, has the SEID attribute third exactly when the OID has two or
   * more words, and ends with the caller's attributes unchanged.
   */
  lemma PreparedShape(flags: set<Flag>, cmd: Cmd, key: Key, link: int, oid: OID, extra: seq<NlAttr>)
    ensures Prepared(flags, cmd, key, link, oid, extra).Some? <==> |oid| >= 1
    ensures Prepared(flags, cmd, key, link, oid, extra).Some? ==>
              var r := Prepared(flags, cmd, key, link, oid, extra).value;
              var s := if |oid| >= 2 then 1 else 0;
              r.flags == flags && r.cmd == cmd &&
              |r.attrs| == 2 + s + |extra| &&
              r.attrs[0] == NlAttr(Link, U32(link % 0x1_0000_0000)) &&
              r.attrs[1] == NlAttr(Tag(key.idType), IdValue(key.width, ID(oid).0)) &&
              (|oid| >= 2 ==> r.attrs[2] == NlAttr(Tag(key.seidType), U64(oid[0]))) &&
              r.attrs[2 + s..] == extra
  {
  }

  /**
   * Among the attributes the call itself adds, one has the SEID type
   * exactly when the OID has at least two words, and then it holds the
   * first word.
   */
  lemma SeidAttrIff(key: Key, link: int, oid: OID)
    requires key.idType != key.seidType && |oid| >= 1
    ensures (exists a <- KeyAttrs(key, link, oid) :: a.typ == Tag(key.seidType)) <==> |oid| >= 2
    ensures forall a <- KeyAttrs(key, link, oid) :: a.typ == Tag(key.seidType) ==> a.value == U64(oid[0])
  {
    if |oid| >= 2 {
      assert KeyAttrs(key, link, oid)[2].typ == Tag(key.seidType);
    }
  }

  /**
   * The legacy wrappers call with `OID{uint64(id)}`: the request then holds
   * LINK, the id cut to the width, and the caller's attributes, and never a
   * SEID.
   */
  lemma LegacyPrepared(flags: set<Flag>, cmd: Cmd, key: Key, link: int, id: i64, extra: seq<NlAttr>)
    ensures Prepared(flags, cmd, key, link, [ToU64(id)], extra) ==
              Some(Request(flags, cmd, [LinkAttr(link), NlAttr(Tag(key.idType), IdValue(key.width, id))] + extra))
  {
    LegacyOid(id);
    var pair := [LinkAttr(link), NlAttr(Tag(key.idType), IdValue(key.width, id))];
    assert KeyAttrs(key, link, [ToU64(id)]) == pair + [];
    assert pair + [] == pair;
  }

  /** The number of values an id attribute of width `w` can hold. */
  function Modulus(w: Width): nat
  {
    match w
    case W8 => 0x100
    case W16 => 0x1_0000
    case W32 => 0x1_0000_0000
  }

  /** Ids that differ by a multiple of the width's modulus cannot be told apart in the id attribute. */
  lemma IdWraps(w: Width, a: i64, b: i64)
    requires (a - b) % Modulus(w) == 0
    ensures IdValue(w, a) == IdValue(w, b)
  {
    match w
    case W8 => assert a % 0x100 == b % 0x100;
    case W16 => assert a % 0x1_0000 == b % 0x1_0000;
    case W32 => assert a % 0x1_0000_0000 == b % 0x1_0000_0000;
  }

  // ----- responses -----

  /** `rsp.Body[genl.SizeofHeader:]`: slicing past a shorter body is a run-time fault. */
  function Body(m: Msg): (r: Result<seq<byte>>)
    ensures r.Ok? <==> |m| >= GenlHeaderLen
    ensures r.Ok? ==> m == m[..GenlHeaderLen] + r.value
  {
    if |m| < GenlHeaderLen then Err(OutOfRange) else Ok(m[GenlHeaderLen..])
  }

  /** What Create/Update/Remove return: the error of the call, if any; the responses are dropped. */
  function Acked(sent: Option<Request>, transport: Transport): Result<()>
  {
    if sent.None? then Err(InvalidOid)
    else
      var _ :- transport(sent.value);
      Ok(())
  }

  /** `c.Do(req)` with the responses dropped: the tail of every Create/Update/Remove. */
  method Call(sent: Option<Request>, transport: Transport) returns (r: Result<()>)
    ensures r == Acked(sent, transport)
  {
    if sent.None? {
      return Err(InvalidOid);
    }
    var rsps := transport(sent.value);
    if rsps.Err? {
      return Err(rsps.error);
    }
    return Ok(());
  }

  /** A call on an empty OID fails before sending; otherwise the transport's error comes back unchanged. */
  lemma AckedCases(sent: Option<Request>, transport: Transport)
    ensures sent.None? ==> Acked(sent, transport) == Err(InvalidOid)
    ensures sent.Some? ==> (Acked(sent, transport).Ok? <==> transport(sent.value).Ok?)
    ensures sent.Some? && transport(sent.value).Err? ==> Acked(sent, transport) == Err(transport(sent.value).error)
  {
  }

  /** What a Get returns: the first response decoded; no response at all is the error `missing`. */
  function FirstDecoded<T>(sent: Option<Request>, transport: Transport, decode: seq<byte> -> Result<T>, missing: Error): Result<T>
  {
    if sent.None? then Err(InvalidOid)
    else
      var msgs :- transport(sent.value);
      if |msgs| == 0 then Err(missing)
      else
        var body :- Body(msgs[0]);
        decode(body)
  }

  /** As `FirstDecoded`, except that no response at all is success with nothing decoded (`nil, nil`). */
  function FirstDecodedOrNone<T>(sent: Option<Request>, transport: Transport, decode: seq<byte> -> Result<T>): Result<Option<T>>
  {
    if sent.None? then Err(InvalidOid)
    else
      var msgs :- transport(sent.value);
      if |msgs| == 0 then Ok(None)
      else
        var body :- Body(msgs[0]);
        var x :- decode(body);
        Ok(Some(x))
  }

  /** The two differ only where there is no response: `nil, nil` for one, an error for the other. */
  lemma OrNoneAgrees<T>(sent: Option<Request>, transport: Transport, decode: seq<byte> -> Result<T>, missing: Error)
    requires sent.Some? && transport(sent.value).Ok? && |transport(sent.value).value| > 0
    ensures FirstDecodedOrNone(sent, transport, decode).Ok? <==> FirstDecoded(sent, transport, decode, missing).Ok?
    ensures FirstDecodedOrNone(sent, transport, decode).Ok? ==>
              FirstDecodedOrNone(sent, transport, decode).value == Some(FirstDecoded(sent, transport, decode, missing).value)
  {
  }

  /**
   * The three outcomes of a Get: the transport's error unchanged, `missing`
   * for no response, or the first response's body decoded, whatever follows
   * it.
   */
  lemma FirstDecodedCases<T>(req: Request, transport: Transport, decode: seq<byte> -> Result<T>, missing: Error)
    ensures transport(req).Err? ==> FirstDecoded(Some(req), transport, decode, missing) == Err(transport(req).error)
    ensures transport(req) == Ok([]) ==> FirstDecoded(Some(req), transport, decode, missing) == Err(missing)
    ensures forall m: Msg, more: seq<Msg> :: transport(req) == Ok([m] + more) && |m| >= GenlHeaderLen ==>
              FirstDecoded(Some(req), transport, decode, missing) == decode(m[GenlHeaderLen..])
  {
  }

  /** Two connections that answer the same first message give the same Get result. */
  lemma OnlyFirstCounts<T>(req: Request, t1: Transport, t2: Transport, decode: seq<byte> -> Result<T>, missing: Error)
    requires t1(req).Ok? && t2(req).Ok? && |t1(req).value| > 0 && |t2(req).value| > 0
    requires t1(req).value[0] == t2(req).value[0]
    ensures FirstDecoded(Some(req), t1, decode, missing) == FirstDecoded(Some(req), t2, decode, missing)
  {
  }

  /** A dump decodes every message, in order, and fails with the first failure. */
  function DecodeEach<T>(msgs: seq<Msg>, decode: seq<byte> -> Result<T>): Result<seq<T>>
  {
    if |msgs| == 0 then Ok([])
    else
      var body :- Body(msgs[0]);
      var x :- decode(body);
      var rest :- DecodeEach(msgs[1..], decode);
      Ok([x] + rest)
  }

  /** `acc` in front of a successful result; a failure as it is. */
  function Prefixed<T>(acc: seq<T>, r: Result<seq<T>>): Result<seq<T>>
  {
    if r.Ok? then Ok(acc + r.value) else r
  }

  lemma PrefixedEmpty<T>(r: Result<seq<T>>)
    ensures Prefixed([], r) == r
    ensures r.Ok? ==> Prefixed(r.value, Ok([])) == r
  {
    if r.Ok? {
      assert [] + r.value == r.value;
      assert r.value + [] == r.value;
    }
  }

  /** The loop invariant of a dump: what is decoded so far in front of the rest decoded. */
  lemma DecodeEachStep<T>(acc: seq<T>, msgs: seq<Msg>, decode: seq<byte> -> Result<T>)
    requires |msgs| > 0 && Body(msgs[0]).Ok? && decode(Body(msgs[0]).value).Ok?
    ensures Prefixed(acc, DecodeEach(msgs, decode)) ==
              Prefixed(acc + [decode(Body(msgs[0]).value).value], DecodeEach(msgs[1..], decode))
  {
    var x := decode(Body(msgs[0]).value).value;
    if DecodeEach(msgs[1..], decode).Ok? {
      assert acc + ([x] + DecodeEach(msgs[1..], decode).value) == acc + [x] + DecodeEach(msgs[1..], decode).value;
    }
  }

  /**
   * All or nothing, in order: a dump succeeds exactly when every message
   * has a body that decodes, and then it holds exactly one value per
   * message, the i-th decoded from the i-th message.
   */
  lemma {:induction false} DecodeEachAllOrNothing<T>(msgs: seq<Msg>, decode: seq<byte> -> Result<T>)
    ensures DecodeEach(msgs, decode).Ok? <==>
              forall i :: 0 <= i < |msgs| ==> Body(msgs[i]).Ok? && decode(Body(msgs[i]).value).Ok?
    ensures DecodeEach(msgs, decode).Ok? ==>
              |DecodeEach(msgs, decode).value| == |msgs| &&
              forall i :: 0 <= i < |msgs| ==> DecodeEach(msgs, decode).value[i] == decode(Body(msgs[i]).value).value
  {
    if |msgs| > 0 {
      DecodeEachAllOrNothing(msgs[1..], decode);
      assert forall i :: 1 <= i < |msgs| ==> msgs[i] == msgs[1..][i - 1];
    }
  }

  /** A failing dump fails with the error of the first message that does not decode. */
  lemma {:induction false} DecodeEachFirstError<T>(msgs: seq<Msg>, decode: seq<byte> -> Result<T>, k: nat)
    requires k < |msgs| && (Body(msgs[k]).Err? || decode(Body(msgs[k]).value).Err?)
    requires forall i :: 0 <= i < k ==> Body(msgs[i]).Ok? && decode(Body(msgs[i]).value).Ok?
    ensures DecodeEach(msgs, decode) ==
              if Body(msgs[k]).Err? then Err(Body(msgs[k]).error) else Err(decode(Body(msgs[k]).value).error)
  {
    if k > 0 {
      DecodeEachFirstError(msgs[1..], decode, k - 1);
    }
  }

  /** What a dump returns: the transport's error, or every message decoded. */
  function AllDecoded<T>(req: Request, transport: Transport, decode: seq<byte> -> Result<T>): Result<seq<T>>
  {
    var msgs :- transport(req);
    DecodeEach(msgs, decode)
  }

  /** The request of `GetXAll`: `NLM_F_DUMP` only, and no attributes, not even LINK. */
  function DumpRequest(cmd: Cmd): Request
  {
    Request({Dump}, cmd, [])
  }
}
