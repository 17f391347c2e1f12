/**
 * The netlink attribute walk every decoder of the library performs.
 *
 * A buffer is a run of attributes, each a 4-byte header (length and type,
 * both 16-bit) followed by the payload and padding up to the next multiple
 * of four.  Every decoder loops `for len(b) > 0`: it reads the header,
 * switches on the masked type, reads the field the type selects and drops
 * `Align(len)` bytes from the front of `b`.  `Scan` is that loop with the
 * switch as a parameter; `Attrs` lists the attributes the loop visits, so
 * that each decoder's result can also be stated field by field.
 */
module Nla {
  import opened Wire

  const SizeofAttrHdr: nat := 4

  datatype AttrHdr = AttrHdr(len: u16, typ: u16)

  /** nl.DecodeAttrHdr: the header at the front of `b`, which needs four bytes. */
  function DecodeAttrHdr(b: seq<byte>): (r: Result<AttrHdr>)
    ensures r.Ok? <==> |b| >= SizeofAttrHdr
    ensures r.Err? ==> r.error == ShortHeader
  {
    if |b| < SizeofAttrHdr then Err(ShortHeader) else Ok(AttrHdr(Le16(b), Le16(b[2..])))
  }

  /** The attribute type without its two flag bits (nested, byte order): `typ & 0x3FFF`. */
  function MaskedType(h: AttrHdr): nat
  {
    h.typ % 0x4000
  }

  /** The two flag bits never change the masked type, and small types are their own masked type. */
  lemma MaskedTypeFlags(len: u16, t: nat, flags: nat)
    requires t < 0x4000 && flags < 4 && t + flags * 0x4000 < 0x1_0000
    ensures MaskedType(AttrHdr(len, t + flags * 0x4000)) == t
  {
  }

  /** `(n + 3) &^ 3`: the least multiple of four that is not below `n`. */
  function Align(n: nat): (r: nat)
    ensures r % 4 == 0
    ensures n <= r < n + 4
  {
    (n + 3) / 4 * 4
  }

  /** One attribute as the decoding loop sees it: its header and the buffer from the header on. */
  datatype Attr = Attr(hdr: AttrHdr, buf: seq<byte>) {
    function Tag(): nat { MaskedType(hdr) }
  }

  /** `b[n:attrLen]`: the payload, which needs `4 <= len <= |b|`. */
  function Payload(a: Attr): (r: Result<seq<byte>>)
    ensures r.Ok? <==> SizeofAttrHdr <= a.hdr.len <= |a.buf|
    ensures r.Ok? ==> |r.value| + SizeofAttrHdr == a.hdr.len
    ensures r.Ok? ==> a.buf == a.buf[..SizeofAttrHdr] + r.value + a.buf[a.hdr.len..]
  {
    if SizeofAttrHdr <= a.hdr.len <= |a.buf| then
      Ok(a.buf[SizeofAttrHdr..a.hdr.len])
    else
      Err(OutOfRange)
  }

  /** `native.Uint16(b[n:attrLen])`: the first two payload bytes. */
  function PayloadU16(a: Attr): Result<u16>
  {
    var p :- Payload(a);
    if |p| < 2 then Err(OutOfRange) else Ok(Le16(p))
  }

  /** `native.Uint32(b[n:attrLen])`. */
  function PayloadU32(a: Attr): Result<u32>
  {
    var p :- Payload(a);
    if |p| < 4 then Err(OutOfRange) else Ok(Le32(p))
  }

  /** `native.Uint64(b[n:attrLen])`. */
  function PayloadU64(a: Attr): Result<u64>
  {
    var p :- Payload(a);
    if |p| < 8 then Err(OutOfRange) else Ok(Le64(p))
  }

  /** `b[n]`: the byte after the header, whatever the attribute's length says. */
  function ByteAt(a: Attr): Result<byte>
  {
    if |a.buf| > SizeofAttrHdr then Ok(a.buf[SizeofAttrHdr]) else Err(OutOfRange)
  }

  type Ip4 = s: seq<byte> | |s| == 4 witness [0, 0, 0, 0]

  /** `copy(ip, b[n:n+4])` into a fresh 4-byte address. */
  function Ip4At(a: Attr): Result<Ip4>
  {
    if |a.buf| >= SizeofAttrHdr + 4 then Ok(a.buf[SizeofAttrHdr..SizeofAttrHdr + 4]) else Err(OutOfRange)
  }

  /** `native.Uint32(b[n:])`: four bytes after the header, whatever the length says. */
  function TailU32(a: Attr): Result<u32>
  {
    if |a.buf| >= SizeofAttrHdr + 4 then Ok(Le32(a.buf[SizeofAttrHdr..])) else Err(OutOfRange)
  }

  /** `native.Uint64(b[n:])`. */
  function TailU64(a: Attr): Result<u64>
  {
    if |a.buf| >= SizeofAttrHdr + 8 then Ok(Le64(a.buf[SizeofAttrHdr..])) else Err(OutOfRange)
  }

  /** `b = b[hdr.Len.Align():]`; a length of 0 would keep the loop on this attribute forever. */
  function Advance(a: Attr): (r: Result<seq<byte>>)
    ensures r.Ok? <==> 0 < a.hdr.len && Align(a.hdr.len) <= |a.buf|
    ensures r.Ok? ==> r.value == a.buf[Align(a.hdr.len)..] && |r.value| < |a.buf|
  {
    if a.hdr.len == 0 then Err(NoProgress)
    else if Align(a.hdr.len) > |a.buf| then Err(OutOfRange)
    else Ok(a.buf[Align(a.hdr.len)..])
  }

  /**
   * The decoding loop: header, then the step for this attribute, then the
   * advance, until the buffer is empty; the first failure ends it.
   */
  function Scan<S>(b: seq<byte>, acc: S, step: (S, Attr) -> Result<S>): Result<S>
    decreases |b|
  {
    if |b| == 0 then Ok(acc)
    else
      var h :- DecodeAttrHdr(b);
      var a := Attr(h, b);
      var acc' :- step(acc, a);
      var rest :- Advance(a);
      Scan(rest, acc', step)
  }

  /** The attributes the loop visits, in order, up to the first one it cannot advance past. */
  function Attrs(b: seq<byte>): seq<Attr>
    decreases |b|
  {
    if |b| < SizeofAttrHdr then []
    else
      var a := Attr(DecodeAttrHdr(b).value, b);
      match Advance(a)
      case Err(_) => [a]
      case Ok(rest) => [a] + Attrs(rest)
  }

  /** The loop reaches the end of the buffer: every header can be read and skipped. */
  predicate WalkCompletes(b: seq<byte>)
    decreases |b|
  {
    |b| == 0 ||
    (|b| >= SizeofAttrHdr &&
     var a := Attr(DecodeAttrHdr(b).value, b);
     Advance(a).Ok? && WalkCompletes(Advance(a).value))
  }

  /** Total bytes the visited attributes occupy, padding included. */
  function Covered(attrs: seq<Attr>): nat
  {
    if attrs == [] then 0 else Align(attrs[0].hdr.len) + Covered(attrs[1..])
  }

  /** A completed walk leaves nothing unvisited: the visited attributes, padding included, fill the buffer exactly. */
  lemma {:induction false} WalkTiles(b: seq<byte>)
    requires WalkCompletes(b)
    ensures Covered(Attrs(b)) == |b|
    decreases |b|
  {
    if |b| > 0 {
      var a := Attr(DecodeAttrHdr(b).value, b);
      var rest := Advance(a).value;
      WalkTiles(rest);
      assert Attrs(b) == [a] + Attrs(rest);
      assert Attrs(b)[1..] == Attrs(rest);
    }
  }

  /**
   * The loop's result as a declarative `view` of the attributes it visits:
   * if one step applied to the view of a prefix gives the view of the longer
   * prefix, the loop computes the view of all attributes, and it succeeds
   * only when the walk reaches the end of the buffer.
   */
  lemma {:induction false} ScanView<S>(b: seq<byte>, prefix: seq<Attr>, step: (S, Attr) -> Result<S>, view: seq<Attr> -> S)
    requires forall attrs: seq<Attr>, a: Attr :: step(view(attrs), a).Ok? ==> step(view(attrs), a).value == view(attrs + [a])
    ensures Scan(b, view(prefix), step).Ok? ==>
              WalkCompletes(b) && Scan(b, view(prefix), step).value == view(prefix + Attrs(b))
    decreases |b|
  {
    if |b| == 0 {
      assert prefix + Attrs(b) == prefix;
    } else if Scan(b, view(prefix), step).Ok? {
      var a := Attr(DecodeAttrHdr(b).value, b);
      var rest := Advance(a).value;
      assert step(view(prefix), a).value == view(prefix + [a]);
      ScanView(rest, prefix + [a], step, view);
      assert prefix + [a] + Attrs(rest) == prefix + Attrs(b);
    }
  }

  /**
   * When a step's failure depends on the attribute alone (`accepts`), the
   * loop succeeds exactly when the walk reaches the end and every visited
   * attribute is accepted.
   */
  lemma {:induction false} ScanAccepts<S>(b: seq<byte>, acc: S, step: (S, Attr) -> Result<S>, accepts: Attr -> bool)
    requires forall s: S, a: Attr :: step(s, a).Ok? == accepts(a)
    ensures Scan(b, acc, step).Ok? <==> WalkCompletes(b) && forall a <- Attrs(b) :: accepts(a)
    decreases |b|
  {
    if |b| >= SizeofAttrHdr {
      var a := Attr(DecodeAttrHdr(b).value, b);
      if Advance(a).Ok? && step(acc, a).Ok? {
        ScanAccepts(Advance(a).value, step(acc, a).value, step, accepts);
      }
    }
  }

  /** The value the last attribute of type `t` gives, if there is one: a field the loop overwrites. */
  function Last<V>(attrs: seq<Attr>, t: nat, read: Attr -> Result<V>): (r: Option<V>)
    ensures r.None? ==> forall a <- attrs :: a.Tag() != t || read(a).Err?
  {
    if attrs == [] then None
    else
      var a := attrs[|attrs| - 1];
      if a.Tag() == t && read(a).Ok? then Some(read(a).value) else Last(attrs[..|attrs| - 1], t, read)
  }

  /** As `Last`, with the zero value Go leaves in a field no attribute sets. */
  function LastOr<V>(attrs: seq<Attr>, t: nat, read: Attr -> Result<V>, zero: V): V
  {
    match Last(attrs, t, read)
    case Some(v) => v
    case None => zero
  }

  /** The values of all attributes of type `t`, in wire order: a list the loop appends to. */
  function Every<V>(attrs: seq<Attr>, t: nat, read: Attr -> Result<V>): (r: seq<V>)
    ensures |r| <= |attrs|
  {
    if attrs == [] then []
    else
      var a := attrs[|attrs| - 1];
      Every(attrs[..|attrs| - 1], t, read) + (if a.Tag() == t && read(a).Ok? then [read(a).value] else [])
  }

  /** The concatenated lists of all attributes of type `t`, in wire order. */
  function Concat<V>(attrs: seq<Attr>, t: nat, read: Attr -> Result<seq<V>>): seq<V>
  {
    if attrs == [] then []
    else
      var a := attrs[|attrs| - 1];
      Concat(attrs[..|attrs| - 1], t, read) + (if a.Tag() == t && read(a).Ok? then read(a).value else [])
  }

  lemma LastSnoc<V>(attrs: seq<Attr>, a: Attr, t: nat, read: Attr -> Result<V>)
    ensures Last(attrs + [a], t, read) == if a.Tag() == t && read(a).Ok? then Some(read(a).value) else Last(attrs, t, read)
  {
    assert (attrs + [a])[..|attrs|] == attrs;
  }

  lemma EverySnoc<V>(attrs: seq<Attr>, a: Attr, t: nat, read: Attr -> Result<V>)
    ensures Every(attrs + [a], t, read) == Every(attrs, t, read) + (if a.Tag() == t && read(a).Ok? then [read(a).value] else [])
  {
    assert (attrs + [a])[..|attrs|] == attrs;
  }

  lemma ConcatSnoc<V>(attrs: seq<Attr>, a: Attr, t: nat, read: Attr -> Result<seq<V>>)
    ensures Concat(attrs + [a], t, read) == Concat(attrs, t, read) + (if a.Tag() == t && read(a).Ok? then read(a).value else [])
  {
    assert (attrs + [a])[..|attrs|] == attrs;
  }

  /** The number of attributes of type `t`. */
  function CountTag(attrs: seq<Attr>, t: nat): nat
  {
    if attrs == [] then 0
    else CountTag(attrs[..|attrs| - 1], t) + (if attrs[|attrs| - 1].Tag() == t then 1 else 0)
  }

  /** When every attribute of type `t` reads, `Every` collects exactly one value per such attribute. */
  lemma {:induction false} EveryCount<V>(attrs: seq<Attr>, t: nat, read: Attr -> Result<V>)
    requires forall a <- attrs :: a.Tag() == t ==> read(a).Ok?
    ensures |Every(attrs, t, read)| == CountTag(attrs, t)
  {
    if attrs != [] {
      var p := attrs[..|attrs| - 1];
      assert forall a <- p :: a in attrs;
      EveryCount(p, t, read);
      assert attrs[|attrs| - 1] in attrs;
    }
  }

  // ----- lists of 16-bit ids -----

  /** `for len(d) > 0 { v := native.Uint16(d); ...; d = d[2:] }`: an odd byte left over faults. */
  function Uint16List(d: seq<byte>): (r: Result<seq<u16>>)
    ensures r.Err? ==> r.error == OutOfRange
    decreases |d|
  {
    if |d| == 0 then Ok([])
    else if |d| < 2 then Err(OutOfRange)
    else
      var rest :- Uint16List(d[2..]);
      Ok([Le16(d)] + rest)
  }

  /** The list decodes exactly when the bytes pair up, and holds one id per pair, in order. */
  lemma {:induction false} Uint16ListShape(d: seq<byte>)
    ensures Uint16List(d).Ok? <==> |d| % 2 == 0
    ensures Uint16List(d).Ok? ==>
              var ids := Uint16List(d).value;
              |ids| == |d| / 2 && forall i :: 0 <= i < |ids| ==> 2 * i + 2 <= |d| && ids[i] == Le16(d[2 * i..])
    decreases |d|
  {
    if |d| >= 2 {
      Uint16ListShape(d[2..]);
      if Uint16List(d).Ok? {
        var ids := Uint16List(d).value;
        forall i | 0 <= i < |ids|
          ensures 2 * i + 2 <= |d| && ids[i] == Le16(d[2 * i..])
        {
          if i > 0 {
            assert d[2..][2 * (i - 1)..] == d[2 * i..];
          }
        }
      }
    }
  }

  /** The loop itself, appending to `ids`. */
  method DecodeUint16s(ids0: seq<u16>, d0: seq<byte>) returns (r: Result<seq<u16>>)
    ensures Uint16List(d0).Ok? ==> r == Ok(ids0 + Uint16List(d0).value)
    ensures Uint16List(d0).Err? ==> r == Err(OutOfRange)
  {
    var ids := ids0;
    var d := d0;
    while |d| > 0
      invariant Uint16List(d0).Ok? <==> Uint16List(d).Ok?
      invariant Uint16List(d).Ok? ==> ids0 + Uint16List(d0).value == ids + Uint16List(d).value
      decreases |d|
    {
      if |d| < 2 {
        return Err(OutOfRange);
      }
      ids := ids + [Le16(d)];
      d := d[2..];
    }
    assert ids + [] == ids;
    return Ok(ids);
  }

  /** The ids of an attribute whose payload is a list of 16-bit ids. */
  function PayloadU16List(a: Attr): Result<seq<u16>>
  {
    var d :- Payload(a);
    Uint16List(d)
  }

  // ----- encoding, for stating what the decoders do on well-formed input -----

  /** Zero bytes padding a payload of length `n` to a multiple of four. */
  function Padding(n: nat): (r: seq<byte>)
    ensures |r| == Align(n) - n
    ensures forall i :: 0 <= i < |r| ==> r[i] == 0
  {
    seq(Align(n) - n, _ => 0)
  }

  /** An attribute with type `t` and payload `p`, padded. */
  function EncodeAttr(t: u16, p: seq<byte>): (r: seq<byte>)
    requires SizeofAttrHdr + |p| < 0x1_0000
    ensures |r| == Align(SizeofAttrHdr + |p|)
  {
    Put16(SizeofAttrHdr + |p|) + Put16(t) + p + Padding(|p|)
  }

  /** Header, payload and advance of an encoded attribute, with anything after it. */
  lemma EncodeAttrReads(t: u16, p: seq<byte>, rest: seq<byte>)
    requires SizeofAttrHdr + |p| < 0x1_0000
    ensures var b := EncodeAttr(t, p) + rest;
            DecodeAttrHdr(b) == Ok(AttrHdr(SizeofAttrHdr + |p|, t)) &&
            var a := Attr(AttrHdr(SizeofAttrHdr + |p|, t), b);
            Payload(a) == Ok(p) && Advance(a) == Ok(rest)
  {
    var b := EncodeAttr(t, p) + rest;
    Le16Put16(SizeofAttrHdr + |p|, b[2..]);
    assert b[2..] == Put16(t) + (p + Padding(|p|) + rest);
    Le16Put16(t, p + Padding(|p|) + rest);
    assert b[SizeofAttrHdr..SizeofAttrHdr + |p|] == p;
    assert b[Align(SizeofAttrHdr + |p|)..] == rest;
  }

  /** One step of the loop over an encoded attribute. */
  lemma ScanEncoded<S>(t: u16, p: seq<byte>, rest: seq<byte>, acc: S, step: (S, Attr) -> Result<S>)
    requires SizeofAttrHdr + |p| < 0x1_0000
    ensures var b := EncodeAttr(t, p) + rest;
            var a := Attr(AttrHdr(SizeofAttrHdr + |p|, t), b);
            Scan(b, acc, step) == if step(acc, a).Ok? then Scan(rest, step(acc, a).value, step) else Err(step(acc, a).error)
  {
    EncodeAttrReads(t, p, rest);
  }
}
