/**
 * Decoding of the module's version string: everything after the first
 * attribute header, whatever that header's length says, with NUL bytes
 * trimmed from both ends (`bytes.Trim(b[n:], "\x00")`).
 */
module VersionAttr {
  import opened Wire
  import opened Nla

  /** The number of NUL bytes `s` starts with. */
  function LeadingNuls(s: seq<byte>): (n: nat)
    ensures n <= |s|
    ensures forall k :: 0 <= k < n ==> s[k] == 0
    ensures n < |s| ==> s[n] != 0
  {
    if |s| == 0 || s[0] != 0 then 0 else 1 + LeadingNuls(s[1..])
  }

  /** The number of NUL bytes `s` ends with. */
  function TrailingNuls(s: seq<byte>): (n: nat)
    ensures n <= |s|
    ensures forall k :: |s| - n <= k < |s| ==> s[k] == 0
    ensures n < |s| ==> s[|s| - n - 1] != 0
  {
    if |s| == 0 || s[|s| - 1] != 0 then 0 else 1 + TrailingNuls(s[..|s| - 1])
  }

  /** `bytes.Trim(s, "\x00")`. */
  function Trim(s: seq<byte>): seq<byte>
  {
    var t := s[LeadingNuls(s)..];
    t[..|t| - TrailingNuls(t)]
  }

  /** Where the trimmed string starts and ends in `s`. */
  function TrimStart(s: seq<byte>): nat
  {
    LeadingNuls(s)
  }

  function TrimEnd(s: seq<byte>): int
  {
    |s| - TrailingNuls(s[LeadingNuls(s)..])
  }

  /** The trimmed string is the slice `s[i..j]` with only NULs outside it. */
  lemma TrimSlice(s: seq<byte>)
    ensures TrimStart(s) <= TrimEnd(s) <= |s|
    ensures Trim(s) == s[TrimStart(s)..TrimEnd(s)]
    ensures forall k :: 0 <= k < TrimStart(s) ==> s[k] == 0
    ensures forall k :: TrimEnd(s) <= k < |s| ==> s[k] == 0
  {
    var i := LeadingNuls(s);
    var t := s[i..];
    var n := TrailingNuls(t);
    var j := |s| - n;
    forall k | j <= k < |s|
      ensures s[k] == 0
    {
      assert s[k] == t[k - i];
    }
    assert t[..|t| - n] == s[i..j];
  }

  /** The trimmed string neither starts nor ends with a NUL, and is empty exactly when `s` is all NULs. */
  lemma TrimEnds(s: seq<byte>)
    ensures |Trim(s)| > 0 ==> Trim(s)[0] != 0 && Trim(s)[|Trim(s)| - 1] != 0
    ensures |Trim(s)| == 0 <==> forall k :: 0 <= k < |s| ==> s[k] == 0
  {
    var i := LeadingNuls(s);
    var t := s[i..];
    var n := TrailingNuls(t);
    if |Trim(s)| > 0 {
      assert Trim(s)[0] == t[0];
      assert Trim(s)[|Trim(s)| - 1] == t[|t| - n - 1];
    }
  }

  /** Trimming a second time changes nothing. */
  lemma TrimIdempotent(s: seq<byte>)
    ensures Trim(Trim(s)) == Trim(s)
  {
    TrimEnds(s);
    var r := Trim(s);
    if |r| > 0 {
      NoNulEnds(r);
    }
  }

  /** A string that neither starts nor ends with a NUL is its own trim. */
  lemma NoNulEnds(s: seq<byte>)
    requires |s| > 0 && s[0] != 0 && s[|s| - 1] != 0
    ensures Trim(s) == s
  {
  }

  /** The header must be there; its length is not consulted. */
  function DecodeVersion(b: seq<byte>): (r: Result<seq<byte>>)
    ensures r.Ok? <==> |b| >= SizeofAttrHdr
    ensures r.Err? ==> r.error == ShortHeader
  {
    var _ :- DecodeAttrHdr(b);
    Ok(Trim(b[SizeofAttrHdr..]))
  }

  /** A version string sent as a NUL-terminated attribute of any type decodes to the string itself. */
  lemma VersionRoundTrip(t: u16, v: seq<byte>)
    requires |v| > 0 && v[0] != 0 && v[|v| - 1] != 0
    requires SizeofAttrHdr + |v| + 1 < 0x1_0000
    ensures DecodeVersion(EncodeAttr(t, v + [0])) == Ok(v)
  {
    var b := EncodeAttr(t, v + [0]);
    var p := v + [0];
    var tail := b[SizeofAttrHdr..];
    assert tail == p + Padding(|p|);
    var vs := v + seq(|tail| - |v|, _ => 0);
    assert tail == vs;
    NulPadded(v, |tail| - |v|);
  }

  lemma {:induction false} NulPadded(v: seq<byte>, k: nat)
    requires |v| > 0 && v[0] != 0 && v[|v| - 1] != 0
    ensures Trim(v + seq(k, _ => 0)) == v
  {
    var s := v + seq(k, _ => 0);
    assert LeadingNuls(s) == 0;
    TrailingCount(v, k);
    assert s[..|s| - k] == v;
  }

  lemma {:induction false} TrailingCount(v: seq<byte>, k: nat)
    requires |v| > 0 && v[|v| - 1] != 0
    ensures TrailingNuls(v + seq(k, _ => 0)) == k
  {
    if k > 0 {
      var s := v + seq(k, _ => 0);
      assert s[..|s| - 1] == v + seq(k - 1, _ => 0);
      TrailingCount(v, k - 1);
    } else {
      assert v + seq(0, _ => 0) == v;
    }
  }
}
