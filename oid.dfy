/**
 * Object identifiers.  An OID is a list of 64-bit words: `[id]` names an
 * object the legacy way, `[seid, id, ...]` names it within a PFCP session.
 */
module Oid {
  import opened Wire

  type OID = seq<u64>

  /** The session id: the first word, present only when the OID has at least two words. */
  function SEID(oid: OID): (u64, bool)
  {
    if |oid| <= 1 then (0, false) else (oid[0], true)
  }

  /** The object id as a Go `int`: the only word of a one-word OID, else the second word. */
  function ID(oid: OID): (i64, bool)
  {
    if |oid| == 0 then (0, false)
    else if |oid| == 1 then (ToInt(oid[0]), true)
    else (ToInt(oid[1]), true)
  }

  /** Word-by-word comparison with the first difference ending the loop. */
  method Equal(oid: OID, a: OID) returns (eq: bool)
    ensures eq <==> |a| == |oid| && forall i :: 0 <= i < |oid| ==> a[i] == oid[i]
    ensures eq <==> a == oid
  {
    var n := |oid|;
    var m := |a|;
    if n != m {
      return false;
    }
    var i := 0;
    while i < n
      invariant 0 <= i <= n
      invariant forall j :: 0 <= j < i ==> a[j] == oid[j]
    {
      if a[i] != oid[i] {
        return false;
      }
      i := i + 1;
    }
    return true;
  }

  /** An OID with a session id always has an object id, and the two are different words. */
  lemma SeidImpliesId(oid: OID)
    requires SEID(oid).1
    ensures ID(oid).1 && ToU64(ID(oid).0) == oid[1] && SEID(oid).0 == oid[0]
  {
  }

  /**
   * Words after the second never reach SEID or ID, yet they make OIDs
   * unequal: two lookups may address the same object with unequal OIDs.
   */
  lemma OnlyTwoWordsAddress(oid: OID, a: OID)
    requires |oid| >= 2 && |a| >= 2 && oid[..2] == a[..2]
    ensures SEID(oid) == SEID(a) && ID(oid) == ID(a)
  {
    assert oid[0] == oid[..2][0] && oid[1] == oid[..2][1];
    assert a[0] == a[..2][0] && a[1] == a[..2][1];
  }

  /** A word appended to a two-word OID changes neither its SEID nor its id, yet the OIDs differ. */
  lemma ExtraWordsBreakEquality(oid: OID, w: u64)
    requires |oid| >= 2
    ensures SEID(oid + [w]) == SEID(oid) && ID(oid + [w]) == ID(oid) && oid + [w] != oid
  {
    assert |oid + [w]| != |oid|;
  }

  /** The legacy OID `[uint64(id)]` carries the id back unchanged and no session id. */
  lemma LegacyOid(id: i64)
    ensures ID([ToU64(id)]) == (id, true)
    ensures SEID([ToU64(id)]) == (0, false)
  {
  }

  /** The session OID `[seid, uint64(id), ...]` carries both back unchanged, whatever follows them. */
  lemma SessionOid(seid: u64, id: i64, rest: OID)
    ensures SEID([seid, ToU64(id)] + rest) == (seid, true)
    ensures ID([seid, ToU64(id)] + rest) == (id, true)
  {
  }
}
