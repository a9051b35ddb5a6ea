/** The id vector of the consent model and its plain bitfield form. */
module TcfVector {
  import opened Wrappers
  import opened TcfBits

  lemma {:induction false} LargestExists(ids: set<nat>)
    requires ids != {}
    ensures exists m :: m in ids && forall x :: x in ids ==> x <= m
  {
    var x :| x in ids;
    var rest := ids - {x};
    assert forall y :: y in ids ==> y == x || y in rest;
    if rest == {} {
      assert x in ids && forall y :: y in ids ==> y <= x;
    } else {
      LargestExists(rest);
      var m :| m in rest && forall y :: y in rest ==> y <= m;
      var larger := if x <= m then m else x;
      assert larger in ids && forall y :: y in ids ==> y <= larger;
    }
  }

  /** The largest id of a set, 0 for the empty set */
  function MaxId(ids: set<nat>): (m: nat)
    ensures forall x :: x in ids ==> x <= m
    ensures if ids == {} then m == 0 else m in ids
  {
    if ids == {} then 0
    else
      LargestExists(ids);
      var m :| m in ids && forall x :: x in ids ==> x <= m;
      m
  }

  lemma MaxIdIsUnique(ids: set<nat>, m: nat)
    requires forall x :: x in ids ==> x <= m
    requires if ids == {} then m == 0 else m in ids
    ensures m == MaxId(ids)
  {
  }

  ghost predicate Positive(ids: set<nat>)
  {
    0 !in ids
  }

  class Vector {
    var bitLength: nat
    var maxId: nat
    var ids: set<nat>

    ghost predicate Valid()
      reads this
    {
      Positive(ids) && maxId == MaxId(ids)
    }

    constructor ()
      ensures Valid() && ids == {} && bitLength == 0
    {
      bitLength, maxId, ids := 0, 0, {};
    }

    method Set(e: int) returns (r: Result<(), CodecError>)
      requires Valid()
      modifies this
      ensures Valid()
      ensures e > 0 ==> r == Ok(()) && ids == old(ids) + {e} && bitLength == 0
      ensures e <= 0 ==> r == Err(ModelError) && ids == old(ids) && bitLength == old(bitLength)
    {
      if e <= 0 {
        return Err(ModelError);
      }
      ids := ids + {e};
      maxId := if maxId < e then e else maxId;
      bitLength := 0;
      return Ok(());
    }

    method Unset(e: nat)
      requires Valid()
      modifies this
      ensures Valid() && ids == old(ids) - {e} && bitLength == 0
    {
      ids := ids - {e};
      bitLength := 0;
      assert maxId != 0 && maxId != e ==> maxId in ids;
      if e == maxId {
        maxId := 0;
        var remaining := ids;
        while remaining != {}
          invariant remaining <= ids && ids == old(ids) - {e}
          invariant bitLength == 0
          invariant forall x :: x in ids - remaining ==> x <= maxId
          invariant if ids == remaining then maxId == 0 else maxId in ids - remaining
          decreases remaining
        {
          var x :| x in remaining;
          assert forall y :: y in ids - (remaining - {x}) ==> y == x || y in ids - remaining;
          maxId := if maxId < x then x else maxId;
          remaining := remaining - {x};
        }
        assert ids - remaining == ids;
      }
      MaxIdIsUnique(ids, maxId);
    }

    /** The original leaves `bitLength` as it was. */
    method Empty()
      requires Valid()
      modifies this
      ensures Valid() && ids == {} && bitLength == old(bitLength)
    {
      ids := {};
      maxId := 0;
    }
  }

  // ---------- FixedVectorEncoder ----------

  function Bitfield(ids: set<nat>, n: nat): (b: Bits)
    ensures |b| == n
  {
    seq(n, k => k + 1 in ids)
  }

  function BitfieldIds(b: Bits): (ids: set<nat>)
    ensures 0 !in ids
  {
    set k | 0 <= k < |b| && b[k] :: k + 1
  }

  function Clip(ids: set<nat>, n: nat): set<nat>
  {
    set x | x in ids && x <= n
  }

  /** A bitfield of n bits keeps exactly the ids up to n. */
  lemma BitfieldRoundTrip(ids: set<nat>, n: nat)
    requires Positive(ids)
    ensures BitfieldIds(Bitfield(ids, n)) == Clip(ids, n)
  {
    var b := Bitfield(ids, n);
    forall x: nat
      ensures x in BitfieldIds(b) <==> x in Clip(ids, n)
    {
      if x in Clip(ids, n) {
        assert b[x - 1];
      }
    }
  }

  lemma BitfieldOfIds(b: Bits)
    ensures Bitfield(BitfieldIds(b), |b|) == b
  {
    forall k | 0 <= k < |b|
      ensures Bitfield(BitfieldIds(b), |b|)[k] == b[k]
    {
    }
  }

  method EncodeFixed(v: Vector, numBits: nat) returns (b: Bits)
    requires v.Valid()
    ensures b == Bitfield(v.ids, numBits)
  {
    b := [];
    for s := 1 to numBits + 1
      invariant b == Bitfield(v.ids, s - 1)
    {
      b := b + EncodeBool(s in v.ids);
    }
  }

  method DecodeFixed(b: Bits, numBits: nat) returns (r: Result<Vector, CodecError>)
    ensures |b| != numBits ==> r == Err(DecodingError)
    ensures |b| == numBits ==>
              r.Ok? && fresh(r.value) && r.value.Valid() && r.value.ids == BitfieldIds(b) && r.value.bitLength == |b|
  {
    if |b| != numBits {
      return Err(DecodingError);
    }
    var v := new Vector();
    for s := 1 to numBits + 1
      invariant fresh(v) && v.Valid() && v.ids == BitfieldIds(b[..s - 1])
    {
      assert forall x :: x in BitfieldIds(b[..s]) <==> x in BitfieldIds(b[..s - 1]) || (x == s && b[s - 1]);
      if DecodeBool([b[s - 1]]) {
        var _ := v.Set(s);
      }
    }
    assert b[..numBits] == b;
    v.bitLength := |b|;
    return Ok(v);
  }
}
