/** The growing bitmap of identifiers in libnpclient/pool.c. */
module IdPool {
  import opened Bytes

  function Mask(k: nat): bv8
    requires k < 8
  {
    match k case 0 => 0x01 case 1 => 0x02 case 2 => 0x04 case 3 => 0x08
            case 4 => 0x10 case 5 => 0x20 case 6 => 0x40 case 7 => 0x80
  }

  predicate Bit(b: bv8, k: nat)
    requires k < 8
  {
    b & Mask(k) != 0
  }

  /** The table m2id. Its 32 rows of 8 entries all read 0, 1, 0, 2, 0, 1, 0 and differ in the last entry. */
  function M2id(b: bv8): (r: nat)
    ensures r < 8
    ensures b != 0xFF ==> !Bit(b, r) && forall k :: 0 <= k < r ==> Bit(b, k)
  {
    match b & 0x07
    case 0 => 0 case 1 => 1 case 2 => 0 case 3 => 2 case 4 => 0 case 5 => 1 case 6 => 0
    case _ => RowEnd(b >> 3)
  }

  function RowEnd(row: bv8): (r: nat) ensures r < 8 {
    match row
    case 0 => 3 case 1 => 4 case 2 => 3 case 3 => 5 case 4 => 3 case 5 => 4 case 6 => 3 case 7 => 6
    case 8 => 3 case 9 => 4 case 10 => 3 case 11 => 5 case 12 => 3 case 13 => 4 case 14 => 3 case 15 => 7
    case 16 => 3 case 17 => 4 case 18 => 3 case 19 => 5 case 20 => 3 case 21 => 4 case 22 => 3 case 23 => 6
    case 24 => 3 case 25 => 4 case 26 => 3 case 27 => 5 case 28 => 3 case 29 => 4 case 30 => 3 case 31 => 0
    case _ => 0
  }

  lemma BitAfterSet(b: bv8, i: nat, k: nat)
    requires i < 8 && k < 8
    ensures Bit(b | Mask(i), k) <==> Bit(b, k) || i == k
  {
  }

  lemma BitAfterClear(b: bv8, i: nat, k: nat)
    requires i < 8 && k < 8
    ensures Bit(b & !Mask(i), k) <==> Bit(b, k) && i != k
  {
  }

  lemma FullByte(k: nat)
    requires k < 8
    ensures Bit(0xFF, k) && !Bit(0, k)
  {
  }

  /** The size of the map after one growth. */
  function Grown(msize: nat, maxid: nat): (n: nat)
    requires msize * 8 < maxid
    ensures n > msize
  {
    if (msize + 32) * 8 > maxid then maxid / 8 + 1 else msize + 32
  }

  class Pool {
    const maxid: nat
    var bitmap: array<bv8>

    ghost predicate InUse(id: nat)
      reads this, bitmap
    {
      id / 8 < bitmap.Length && Bit(bitmap[id / 8], id % 8)
    }

    ghost predicate AllInUse()
      reads this, bitmap
    {
      forall id: nat :: id < 8 * bitmap.Length ==> InUse(id)
    }

    constructor (maxid: nat)
      ensures this.maxid == maxid && fresh(bitmap) && bitmap.Length == 32
      ensures forall id: nat :: !InUse(id)
    {
      this.maxid := maxid;
      bitmap := new bv8[32](_ => 0);
      new;
      forall id: nat | id < 256 ensures !InUse(id) { FullByte(id % 8); }
    }

    /** One attempt of npc_get_id: None is where the source waits for npc_put_id and tries again. The map is
        small enough for its bit count to be a C int; mem says whether realloc finds memory. */
    method Get(mem: bool) returns (r: Option<nat>)
      requires 8 * bitmap.Length + 256 < 0x8000_0000
      modifies this`bitmap, bitmap
      ensures bitmap == old(bitmap) || fresh(bitmap)
      ensures r.None? ==> unchanged(this) && unchanged(bitmap) && (!mem || 8 * bitmap.Length >= maxid)
      ensures r.None? ==> AllInUse()
      ensures r.Some? ==> !old(InUse(r.value)) && r.value < 8 * bitmap.Length
      ensures r.Some? ==> forall k: nat :: k < r.value ==> old(InUse(k))
      ensures r.Some? ==> forall k: nat :: InUse(k) <==> old(InUse(k)) || k == r.value
      ensures bitmap.Length ==
        if old(AllInUse() && 8 * bitmap.Length < maxid) && mem then Grown(old(bitmap.Length), maxid)
        else old(bitmap.Length)
    {
      var i := 0;
      while i < bitmap.Length && bitmap[i] == 0xFF
        invariant i <= bitmap.Length
        invariant forall j :: 0 <= j < i ==> bitmap[j] == 0xFF
      {
        i := i + 1;
      }
      forall k: nat | k < 8 * i ensures InUse(k) { FullByte(k % 8); }
      assert i < bitmap.Length ==> !InUse(8 * i + M2id(bitmap[i]));
      if i >= bitmap.Length && bitmap.Length * 8 < maxid && mem { Grow(); }
      if i >= bitmap.Length { return None; }
      var ret := M2id(bitmap[i]);
      Take(i, ret);
      return Some(ret + i * 8);
    }

    /** The realloc: 32 more bytes of map, or what maxid allows, all clear. */
    method Grow()
      requires 8 * bitmap.Length < maxid
      modifies this`bitmap
      ensures fresh(bitmap) && bitmap.Length == Grown(old(bitmap.Length), maxid) > old(bitmap.Length)
      ensures forall k: nat :: InUse(k) <==> old(InUse(k))
      ensures forall m :: 0 <= m < old(bitmap.Length) ==> bitmap[m] == old(bitmap[m])
    {
      var n := bitmap.Length + 32;
      if n * 8 > maxid { n := maxid / 8 + 1; }
      var was := bitmap;
      var pt := new bv8[n](j => 0);
      for j := 0 to was.Length
        invariant was.Length < n && pt.Length == n && was[..] == old(bitmap[..])
        invariant forall m :: 0 <= m < j ==> pt[m] == was[m]
        invariant forall m :: j <= m < n ==> pt[m] == 0
      {
        pt[j] := was[j];
      }
      bitmap := pt;
      forall k: nat ensures InUse(k) <==> old(InUse(k)) {
        FullByte(k % 8);
        if k / 8 < was.Length { assert bitmap[k / 8] == was[..][k / 8]; }
      }
    }

    method Take(i: nat, ret: nat)
      requires i < bitmap.Length && ret < 8
      modifies bitmap
      ensures forall k: nat :: InUse(k) <==> old(InUse(k)) || k == i * 8 + ret
    {
      ghost var before := bitmap[..];
      bitmap[i] := bitmap[i] | Mask(ret);
      forall k: nat ensures InUse(k) <==> old(InUse(k)) || k == i * 8 + ret {
        if k / 8 == i { BitAfterSet(before[i], ret, k % 8); }
      }
    }

    method Put(id: nat)
      requires id < 8 * bitmap.Length
      modifies bitmap
      ensures forall k: nat :: InUse(k) <==> old(InUse(k)) && k != id
    {
      var b := bitmap[id / 8];
      bitmap[id / 8] := b & !Mask(id % 8);
      forall k: nat ensures InUse(k) <==> old(InUse(k)) && k != id {
        if k / 8 == id / 8 { BitAfterClear(b, id % 8, k % 8); }
      }
    }
  }

  /** The size of the map after k growths, or as many as are possible. */
  function SizeAfter(maxid: nat, k: nat): nat {
    if k == 0 then 32
    else
      var m := SizeAfter(maxid, k - 1);
      if m * 8 < maxid then Grown(m, maxid) else m
  }

  /** No id the map can ever hold exceeds maxid. */
  ghost predicate NeverExceeds(maxid: nat) {
    forall k: nat :: 8 * SizeAfter(maxid, k) - 1 <= maxid
  }

  lemma {:induction false} SizeShape(maxid: nat, k: nat)
    requires maxid >= 255
    ensures var m := SizeAfter(maxid, k); m == maxid / 8 + 1 || (m % 32 == 0 && 8 * m <= maxid + 1)
  {
    if k > 0 { SizeShape(maxid, k - 1); }
  }

  lemma {:induction false} SizeReaches(maxid: nat, k: nat)
    requires maxid >= 255 && maxid % 256 != 0
    ensures SizeAfter(maxid, k) >= 32 + k || 8 * SizeAfter(maxid, k) >= maxid
  {
    if k > 0 { SizeReaches(maxid, k - 1); }
  }

  /** The bound holds for exactly those limits that are at least 255 and either end a byte or are a multiple
      of 256: the two pools the client creates, 0xFFFF and 0xFFFFFFFF, are among them. */
  lemma NeverExceedsExactly(maxid: nat)
    ensures NeverExceeds(maxid) <==> maxid >= 255 && (maxid % 8 == 7 || maxid % 256 == 0)
  {
    if maxid < 255 {
      assert 8 * SizeAfter(maxid, 0) - 1 > maxid;
    } else if maxid % 8 == 7 || maxid % 256 == 0 {
      forall k: nat ensures 8 * SizeAfter(maxid, k) - 1 <= maxid {
        SizeShape(maxid, k);
        if maxid % 256 == 0 { NeverPastMultiple(maxid, k); }
      }
    } else {
      var k := maxid;
      SizeReaches(maxid, k);
      SizeShape(maxid, k);
      assert 8 * SizeAfter(maxid, k) - 1 > maxid;
    }
  }

  lemma {:induction false} NeverPastMultiple(maxid: nat, k: nat)
    requires maxid >= 256 && maxid % 256 == 0
    ensures 8 * SizeAfter(maxid, k) <= maxid && SizeAfter(maxid, k) % 32 == 0
  {
    if k > 0 { NeverPastMultiple(maxid, k - 1); }
  }

  lemma ClientPoolsNeverExceed()
    ensures NeverExceeds(0xFFFF) && NeverExceeds(0xFFFF_FFFF)
  {
    NeverExceedsExactly(0xFFFF);
    NeverExceedsExactly(0xFFFF_FFFF);
  }
}
