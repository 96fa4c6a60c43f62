/** The bounded cursor of libnpfs/np.c (and of libufs/ufsimpl.h): every put and get first checks that the bytes
    it needs are there. One that does not fit marks the cursor, by moving it past the end, but only when the
    cursor stands strictly before the end. */
module Cbuf {
  import opened Bytes

  /** What a writing cursor has put into its cap bytes; nothing is kept of the bytes once it is marked. */
  datatype Writer = Writer(out: seq<Byte>, cap: nat, over: bool)

  function Put(w: Writer, chunk: seq<Byte>): (r: Writer)
    ensures r.cap == w.cap
    ensures |w.out| <= w.cap ==> |r.out| <= r.cap
  {
    if w.over then w
    else if |w.out| + |chunk| <= w.cap then w.(out := w.out + chunk)
    else if |w.out| < w.cap then Writer([], w.cap, true)
    else w
  }

  function PutAll(w: Writer, chunks: seq<seq<Byte>>): (r: Writer)
    ensures r.cap == w.cap
    ensures |w.out| <= w.cap ==> |r.out| <= r.cap
    decreases |chunks|
  {
    if chunks == [] then w else PutAll(Put(w, chunks[0]), chunks[1..])
  }

  function Flat(chunks: seq<seq<Byte>>): seq<Byte> {
    if chunks == [] then [] else chunks[0] + Flat(chunks[1..])
  }

  lemma {:induction false} PutAllFits(w: Writer, chunks: seq<seq<Byte>>)
    requires !w.over && |w.out| + |Flat(chunks)| <= w.cap
    ensures PutAll(w, chunks) == w.(out := w.out + Flat(chunks))
    decreases |chunks|
  {
    if chunks != [] {
      PutAllFits(Put(w, chunks[0]), chunks[1..]);
      assert w.out + Flat(chunks) == (w.out + chunks[0]) + Flat(chunks[1..]);
    } else {
      assert w.out + [] == w.out;
    }
  }

  lemma {:induction false} PutAllMarked(w: Writer, chunks: seq<seq<Byte>>)
    requires w.over
    ensures PutAll(w, chunks) == w
    decreases |chunks|
  {
    if chunks != [] { PutAllMarked(w, chunks[1..]); }
  }

  lemma {:induction false} PutAllFull(w: Writer, chunks: seq<seq<Byte>>)
    requires !w.over && |w.out| == w.cap && forall i :: 0 <= i < |chunks| ==> chunks[i] != []
    ensures PutAll(w, chunks) == w
    decreases |chunks|
  {
    if chunks != [] { PutAllFull(w, chunks[1..]); }
  }

  lemma {:induction false} PutAllConcat(w: Writer, a: seq<seq<Byte>>, b: seq<seq<Byte>>)
    ensures PutAll(w, a + b) == PutAll(PutAll(w, a), b)
    decreases |a|
  {
    if a == [] {
      assert a + b == b;
    } else {
      assert (a + b)[1..] == a[1..] + b;
      PutAllConcat(Put(w, a[0]), a[1..], b);
    }
  }

  lemma {:induction false} FlatConcat(a: seq<seq<Byte>>, b: seq<seq<Byte>>)
    ensures Flat(a + b) == Flat(a) + Flat(b)
  {
    if a == [] {
      assert a + b == b;
    } else {
      assert (a + b)[1..] == a[1..] + b;
      FlatConcat(a[1..], b);
    }
  }

  /** A reading cursor at position p of s; a marked one stands past the end. */
  datatype Reader = Reader(s: seq<Byte>, p: nat, over: bool)

  ghost predicate InRange(c: Reader) { c.p <= |c.s| }

  function Skip(c: Reader, len: nat): (r: Reader)
    ensures r.s == c.s && (InRange(c) ==> InRange(r))
    ensures !c.over && c.p + len <= |c.s| ==> r == c.(p := c.p + len)
  {
    if c.over then c
    else if c.p + len <= |c.s| then c.(p := c.p + len)
    else if c.p < |c.s| then Reader(c.s, |c.s|, true)
    else c
  }

  function Take(c: Reader, len: nat): (r: Option<seq<Byte>>)
    ensures r.Some? ==> |r.value| == len
  {
    if !c.over && c.p + len <= |c.s| then Some(c.s[c.p..c.p + len]) else None
  }

  /** An integer of k bytes; 0 when they are not there. */
  function Int(c: Reader, k: nat): (v: nat)
    ensures v < Pow256(k)
  {
    match Take(c, k) case Some(b) => UnLE(b) case None => 0
  }

  lemma {:induction false} IntThere(pre: seq<Byte>, v: nat, k: nat, post: seq<Byte>)
    requires v < Pow256(k)
    ensures Int(Reader(pre + LE(v, k) + post, |pre|, false), k) == v
  {
    var s := pre + LE(v, k) + post;
    assert s[|pre|..|pre| + k] == LE(v, k);
    UnLEOfLE(v, k);
  }

  lemma SliceOfSlice(s: seq<Byte>, lo: nat, hi: nat, p: nat, len: nat)
    requires lo + p + len <= hi <= |s|
    ensures s[lo..hi][p..p + len] == s[lo + p..lo + p + len]
  {
    var a, b := s[lo..hi][p..p + len], s[lo + p..lo + p + len];
    assert |a| == |b| && forall k :: 0 <= k < len ==> a[k] == b[k];
  }

  class Cbuf {
    const data: array<Byte>
    const sp: nat
    const ep: nat
    var p: nat

    ghost predicate Valid()
      reads this
    {
      sp <= ep <= data.Length && sp <= p <= ep + 1
    }

    ghost function Written(): Writer
      reads this, data
      requires Valid()
    {
      if p > ep then Writer([], ep - sp, true) else Writer(data[sp..p], ep - sp, false)
    }

    ghost function Reading(): Reader
      reads this, data
      requires Valid()
    {
      if p > ep then Reader(data[sp..ep], ep - sp, true) else Reader(data[sp..ep], p - sp, false)
    }

    constructor (data: array<Byte>, sp: nat, len: nat)
      requires sp + len <= data.Length
      ensures this.data == data && this.sp == sp && ep == sp + len && p == sp && Valid()
      ensures Written() == Writer([], len, false) && Reading() == Reader(data[sp..sp + len], 0, false)
    {
      this.data := data;
      this.sp := sp;
      ep := sp + len;
      p := sp;
    }

    method CheckOverflow() returns (r: bool)
      requires Valid()
      ensures r <==> Written().over
      ensures r <==> Reading().over
    {
      return p > ep;
    }

    method CheckSize(len: nat) returns (ok: bool)
      requires Valid()
      modifies this`p
      ensures Valid() && (ok <==> old(p) + len <= ep)
      ensures p == if !ok && old(p) < ep then ep + 1 else old(p)
    {
      if p + len > ep {
        if p < ep { p := ep + 1; }
        return false;
      }
      return true;
    }

    /** buf_alloc and the copy its callers make. */
    method PutBytes(chunk: seq<Byte>)
      requires Valid()
      modifies this`p, data
      ensures Valid() && Written() == Put(old(Written()), chunk)
      ensures data[..sp] == old(data[..sp]) && data[ep..] == old(data[ep..])
    {
      var ok := CheckSize(|chunk|);
      if ok {
        ghost var was := data[..];
        for i := 0 to |chunk|
          invariant p == old(p)
          invariant forall k :: 0 <= k < data.Length ==> data[k] == if p <= k < p + i then chunk[k - p] else was[k]
        {
          data[p + i] := chunk[i];
        }
        p := p + |chunk|;
        assert data[sp..p] == old(data[sp..p]) + chunk;
      }
    }

    method PutInt8(v: nat)
      requires Valid()
      modifies this`p, data
      ensures Valid() && Written() == Put(old(Written()), LE(v, 1))
      ensures data[..sp] == old(data[..sp]) && data[ep..] == old(data[ep..])
    {
      var ok := CheckSize(1);
      if ok {
        LEBytes(v);
        data[p] := v % 256;
        p := p + 1;
        assert data[sp..p] == old(data[sp..p]) + LE(v, 1);
      }
    }

    method PutInt16(v: nat)
      requires Valid()
      modifies this`p, data
      ensures Valid() && Written() == Put(old(Written()), LE(v, 2))
      ensures data[..sp] == old(data[..sp]) && data[ep..] == old(data[ep..])
    {
      var ok := CheckSize(2);
      if ok {
        LEBytes(v);
        data[p], data[p + 1] := v % 256, v / 0x100 % 256;
        p := p + 2;
        assert data[sp..p] == old(data[sp..p]) + LE(v, 2);
      }
    }

    method PutInt32(v: nat)
      requires Valid()
      modifies this`p, data
      ensures Valid() && Written() == Put(old(Written()), LE(v, 4))
      ensures data[..sp] == old(data[..sp]) && data[ep..] == old(data[ep..])
      ensures p <= ep ==> data[p..] == old(data[..])[p..]
    {
      var ok := CheckSize(4);
      if ok {
        LEBytes(v);
        data[p], data[p + 1] := v % 256, v / 0x100 % 256;
        data[p + 2], data[p + 3] := v / 0x1_0000 % 256, v / 0x100_0000 % 256;
        p := p + 4;
        assert data[sp..p] == old(data[sp..p]) + LE(v, 4);
      }
    }

    method PutInt64(v: nat)
      requires Valid()
      modifies this`p, data
      ensures Valid() && Written() == Put(old(Written()), LE(v, 8))
      ensures data[..sp] == old(data[..sp]) && data[ep..] == old(data[ep..])
    {
      var ok := CheckSize(8);
      if ok {
        var hi := v / 0x1_0000_0000;
        LEBytes(v);
        LEBytes(hi);
        LE8Bytes(v);
        data[p], data[p + 1] := v % 256, v / 0x100 % 256;
        data[p + 2], data[p + 3] := v / 0x1_0000 % 256, v / 0x100_0000 % 256;
        data[p + 4], data[p + 5] := hi % 256, hi / 0x100 % 256;
        data[p + 6], data[p + 7] := hi / 0x1_0000 % 256, hi / 0x100_0000 % 256;
        p := p + 8;
        assert data[sp..p] == old(data[sp..p]) + (LE(v, 4) + LE(hi, 4));
      }
    }

    /** buf_put_str: the count and the bytes are checked for as one. */
    method PutStr(s: seq<Byte>)
      requires Valid()
      modifies this`p, data
      ensures Valid() && Written() == Put(old(Written()), LE(|s|, 2) + s)
      ensures data[..sp] == old(data[..sp]) && data[ep..] == old(data[ep..])
    {
      var ok := CheckSize(2 + |s|);
      if ok {
        ghost var w := Written();
        PutInt16(|s|);
        PutBytes(s);
        assert (w.out + LE(|s|, 2)) + s == w.out + (LE(|s|, 2) + s);
      }
    }

    /** buf_alloc, as the parser uses it. */
    method GetBytes(len: nat) returns (r: Option<seq<Byte>>)
      requires Valid()
      modifies this`p
      ensures Valid() && r == Take(old(Reading()), len) && Reading() == Skip(old(Reading()), len)
    {
      var ok := CheckSize(len);
      if !ok { return None; }
      r := Some(data[p..p + len]);
      SliceOfSlice(data[..], sp, ep, p - sp, len);
      assert data[sp..ep] == data[..][sp..ep] && data[p..p + len] == data[..][p..p + len];
      p := p + len;
    }

    /** buf_get_int8, 16, 32 and 64: k is 1, 2, 4 or 8. */
    method GetInt(k: nat) returns (v: nat)
      requires Valid()
      modifies this`p
      ensures Valid() && v == Int(old(Reading()), k) && Reading() == Skip(old(Reading()), k)
    {
      var b := GetBytes(k);
      return if b.Some? then UnLE(b.value) else 0;
    }
  }
}
