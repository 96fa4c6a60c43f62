/** The block-rounded in-memory file of fs/ramfs2.c. */
module RamFile {
  import opened Bytes

  /** Contents c with the bytes d written at off; what lies between the old end and off reads as zero. */
  function Spliced(c: seq<Byte>, off: nat, d: seq<Byte>): seq<Byte> {
    if d == [] then c
    else
      (if off <= |c| then c[..off] else c + Zeros(off - |c|)) + d
      + (if off + |d| <= |c| then c[off + |d|..] else [])
  }

  function Resized(c: seq<Byte>, n: nat): seq<Byte> {
    if n <= |c| then c[..n] else c + Zeros(n - |c|)
  }

  function Min(a: nat, b: nat): nat { if a < b then a else b }

  function Slice(c: seq<Byte>, off: nat, count: nat): seq<Byte> {
    c[Min(off, |c|)..Min(off + count, |c|)]
  }

  /** The file as an endless byte string that is zero past its end. */
  function ByteAt(c: seq<Byte>, k: nat): Byte { if k < |c| then c[k] else 0 }

  function RoundUp(size: nat, blksize: nat): (r: nat)
    requires blksize > 0
    ensures size <= r < size + blksize && r % blksize == 0
  {
    Multiple(Blocks(size, blksize), blksize);
    assert size == size / blksize * blksize + size % blksize;
    assert (size / blksize + 1) * blksize == size / blksize * blksize + blksize;
    Blocks(size, blksize) * blksize
  }

  lemma Multiple(x: nat, d: nat)
    requires d > 0
    ensures x * d % d == 0
  {
    assert (x * d) / d * d + x * d % d == x * d;
    AtMost(x, x * d / d, d);
    AtMost(x * d / d, x, d);
  }

  lemma AtMost(x: nat, y: nat, d: nat)
    requires x * d < y * d + d
    ensures x * d <= y * d
  {
    if x > y {
      var e := x - y - 1;
      assert x * d == y * d + d + e * d;
    } else {
      var e := y - x;
      assert y * d == x * d + e * d;
    }
  }

  function Blocks(size: nat, blksize: nat): nat
    requires blksize > 0
  {
    size / blksize + if size % blksize != 0 then 1 else 0
  }

  lemma RoundUpGrows(a: nat, b: nat, blksize: nat)
    requires blksize > 0 && a <= b
    ensures RoundUp(a, blksize) <= RoundUp(b, blksize)
  {
    AtMost(Blocks(a, blksize), Blocks(b, blksize), blksize);
  }

  class File {
    const blksize: nat
    var data: array<Byte>  // of length 0 where the source has NULL
    var length: nat

    ghost predicate Valid()
      reads this, data
    {
      blksize > 0 && length <= RoundUp(length, blksize) <= data.Length < 0x8000_0000
    }

    ghost function Contents(): (c: seq<Byte>)
      reads this, data
      requires Valid()
    {
      data[..length]
    }

    constructor (blksize: nat)
      requires blksize > 0
      ensures Valid() && this.blksize == blksize && Contents() == [] && fresh(data)
    {
      this.blksize := blksize;
      data := new Byte[0];
      length := 0;
    }

    /** file_truncate: what realloc adds is arbitrary, and mem says whether it finds memory. The rounded size is a C
        int; for a negative one realloc finds none. */
    method Truncate(size: nat, mem: bool) returns (ok: bool)
      requires blksize > 0 && RoundUp(size, blksize) < 0x1_0000_0000
      modifies this`data
      ensures ok <==> size == 0 || (mem && RoundUp(size, blksize) < 0x8000_0000)
      ensures data == old(data) || fresh(data)
      ensures !ok ==> data == old(data)
      ensures ok ==> data.Length == if size == 0 then 0 else RoundUp(size, blksize)
      ensures ok ==> forall k :: 0 <= k < data.Length && k < old(data.Length) ==> data[k] == old(data[k])
    {
      if size == 0 {
        data := new Byte[0];
        return true;
      }
      var n := (size / blksize + if size % blksize != 0 then 1 else 0) * blksize;
      assert n == RoundUp(size, blksize);
      if !mem || n >= 0x8000_0000 { return false; }
      var buf := new Byte[n];
      for k := 0 to Min(n, data.Length)
        invariant data == old(data)
        invariant forall j :: 0 <= j < k ==> buf[j] == data[j]
      {
        buf[k] := data[k];
      }
      data := buf;
      return true;
    }

    method Fill(lo: nat, hi: nat)
      requires lo <= hi <= data.Length
      modifies data
      ensures data[..] == old(data[..lo]) + Zeros(hi - lo) + old(data[hi..])
    {
      for k := lo to hi
        invariant data[..] == old(data[..lo]) + Zeros(k - lo) + old(data[k..])
      {
        data[k] := 0;
        assert data[..] == old(data[..lo]) + Zeros(k + 1 - lo) + old(data[k + 1..]);
      }
    }

    method Copy(off: nat, src: seq<Byte>)
      requires off + |src| <= data.Length
      modifies data
      ensures data[..] == old(data[..off]) + src + old(data[off + |src|..])
    {
      for k := 0 to |src|
        invariant data[..] == old(data[..off]) + src[..k] + old(data[off + k..])
      {
        data[off + k] := src[k];
        assert data[..] == old(data[..off]) + src[..k + 1] + old(data[off + k + 1..]);
      }
    }

    method Read(offset: nat, count: nat) returns (bytes: seq<Byte>)
      requires Valid() && count < 0x8000_0000 && offset <= length + 0x8000_0000
      ensures bytes == Slice(Contents(), offset, count)
      ensures |bytes| == if offset >= length then 0 else Min(count, length - offset)
      ensures forall k :: 0 <= k < |bytes| ==> bytes[k] == Contents()[offset + k]
    {
      var n := count;
      if length < offset + count { n := length - offset; }
      if n < 0 { n := 0; }
      if n == 0 { return []; }
      return data[offset..offset + n];
    }

    /** rfs_write. When the bytes do not fit the file, the buffer is reallocated first; the branch that then
        shortens the write is never taken. */
    method Write(offset0: nat, bytes: seq<Byte>, append: bool, mem: bool) returns (ok: bool, n: nat)
      requires Valid() && |bytes| < 0x8000_0000
      requires var end := (if append then length else offset0) + |bytes|;
        end > length ==> RoundUp(end, blksize) < 0x1_0000_0000
      modifies this, data
      ensures Valid() && (data == old(data) || fresh(data))
      ensures var off := if append then old(length) else offset0;
        && (!ok <==> off + |bytes| > old(length) && !(mem && RoundUp(off + |bytes|, blksize) < 0x8000_0000))
        && (ok ==> n == |bytes| && Contents() == Spliced(old(Contents()), off, bytes))
        && (!ok ==> n == 0 && Contents() == old(Contents()))
    {
      var offset := if append then length else offset0;
      ghost var c := Contents();
      n := |bytes|;
      if length < offset + n {
        ok := Extend(offset, n, mem);
        if !ok { return false, 0; }
      }
      if n != 0 { Copy(offset, bytes); }
      assert n != 0 ==> Contents() == Spliced(c, offset, bytes);
      return true, n;
    }

    /** The part of rfs_write under the lock: the buffer grows, and with it the length, over zeros up to the offset. */
    method Extend(offset: nat, n: nat, mem: bool) returns (ok: bool)
      requires Valid() && length < offset + n && RoundUp(offset + n, blksize) < 0x1_0000_0000
      modifies this, data
      ensures Valid() && (data == old(data) || fresh(data))
      ensures ok <==> mem && RoundUp(offset + n, blksize) < 0x8000_0000
      ensures !ok || n == 0 ==> Contents() == old(Contents())
      ensures ok && n != 0 ==> length == offset + n
      ensures ok && n != 0 ==>
        var c := old(Contents()); data[..offset] == if offset <= |c| then c[..offset] else c + Zeros(offset - |c|)
    {
      ghost var c := Contents();
      RoundUpGrows(length, offset + n, blksize);
      ok := Truncate(offset + n, mem);
      if !ok { return; }
      assert offset + n <= data.Length;
      assert data[..length] == c;
      if n != 0 {
        if length < offset { Fill(length, offset); }
        assert data[..Min(length, offset)] == c[..Min(length, offset)];
        assert length < offset ==> data[..offset] == c + Zeros(offset - |c|);
        length := offset + n;
      }
    }

    /** The error path of rfs_wstat asks for the old size again, and goes on with whatever it has. */
    method GoBack(mem: bool)
      requires Valid()
      modifies this`data
      ensures Valid() && (data == old(data) || fresh(data)) && Contents() == old(Contents())
    {
      ghost var c := Contents();
      var _ := Truncate(length, mem);
      assert data[..length] == c;
    }

    lemma Kept(c: seq<Byte>, n: nat)
      requires n <= |c| && n <= data.Length && forall k :: 0 <= k < n ==> data[k] == c[k]
      ensures data[..][..n] == c[..n]
    {
    }

    /** The length part of rfs_wstat; mem and mem2 answer for the two reallocations it may ask for. */
    method SetLength(len: nat, mem: bool, mem2: bool) returns (ok: bool)
      requires Valid() && RoundUp(len, blksize) < 0x1_0000_0000
      modifies this, data
      ensures Valid() && (data == old(data) || fresh(data))
      ensures ok <==> len == 0 || (mem && RoundUp(len, blksize) < 0x8000_0000)
      ensures Contents() == if ok then Resized(old(Contents()), len) else old(Contents())
    {
      var oldlength := length;
      ghost var c := Contents();
      ok := Truncate(len, mem);
      if !ok {
        length := oldlength;
        GoBack(mem2);
        return false;
      }
      Kept(c, Min(len, length));
      Reach(len, c);
      return true;
    }

    /** The buffer covers the new length; what the old one did not reach becomes zero. */
    method Reach(len: nat, ghost c: seq<Byte>)
      requires blksize > 0 && len <= RoundUp(len, blksize) <= data.Length < 0x8000_0000
      requires length == |c| && data[..][..Min(len, length)] == c[..Min(len, length)]
      modifies this`length, data
      ensures Valid() && Contents() == Resized(c, len)
    {
      if length < len { Fill(length, len); }
      length := len;
    }
  }

  datatype Op = Write(off: nat, bytes: seq<Byte>) | Append(bytes: seq<Byte>) | SetLength(len: nat)

  function Applied(c: seq<Byte>, op: Op): seq<Byte> {
    match op
    case Write(off, d) => Spliced(c, off, d)
    case Append(d) => Spliced(c, |c|, d)
    case SetLength(n) => Resized(c, n)
  }

  /** The contents after a run of operations on a new file. */
  function After(ops: seq<Op>): seq<Byte> {
    if ops == [] then [] else Applied(After(ops[..|ops| - 1]), ops[|ops| - 1])
  }

  /** Where operation i of the run starts to write; a length change "writes" zeros from the new end on. */
  function Start(ops: seq<Op>, i: nat): nat
    requires i < |ops|
  {
    match ops[i]
    case Write(off, _) => off
    case Append(_) => |After(ops[..i])|
    case SetLength(n) => n
  }

  ghost predicate Determines(ops: seq<Op>, i: nat, k: nat) {
    && i < |ops|
    && Start(ops, i) <= k
    && (ops[i].SetLength? || k < Start(ops, i) + |ops[i].bytes|)
  }

  function Determined(ops: seq<Op>, i: nat, k: nat): Byte
    requires Determines(ops, i, k)
  {
    if ops[i].SetLength? then 0 else ops[i].bytes[k - Start(ops, i)]
  }

  lemma ByteAfterOp(c: seq<Byte>, op: Op, k: nat)
    ensures var start := match op case Write(off, _) => off case Append(_) => |c| case SetLength(n) => n;
      ByteAt(Applied(c, op), k) ==
        if op.SetLength? then (if start <= k then 0 else ByteAt(c, k))
        else if start <= k < start + |op.bytes| then op.bytes[k - start] else ByteAt(c, k)
  {
  }

  /** Over any run, a byte of the file is what the last operation that reached it put there: holes and tails
      that were cut off and grew back read as zero, whatever an earlier write left in the block. */
  lemma {:induction false} LastOperationWins(ops: seq<Op>, i: nat, k: nat)
    requires Determines(ops, i, k) && forall j :: i < j < |ops| ==> !Determines(ops, j, k)
    ensures ByteAt(After(ops), k) == Determined(ops, i, k)
  {
    var pre, last := ops[..|ops| - 1], |ops| - 1;
    ByteAfterOp(After(pre), ops[last], k);
    assert ops[..last] == pre;
    if i < last {
      assert !Determines(ops, last, k);
      forall j | i <= j < |pre| ensures Determines(pre, j, k) <==> Determines(ops, j, k)
      { DeterminesBefore(ops, j, k); }
      DeterminesBefore(ops, i, k);
      LastOperationWins(pre, i, k);
    }
  }

  /** Later operations change nothing about an earlier one. */
  lemma {:induction false} DeterminesBefore(ops: seq<Op>, i: nat, k: nat)
    requires i + 1 < |ops|
    ensures var pre := ops[..|ops| - 1];
      && (Determines(pre, i, k) <==> Determines(ops, i, k))
      && (Determines(pre, i, k) ==> Determined(pre, i, k) == Determined(ops, i, k))
  {
    assert ops[..|ops| - 1][..i] == ops[..i];
  }

  lemma {:induction false} UntouchedIsZero(ops: seq<Op>, k: nat)
    requires forall j :: 0 <= j < |ops| ==> !Determines(ops, j, k)
    ensures ByteAt(After(ops), k) == 0
  {
    if ops != [] {
      var pre, last := ops[..|ops| - 1], |ops| - 1;
      ByteAfterOp(After(pre), ops[last], k);
      assert ops[..last] == pre && !Determines(ops, last, k);
      forall j | 0 <= j < |pre| ensures !Determines(pre, j, k) { DeterminesBefore(ops, j, k); }
      UntouchedIsZero(pre, k);
    }
  }

  /** The operation leaves the file at least k + 1 bytes long. */
  ghost predicate Covers(ops: seq<Op>, i: nat, k: nat) {
    i < |ops| && if ops[i].SetLength? then k < ops[i].len else ops[i].bytes != [] && k < Start(ops, i) + |ops[i].bytes|
  }

  /** And it ends the file at k or before. */
  ghost predicate CutsOff(ops: seq<Op>, i: nat, k: nat) { i < |ops| && ops[i].SetLength? && ops[i].len <= k }

  lemma {:induction false} LengthAfterOp(c: seq<Byte>, op: Op)
    ensures |Applied(c, op)| ==
      match op
      case Write(off, d) => if d == [] then |c| else Max(|c|, off + |d|)
      case Append(d) => |c| + |d|
      case SetLength(n) => n
  {
  }

  function Max(a: nat, b: nat): nat { if a < b then b else a }

  /** No length change after the operation has cut off what it left. */
  ghost predicate Leaves(ops: seq<Op>, i: nat, k: nat) {
    Covers(ops, i, k) && forall j: nat :: i < j ==> !CutsOff(ops, j, k)
  }

  /** Over any run, a byte is inside the file just when some operation has reached past it and no length change since
      has cut it off. */
  lemma {:induction false} InsideExactly(ops: seq<Op>, k: nat)
    ensures k < |After(ops)| <==> exists i: nat :: Leaves(ops, i, k)
  {
    if ops != [] {
      var pre, last := ops[..|ops| - 1], |ops| - 1;
      assert ops[..last] == pre;
      LengthAfterOp(After(pre), ops[last]);
      InsideExactly(pre, k);
      LeavesLast(ops, k);
    }
  }

  lemma LeavesLast(ops: seq<Op>, k: nat)
    requires ops != []
    ensures var pre, last := ops[..|ops| - 1], |ops| - 1;
      (exists i: nat :: Leaves(ops, i, k)) <==>
      Covers(ops, last, k) || ((exists i: nat :: Leaves(pre, i, k)) && !CutsOff(ops, last, k))
  {
    var pre, last := ops[..|ops| - 1], |ops| - 1;
    if Covers(ops, last, k) { assert Leaves(ops, last, k); }
    forall i: nat | i < last ensures Leaves(ops, i, k) <==> Leaves(pre, i, k) && !CutsOff(ops, last, k) {
      CoversBefore(ops, i, k);
      if Leaves(ops, i, k) {
        forall j: nat | i < j ensures !CutsOff(pre, j, k) {
          assert j < last ==> pre[j] == ops[j] && !CutsOff(ops, j, k);
        }
      } else if Covers(ops, i, k) && !CutsOff(ops, last, k) {
        var j: nat :| i < j && CutsOff(ops, j, k);
        assert CutsOff(pre, j, k);
      }
    }
    forall i: nat | Leaves(pre, i, k) ensures i < last { }
  }

  lemma CoversBefore(ops: seq<Op>, i: nat, k: nat)
    requires i + 1 < |ops|
    ensures Covers(ops[..|ops| - 1], i, k) <==> Covers(ops, i, k)
  {
    assert ops[..|ops| - 1][..i] == ops[..i];
  }
}
