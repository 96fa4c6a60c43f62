/** The overlapping block mode of libnpauth/msgs.c and the ticket codec built on it. DES under a fixed key is
    any pair of functions on 8-byte blocks that undo each other. */
module Cipher {
  import opened Bytes

  type Block = b: seq<Byte> | |b| == 8 witness [0, 0, 0, 0, 0, 0, 0, 0]

  datatype Des = Des(enc: Block -> Block, dec: Block -> Block)

  ghost predicate Inverse(des: Des) { forall b: Block :: des.dec(des.enc(b)) == b }

  /** The buffer with the 8 bytes at offset o replaced by their image under f. */
  function BlockAt(s: seq<Byte>, o: nat, f: Block -> Block): (r: seq<Byte>)
    requires o + 8 <= |s|
    ensures |r| == |s|
  {
    s[..o] + f(s[o..o + 8]) + s[o + 8..]
  }

  /** f has been called on the 8 bytes at offset o, and on nothing else. */
  ghost predicate OneRound(before: seq<Byte>, after: seq<Byte>, o: nat, f: Block -> Block) {
    && o + 8 <= |before| == |after|
    && after[o..o + 8] == f(before[o..o + 8]) && after[..o] == before[..o] && after[o + 8..] == before[o + 8..]
  }

  lemma BlockAtOnly(s: seq<Byte>, o: nat, f: Block -> Block)
    requires o + 8 <= |s|
    ensures OneRound(s, BlockAt(s, o, f), o, f)
  {
  }

  lemma BlockUndone(s: seq<Byte>, o: nat, des: Des)
    requires Inverse(des) && o + 8 <= |s|
    ensures BlockAt(BlockAt(s, o, des.enc), o, des.dec) == s
  {
    var t := BlockAt(s, o, des.enc);
    assert t[o..o + 8] == des.enc(s[o..o + 8]);
    assert t[..o] == s[..o] && t[o + 8..] == s[o + 8..];
    assert s == s[..o] + s[o..o + 8] + s[o + 8..];
  }

  // ---- the calls of DES, one by one

  /** Each block lies within n bytes. */
  ghost predicate Inside(offsets: seq<nat>, n: nat) { forall i :: 0 <= i < |offsets| ==> offsets[i] + 8 <= n }

  /** The buffer after the calls at these offsets, in this order. */
  ghost function Rounds(s: seq<Byte>, offsets: seq<nat>, f: Block -> Block): (r: seq<Byte>)
    requires Inside(offsets, |s|)
    ensures |r| == |s|
  {
    if offsets == [] then s
    else BlockAt(Rounds(s, offsets[..|offsets| - 1], f), offsets[|offsets| - 1], f)
  }

  lemma {:induction false} NextRound(s: seq<Byte>, offsets: seq<nat>, i: nat, f: Block -> Block)
    requires Inside(offsets, |s|) && i < |offsets|
    ensures Rounds(s, offsets[..i + 1], f) == BlockAt(Rounds(s, offsets[..i], f), offsets[i], f)
  {
    assert offsets[..i + 1][..i] == offsets[..i];
  }

  /** Each call changes the 8 bytes at its offset to their image under f, and nothing else. */
  lemma {:induction false} RoundByRound(s: seq<Byte>, offsets: seq<nat>, i: nat, f: Block -> Block)
    requires Inside(offsets, |s|) && i < |offsets|
    ensures OneRound(Rounds(s, offsets[..i], f), Rounds(s, offsets[..i + 1], f), offsets[i], f)
    ensures Rounds(s, offsets[..0], f) == s && offsets[..|offsets|] == offsets
  {
    NextRound(s, offsets, i, f);
    BlockAtOnly(Rounds(s, offsets[..i], f), offsets[i], f);
  }

  /** Where the blocks of a buffer of n bytes start. */
  ghost predicate BlockStart(n: nat, o: nat)
    requires n >= 8
  {
    || (o % 7 == 0 && o / 7 < (n - 1) / 7)
    || ((n - 1) % 7 != 0 && o == n - 8)
  }

  /** Every block lies inside the n bytes, and every byte, the last one included, lies inside a block. */
  lemma EveryByteCovered(n: nat, j: nat)
    requires n >= 8 && j < n
    ensures exists o: nat :: BlockStart(n, o) && o <= j < o + 8
    ensures forall o: nat :: BlockStart(n, o) ==> o + 8 <= n
  {
    var k := (n - 1) / 7;
    if j / 7 < k {
      assert BlockStart(n, j / 7 * 7);
    } else if (n - 1) % 7 != 0 {
      assert BlockStart(n, n - 8);
    } else {
      assert BlockStart(n, 7 * (k - 1));
    }
  }

  /** The offsets of the first k calls. */
  function Sevens(k: nat): (r: seq<nat>)
    ensures |r| == k && forall i :: 0 <= i < k ==> r[i] == 7 * i
  {
    seq(k, i requires 0 <= i < k => 7 * i)
  }

  /** The offsets at which _encrypt calls DES on n bytes. */
  function Starts(n: nat): (r: seq<nat>)
    requires n >= 8
    ensures Inside(r, n)
  {
    if (n - 1) % 7 != 0 then Sevens((n - 1) / 7) + [n - 8] else Sevens((n - 1) / 7)
  }

  /** They are the block starts, each once, from the front to the back. */
  lemma StartsExactly(n: nat)
    requires n >= 8
    ensures forall o: nat :: o in Starts(n) <==> BlockStart(n, o)
    ensures forall i, j :: 0 <= i < j < |Starts(n)| ==> Starts(n)[i] < Starts(n)[j]
  {
    forall o: nat | BlockStart(n, o) ensures o in Starts(n) {
      if o % 7 == 0 && o / 7 < (n - 1) / 7 {
        assert Starts(n)[o / 7] == o;
      } else {
        assert Starts(n)[(n - 1) / 7] == o;
      }
    }
  }

  lemma LastStart(n: nat)
    requires n >= 8
    ensures Starts(n) != [] && Starts(n)[|Starts(n)| - 1] == n - 8 && (n == 8 ==> |Starts(n)| == 1)
  {
  }

  function Reversed(offsets: seq<nat>): (r: seq<nat>)
    ensures |r| == |offsets| && forall i :: 0 <= i < |r| ==> r[i] == offsets[|offsets| - 1 - i]
  {
    seq(|offsets|, i requires 0 <= i < |offsets| => offsets[|offsets| - 1 - i])
  }

  ghost function Encrypted(s: seq<Byte>, des: Des): (r: seq<Byte>)
    requires |s| >= 8
    ensures |r| == |s|
  {
    Rounds(s, Starts(|s|), des.enc)
  }

  ghost function Decrypted(s: seq<Byte>, des: Des): (r: seq<Byte>)
    requires |s| >= 8
    ensures |r| == |s|
  {
    Rounds(s, Reversed(Starts(|s|)), des.dec)
  }

  lemma {:induction false} FirstRound(s: seq<Byte>, o: nat, offsets: seq<nat>, f: Block -> Block)
    requires Inside(offsets, |s|) && o + 8 <= |s|
    ensures Inside([o] + offsets, |s|) && Rounds(s, [o] + offsets, f) == Rounds(BlockAt(s, o, f), offsets, f)
    decreases |offsets|
  {
    var all, m := [o] + offsets, |offsets|;
    NextRound(s, all, m, f);
    assert all[..m + 1] == all && offsets[..m] == offsets;
    if m == 0 {
      assert all[..0] == [];
    } else {
      assert all[..m] == [o] + offsets[..m - 1];
      FirstRound(s, o, offsets[..m - 1], f);
      NextRound(BlockAt(s, o, f), offsets, m - 1, f);
    }
  }

  /** The calls of DES are undone in reverse order. */
  lemma {:induction false} RoundsUndone(s: seq<Byte>, offsets: seq<nat>, des: Des)
    requires Inverse(des) && Inside(offsets, |s|)
    ensures Rounds(Rounds(s, offsets, des.enc), Reversed(offsets), des.dec) == s
    decreases |offsets|
  {
    if offsets != [] {
      var m := |offsets| - 1;
      var o, t := offsets[m], Rounds(s, offsets[..m], des.enc);
      assert Reversed(offsets) == [o] + Reversed(offsets[..m]);
      BlockUndone(t, o, des);
      FirstRound(BlockAt(t, o, des.enc), o, Reversed(offsets[..m]), des.dec);
      RoundsUndone(s, offsets[..m], des);
    }
  }

  /** _decrypt undoes _encrypt, whatever the length and whatever the key. */
  lemma DecryptUndoesEncrypt(s: seq<Byte>, des: Des)
    requires Inverse(des) && |s| >= 8
    ensures Decrypted(Encrypted(s, des), des) == s
  {
    RoundsUndone(s, Starts(|s|), des);
  }

  lemma RoundEnds(before: seq<Byte>, after: seq<Byte>, f: Block -> Block)
    requires |before| >= 8 && OneRound(before, after, |before| - 8, f)
    ensures after[|before| - 8..] == f(before[|before| - 8..]) && after[..|before| - 8] == before[..|before| - 8]
    ensures |before| == 8 ==> after == f(before)
  {
    var n := |before|;
    assert before[n - 8..n] == before[n - 8..] && after[n - 8..n] == after[n - 8..];
    if n == 8 { assert before[0..] == before && after[0..] == after; }
  }

  /** What _encrypt leaves in the last 8 bytes is DES of what stood there before its last call; of 8 bytes it makes DES
      of them. */
  lemma {:induction false} LastBlock(s: seq<Byte>, des: Des)
    requires |s| >= 8
    ensures Starts(|s|) != []
    ensures var before, after := Rounds(s, Starts(|s|)[..|Starts(|s|)| - 1], des.enc), Encrypted(s, des);
      after[|s| - 8..] == des.enc(before[|s| - 8..]) && after[..|s| - 8] == before[..|s| - 8]
    ensures |s| == 8 ==> Encrypted(s, des) == des.enc(s)
  {
    LastStart(|s|);
    LastOf(s, Starts(|s|), des.enc);
  }

  lemma {:induction false} LastOf(s: seq<Byte>, offsets: seq<nat>, f: Block -> Block)
    requires |s| >= 8 && Inside(offsets, |s|) && offsets != [] && offsets[|offsets| - 1] == |s| - 8
    ensures var before, after := Rounds(s, offsets[..|offsets| - 1], f), Rounds(s, offsets, f);
      && after[|s| - 8..] == f(before[|s| - 8..]) && after[..|s| - 8] == before[..|s| - 8]
      && (|s| == 8 && |offsets| == 1 ==> after == f(s))
  {
    var m := |offsets| - 1;
    RoundByRound(s, offsets, m, f);
    assert offsets[..m + 1] == offsets;
    RoundEnds(Rounds(s, offsets[..m], f), Rounds(s, offsets, f), f);
    if |offsets| == 1 { assert offsets[..m] == []; }
  }

  /** One DES_ecb_encrypt call on the block at offset o, in place. */
  method Crypt(buf: array<Byte>, o: nat, f: Block -> Block)
    requires o + 8 <= buf.Length
    modifies buf
    ensures buf[..] == BlockAt(old(buf[..]), o, f)
    ensures buf[o..o + 8] == f(old(buf[o..o + 8]))
    ensures buf[..o] == old(buf[..o]) && buf[o + 8..] == old(buf[o + 8..])
  {
    ghost var was := buf[..];
    var out := f(buf[o..o + 8]);
    for i := 0 to 8
      invariant buf[..] == was[..o] + out[..i] + was[o + i..]
    {
      buf[o + i] := out[i];
      assert buf[..] == was[..o] + out[..i + 1] + was[o + i + 1..];
    }
  }

  /** The next of the calls. */
  method CryptNext(buf: array<Byte>, o: nat, f: Block -> Block, ghost was: seq<Byte>, ghost offsets: seq<nat>,
                   ghost i: nat)
    requires buf.Length == |was| && Inside(offsets, |was|) && i < |offsets| && offsets[i] == o
    requires buf[..] == Rounds(was, offsets[..i], f)
    modifies buf
    ensures buf[..] == Rounds(was, offsets[..i + 1], f)
  {
    NextRound(was, offsets, i, f);
    Crypt(buf, o, f);
  }

  /** _encrypt. */
  method Encrypt(buf: array<Byte>, des: Des) returns (ret: int)
    modifies buf
    ensures ret == if buf.Length < 8 then -1 else 0
    ensures buf.Length < 8 ==> buf[..] == old(buf[..])
    ensures buf.Length >= 8 ==> buf[..] == Encrypted(old(buf[..]), des)
    ensures buf.Length == 8 ==> buf[..] == des.enc(old(buf[..]))
  {
    if buf.Length < 8 { return -1; }
    LastBlock(buf[..], des);
    EncryptBlocks(buf, des);
    return 0;
  }

  method EncryptBlocks(buf: array<Byte>, des: Des)
    requires buf.Length >= 8
    modifies buf
    ensures buf[..] == Rounds(old(buf[..]), Starts(buf.Length), des.enc)
  {
    ghost var offsets, was := Starts(buf.Length), buf[..];
    var n := buf.Length - 1;
    var r := n % 7;
    n := n / 7;
    var p, i := 0, 0;
    while i < n
      invariant 0 <= i <= n && p == 7 * i
      invariant buf[..] == Rounds(was, offsets[..i], des.enc)
    {
      CryptNext(buf, p, des.enc, was, offsets, i);
      p := p + 7;
      i := i + 1;
    }
    if r != 0 { CryptNext(buf, p - 7 + r, des.enc, was, offsets, n); }
    assert offsets[..|offsets|] == offsets;
  }

  /** _decrypt. */
  method Decrypt(buf: array<Byte>, des: Des) returns (ret: int)
    modifies buf
    ensures ret == if buf.Length < 8 then -1 else 0
    ensures buf.Length < 8 ==> buf[..] == old(buf[..])
    ensures buf.Length >= 8 ==> buf[..] == Decrypted(old(buf[..]), des)
  {
    if buf.Length < 8 { return -1; }
    DecryptBlocks(buf, des);
    return 0;
  }

  method DecryptBlocks(buf: array<Byte>, des: Des)
    requires buf.Length >= 8
    modifies buf
    ensures buf[..] == Rounds(old(buf[..]), Reversed(Starts(buf.Length)), des.dec)
  {
    ghost var offsets, was := Reversed(Starts(buf.Length)), buf[..];
    var n := buf.Length - 1;
    var r := n % 7;
    n := n / 7;
    var p := n * 7;
    ghost var j := if r != 0 then 1 else 0;
    BackStarts(buf.Length, n, r, j);
    assert offsets[..0] == [];
    if r != 0 { CryptNext(buf, p - 7 + r, des.dec, was, offsets, 0); }
    DecryptRest(buf, n, des, was, offsets, j);
    assert offsets[..|offsets|] == offsets;
  }

  lemma BackStarts(len: nat, n: nat, r: nat, j: nat)
    requires len >= 8 && n == (len - 1) / 7 && r == (len - 1) % 7 && j == if r != 0 then 1 else 0
    ensures var offsets := Reversed(Starts(len));
      && |offsets| == n + j && (r != 0 ==> offsets[0] == 7 * n - 7 + r) && Inside(offsets, len)
      && forall k :: j <= k < n + j ==> offsets[k] == 7 * (n + j - 1 - k)
  {
  }

  /** The loop of _decrypt. */
  method DecryptRest(buf: array<Byte>, n: nat, des: Des, ghost was: seq<Byte>, ghost offsets: seq<nat>, ghost j: nat)
    requires buf.Length == |was| && Inside(offsets, |was|) && |offsets| == n + j
    requires forall k :: j <= k < n + j ==> offsets[k] == 7 * (n + j - 1 - k)
    requires buf[..] == Rounds(was, offsets[..j], des.dec)
    modifies buf
    ensures buf[..] == Rounds(was, offsets[..n + j], des.dec)
  {
    var p, i := n * 7, 0;
    ghost var k := j;
    while i < n
      invariant 0 <= i <= n && p == 7 * (n - i) && k == i + j
      invariant buf[..] == Rounds(was, offsets[..k], des.dec)
    {
      p := p - 7;
      assert offsets[k] == p;
      CryptNext(buf, p, des.dec, was, offsets, k);
      i, k := i + 1, k + 1;
    }
  }
}

/** encTicket and decTicket: 72 bytes, type[1] ch[8] idc[28] idr[28] key[7]. */
module Ticket {
  import opened Bytes
  import opened Cipher

  /** A C string without its terminating NUL. */
  type CString = s: seq<Byte> | 0 !in s witness []

  datatype Ticket = Ticket(typ: Byte, ch: seq<Byte>, idc: CString, idr: CString, key: seq<Byte>)

  const PadLen := 28
  const TicketLen := 72

  ghost predicate WellSized(t: Ticket) { |t.ch| == 8 && |t.key| == 7 }

  function Padded(s: CString, n: nat): (r: seq<Byte>)
    requires |s| <= n
    ensures |r| == n
  {
    s + Zeros(n - |s|)
  }

  /** The plain text of a ticket whose two names leave room for a NUL. */
  function Plain(t: Ticket): (r: seq<Byte>)
    requires WellSized(t) && |t.idc| < PadLen && |t.idr| < PadLen
    ensures |r| == TicketLen
  {
    [t.typ] + t.ch + Padded(t.idc, PadLen) + Padded(t.idr, PadLen) + t.key
  }

  /** Where the fields of a ticket stand, the names with NULs behind them. */
  lemma PlainFields(t: Ticket)
    requires WellSized(t) && |t.idc| < PadLen && |t.idr| < PadLen
    ensures var s := Plain(t);
      && s[0] == t.typ && s[1..9] == t.ch && s[65..72] == t.key
      && s[9..9 + |t.idc|] == t.idc && (forall i :: 9 + |t.idc| <= i < 37 ==> s[i] == 0)
      && s[37..37 + |t.idr|] == t.idr && (forall i :: 37 + |t.idr| <= i < 65 ==> s[i] == 0)
  {
    var s := Plain(t);
    assert s[9..37] == Padded(t.idc, PadLen) && s[37..65] == Padded(t.idr, PadLen);
    assert s[9..37][..|t.idc|] == t.idc && s[37..65][..|t.idr|] == t.idr;
    forall i | 9 + |t.idc| <= i < 37 ensures s[i] == 0 { assert s[i] == s[9..37][i - 9]; }
    forall i | 37 + |t.idr| <= i < 65 ensures s[i] == 0 { assert s[i] == s[37..65][i - 37]; }
  }

  /** The C string that starts at offset p, up to the first NUL or the end of the buffer. */
  function StringAt(s: seq<Byte>, p: nat): (r: CString)
    requires p <= |s|
    ensures p + |r| <= |s| && r == s[p..p + |r|]
    ensures p + |r| < |s| ==> s[p + |r|] == 0
    decreases |s| - p
  {
    if p == |s| || s[p] == 0 then [] else [s[p]] + StringAt(s, p + 1)
  }

  method EncFixed(buf: array<Byte>, p: nat, r: seq<Byte>) returns (q: nat)
    requires p + |r| <= buf.Length
    modifies buf
    ensures q == p + |r|
    ensures buf[..] == old(buf[..])[..p] + r + old(buf[..])[q..]
  {
    ghost var was := buf[..];
    for i := 0 to |r|
      invariant buf[..] == was[..p] + r[..i] + was[p + i..]
    {
      buf[p + i] := r[i];
      assert buf[..] == was[..p] + r[..i + 1] + was[p + i + 1..];
    }
    return p + |r|;
  }

  method EncPad(buf: array<Byte>, p: nat, sz: nat, r: CString) returns (ok: bool, q: nat)
    requires p + sz <= buf.Length
    modifies buf
    ensures ok <==> |r| < sz
    ensures ok ==> q == p + sz && buf[..] == old(buf[..])[..p] + Padded(r, sz) + old(buf[..])[q..]
    ensures !ok ==> buf[..] == old(buf[..])
  {
    if |r| >= sz { return false, p; }
    q := EncFixed(buf, p, Padded(r, sz));
    ok := true;
  }

  lemma StringAtStep(s: seq<Byte>, c: nat)
    requires c < |s| && s[c] != 0
    ensures |StringAt(s, c)| == 1 + |StringAt(s, c + 1)|
  {
  }

  /** decPad reads on from p while the bytes are not NUL, over at most sz bytes, and accepts when it stops at
      a NUL. When all sz bytes are not NUL it looks at the byte after the field. */
  method DecPad(buf: array<Byte>, p: nat, sz: nat) returns (ok: bool, q: nat)
    requires p + sz < buf.Length
    ensures q == p + sz
    ensures ok <==> |StringAt(buf[..], p)| <= sz
  {
    q := p + sz;
    var c, left := p, sz;
    ghost var s := buf[..];
    while buf[c] != 0 && left > 0
      invariant p <= c <= q && c + left == q
      invariant |StringAt(s, p)| == c - p + |StringAt(s, c)|
      decreases left
    {
      StringAtStep(s, c);
      c := c + 1;
      left := left - 1;
    }
    ok := buf[c] == 0;
  }

  method EncTicket(buf: array<Byte>, t: Ticket, des: Des) returns (ok: bool)
    requires buf.Length == TicketLen && WellSized(t)
    modifies buf
    ensures ok <==> |t.idc| < PadLen && |t.idr| < PadLen
    ensures ok ==> buf[..] == Encrypted(Plain(t), des)
  {
    buf[0] := t.typ;
    var p := EncFixed(buf, 1, t.ch);
    ok, p := EncPad(buf, p, PadLen, t.idc);
    if !ok { return; }
    ok, p := EncPad(buf, p, PadLen, t.idr);
    if !ok { return; }
    p := EncFixed(buf, p, t.key);
    assert buf[..] == Plain(t);
    var _ := Encrypt(buf, des);
  }

  /** What decTicket reads from the decrypted bytes. */
  function Opened(s: seq<Byte>): (r: Option<Ticket>)
    requires |s| == TicketLen
  {
    var idc, idr := StringAt(s, 9), StringAt(s, 37);
    if |idc| <= PadLen && |idr| <= PadLen then Some(Ticket(s[0], s[1..9], idc, idr, s[65..72])) else None
  }

  method DecTicket(buf: array<Byte>, des: Des) returns (r: Option<Ticket>)
    requires buf.Length == TicketLen
    modifies buf
    ensures buf[..] == Decrypted(old(buf[..]), des)
    ensures r == Opened(buf[..])
  {
    var _ := Decrypt(buf, des);
    var typ := buf[0];
    var ch := buf[1..9];
    var ok, p := DecPad(buf, 9, PadLen);
    if !ok { return None; }
    ok, p := DecPad(buf, p, PadLen);
    if !ok { return None; }
    return Some(Ticket(typ, ch, StringAt(buf[..], 9), StringAt(buf[..], 37), buf[p..p + 7]));
  }

  lemma {:induction false} PaddedReadsBack(pre: seq<Byte>, s: CString, n: nat, post: seq<Byte>)
    requires |s| < n
    ensures StringAt(pre + Padded(s, n) + post, |pre|) == s
    decreases |s|
  {
    var all := pre + Padded(s, n) + post;
    if |s| > 0 {
      assert 0 !in s[1..];
      assert all == (pre + [s[0]]) + Padded(s[1..], n - 1) + post;
      PaddedReadsBack(pre + [s[0]], s[1..], n - 1, post);
    }
  }

  lemma PlainOpens(t: Ticket)
    requires WellSized(t) && |t.idc| < PadLen && |t.idr| < PadLen
    ensures Opened(Plain(t)) == Some(t)
  {
    var c, r := Padded(t.idc, PadLen), Padded(t.idr, PadLen);
    var pre, s := [t.typ] + t.ch, Plain(t);
    assert s == pre + c + (r + t.key);
    PaddedReadsBack(pre, t.idc, PadLen, r + t.key);
    assert s == (pre + c) + r + t.key;
    PaddedReadsBack(pre + c, t.idr, PadLen, t.key);
    assert s[1..9] == t.ch && s[65..72] == t.key;
  }

  /** decTicket undoes encTicket, under every key, for names of fewer than 28 bytes. */
  lemma TicketRoundTrip(t: Ticket, des: Des)
    requires Inverse(des) && WellSized(t) && |t.idc| < PadLen && |t.idr| < PadLen
    ensures Opened(Decrypted(Encrypted(Plain(t), des), des)) == Some(t)
  {
    DecryptUndoesEncrypt(Plain(t), des);
    PlainOpens(t);
  }
}
