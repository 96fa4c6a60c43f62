/** The reader of libnpfs/conn.c: it cuts the byte stream of a connection into messages, whatever pieces the
    transport delivers the stream in. */
module Framing {
  import opened Bytes
  import opened Cbuf
  import opened Wire
  import opened Codec
  import opened Packets

  /** The message at the front of the bytes: not all there (or never, when the buffer cannot hold it), refused by the
      parser, or accepted with its size. */
  datatype Front = Partial | Bad | Good(size: nat, call: Fcall)

  /** A size with the top bit set is a negative int: smaller than any count of bytes, and refused. */
  function FrontOf(bytes: seq<Byte>, msize: nat, dotu: bool): Front {
    if |bytes| < 4 || msize < 4 then Partial
    else
      var size := UnLE(bytes[..4]);
      if size >= 0x8000_0000 then Bad
      else if |bytes| < size || msize < size then Partial
      else
        match Parse(bytes, dotu)
        case None => Bad
        case Some(p) => Good(size, p.call)
  }

  /** The bytes are not even the size field, or fewer than the message it announces, or that is more than the buffer
      holds, which then never comes to an end. */
  ghost predicate Waits(bytes: seq<Byte>, msize: nat) {
    |bytes| < 4 || msize < 4
    || (UnLE(bytes[..4]) < 0x8000_0000 && (UnLE(bytes[..4]) > |bytes| || UnLE(bytes[..4]) > msize))
  }

  /** What stands in front is whole, and np_deserialize does not take it; or its size is a negative C int. */
  ghost predicate Spoilt(bytes: seq<Byte>, msize: nat, dotu: bool) {
    && |bytes| >= 4 && msize >= 4
    && (UnLE(bytes[..4]) >= 0x8000_0000
        || (UnLE(bytes[..4]) <= |bytes| && UnLE(bytes[..4]) <= msize && Parse(bytes, dotu).None?))
  }

  /** The message is whole, fits the buffer, and np_deserialize makes this call of it. */
  ghost predicate Accepted(msg: seq<Byte>, call: Fcall, msize: nat, dotu: bool) {
    && 4 <= |msg| <= msize && |msg| < 0x8000_0000 && UnLE(msg[..4]) == |msg|
    && Parse(msg, dotu).Some? && Parse(msg, dotu).value.call == call
  }

  /** The reader waits, gives up or goes on for these reasons and no others. */
  lemma FrontExactly(bytes: seq<Byte>, msize: nat, dotu: bool)
    ensures FrontOf(bytes, msize, dotu).Partial? <==> Waits(bytes, msize)
    ensures FrontOf(bytes, msize, dotu).Bad? <==> Spoilt(bytes, msize, dotu)
    ensures FrontOf(bytes, msize, dotu).Good? ==>
      var front := FrontOf(bytes, msize, dotu);
      front.size <= |bytes| && Accepted(bytes[..front.size], front.call, msize, dotu)
  {
    if FrontOf(bytes, msize, dotu).Good? {
      var size := FrontOf(bytes, msize, dotu).size;
      FrontAlone(bytes, msize, dotu);
      FrontIsLonger(bytes, msize, dotu);
      assert bytes[..size][..4] == bytes[..4];
    }
  }

  lemma AcceptedFront(msg: seq<Byte>, call: Fcall, msize: nat, dotu: bool)
    requires Accepted(msg, call, msize, dotu)
    ensures FrontOf(msg, msize, dotu) == Good(|msg|, call)
  {
  }

  type Cutter = seq<Byte> -> Front

  function Cut(msize: nat, dotu: bool): Cutter { bytes => FrontOf(bytes, msize, dotu) }

  /** An accepted message is not empty; what is decided about the front stays so when more bytes come, and depends on
      nothing behind the message. */
  ghost predicate Steady(cut: Cutter) {
    && (forall a :: cut(a).Good? ==> 0 < cut(a).size <= |a|)
    && (forall a, tail {:trigger cut(a + tail)} :: !cut(a).Partial? ==> cut(a + tail) == cut(a))
    && (forall a {:trigger a[..cut(a).size]} :: cut(a).Good? ==> cut(a[..cut(a).size]) == cut(a))
  }

  /** The parser accepts no message that is too short to hold a type. */
  lemma AcceptedIsLonger(bytes: seq<Byte>, dotu: bool)
    requires |bytes| >= 4 && UnLE(bytes[..4]) <= |bytes| && Parse(bytes, dotu).Some?
    ensures UnLE(bytes[..4]) >= 5
  {
  }

  /** The parser looks at the message alone. */
  lemma ParseAlone(a: seq<Byte>, tail: seq<Byte>, dotu: bool)
    requires |a| >= 4 && UnLE(a[..4]) <= |a|
    ensures UnLE((a + tail)[..4]) == UnLE(a[..4]) && Parse(a + tail, dotu) == Parse(a, dotu)
  {
    assert (a + tail)[..4] == a[..4];
    var size := UnLE(a[..4]);
    if size >= 4 { assert (a + tail)[4..size] == a[4..size]; }
  }

  lemma FrontGrows(a: seq<Byte>, tail: seq<Byte>, msize: nat, dotu: bool)
    ensures !FrontOf(a, msize, dotu).Partial? ==> FrontOf(a + tail, msize, dotu) == FrontOf(a, msize, dotu)
  {
    if |a| >= 4 {
      assert (a + tail)[..4] == a[..4];
      if UnLE(a[..4]) <= |a| { ParseAlone(a, tail, dotu); }
    }
  }

  lemma FrontIsLonger(a: seq<Byte>, msize: nat, dotu: bool)
    requires FrontOf(a, msize, dotu).Good?
    ensures 4 < FrontOf(a, msize, dotu).size <= |a| && FrontOf(a, msize, dotu).size <= msize
    ensures FrontOf(a, msize, dotu).size == UnLE(a[..4])
  {
    AcceptedIsLonger(a, dotu);
  }

  lemma FrontAlone(a: seq<Byte>, msize: nat, dotu: bool)
    requires FrontOf(a, msize, dotu).Good?
    ensures var f := FrontOf(a, msize, dotu); f.size <= |a| && FrontOf(a[..f.size], msize, dotu) == f
  {
    FrontIsLonger(a, msize, dotu);
    var size := FrontOf(a, msize, dotu).size;
    assert a[..size][..4] == a[..4];
    assert a[..size] + a[size..] == a;
    ParseAlone(a[..size], a[size..], dotu);
  }

  lemma CutIsSteady(msize: nat, dotu: bool)
    ensures Steady(Cut(msize, dotu))
  {
    var cut := Cut(msize, dotu);
    forall a | cut(a).Good? ensures 0 < cut(a).size <= |a| { FrontIsLonger(a, msize, dotu); }
    forall a, tail | !cut(a).Partial? ensures cut(a + tail) == cut(a) { FrontGrows(a, tail, msize, dotu); }
    forall a | cut(a).Good? ensures cut(a[..cut(a).size]) == cut(a) { FrontAlone(a, msize, dotu); }
  }

  // ---- what the reader makes of a stream

  /** The messages it queues, and whether it stops for a bad one. */
  datatype Framed = Framed(calls: seq<Fcall>, refused: bool)

  function Frames(bytes: seq<Byte>, cut: Cutter): Framed
    requires Steady(cut)
    decreases |bytes|
  {
    match cut(bytes)
    case Partial => Framed([], false)
    case Bad => Framed([], true)
    case Good(size, call) =>
      var rest := Frames(bytes[size..], cut);
      Framed([call] + rest.calls, rest.refused)
  }

  lemma DropFront<T>(a: seq<T>, tail: seq<T>, k: nat)
    requires k <= |a|
    ensures (a + tail)[k..] == a[k..] + tail
  {
  }

  /** What has been queued stays queued when more bytes come, and after a refusal no more is. */
  lemma {:induction false} FramesGrow(a: seq<Byte>, tail: seq<Byte>, cut: Cutter)
    requires Steady(cut)
    ensures var f, g := Frames(a, cut), Frames(a + tail, cut);
      f.calls <= g.calls && (f.refused ==> g == f)
    decreases |a|
  {
    if cut(a).Good? {
      FramesGrow(a[cut(a).size..], tail, cut);
      DropFront(a, tail, cut(a).size);
    }
  }

  /** The bytes are whole messages that the reader accepts, these calls. */
  ghost predicate Eaten(bytes: seq<Byte>, calls: seq<Fcall>, cut: Cutter)
    requires Steady(cut)
    decreases |bytes|
  {
    if bytes == [] then calls == []
    else cut(bytes).Good? && calls != [] && calls[0] == cut(bytes).call
         && Eaten(bytes[cut(bytes).size..], calls[1..], cut)
  }

  lemma {:induction false} EatenThen(bytes: seq<Byte>, calls: seq<Fcall>, tail: seq<Byte>, cut: Cutter)
    requires Steady(cut) && Eaten(bytes, calls, cut)
    ensures Frames(bytes + tail, cut) == var f := Frames(tail, cut); Framed(calls + f.calls, f.refused)
    decreases |bytes|
  {
    var f := Frames(tail, cut);
    if bytes == [] {
      assert bytes + tail == tail && calls + f.calls == f.calls;
    } else {
      var size := cut(bytes).size;
      EatenThen(bytes[size..], calls[1..], tail, cut);
      DropFront(bytes, tail, size);
      assert [calls[0]] + (calls[1..] + f.calls) == calls + f.calls;
    }
  }

  lemma {:induction false} EatenSnoc(bytes: seq<Byte>, calls: seq<Fcall>, msg: seq<Byte>, call: Fcall, cut: Cutter)
    requires Steady(cut) && Eaten(bytes, calls, cut) && cut(msg) == Good(|msg|, call)
    ensures Eaten(bytes + msg, calls + [call], cut)
    decreases |bytes|
  {
    if bytes == [] {
      assert bytes + msg == msg && msg[|msg|..] == [] && [call][1..] == [] && calls + [call] == [call];
    } else {
      var size := cut(bytes).size;
      EatenSnoc(bytes[size..], calls[1..], msg, call, cut);
      DropFront(bytes, msg, size);
      DropFront(calls, [call], 1);
    }
  }

  function Concat(msgs: seq<seq<Byte>>): seq<Byte> { if msgs == [] then [] else msgs[0] + Concat(msgs[1..]) }

  /** A stream of whole messages that the parser accepts is queued whole, in order. */
  lemma {:induction false} AllQueued(msgs: seq<seq<Byte>>, calls: seq<Fcall>, msize: nat, dotu: bool)
    requires |msgs| == |calls|
    requires forall i :: 0 <= i < |msgs| ==> Cut(msize, dotu)(msgs[i]) == Good(|msgs[i]|, calls[i])
    ensures Steady(Cut(msize, dotu)) && Frames(Concat(msgs), Cut(msize, dotu)) == Framed(calls, false)
  {
    CutIsSteady(msize, dotu);
    EachQueued(msgs, calls, Cut(msize, dotu));
    assert Cut(msize, dotu)([]) == Partial;
  }

  lemma {:induction false} EachQueued(msgs: seq<seq<Byte>>, calls: seq<Fcall>, cut: Cutter)
    requires Steady(cut) && |msgs| == |calls| && cut([]) == Partial
    requires forall i :: 0 <= i < |msgs| ==> cut(msgs[i]) == Good(|msgs[i]|, calls[i])
    ensures Frames(Concat(msgs), cut) == Framed(calls, false)
  {
    if msgs != [] {
      var tail := Concat(msgs[1..]);
      EachQueued(msgs[1..], calls[1..], cut);
      DropFront(msgs[0], tail, |msgs[0]|);
      assert msgs[0][|msgs[0]|..] == [] && [] + tail == tail;
      assert [calls[0]] + calls[1..] == calls;
    }
  }

  /** Each message stands alone for its call. */
  ghost predicate Each(msgs: seq<seq<Byte>>, calls: seq<Fcall>, cut: Cutter) {
    |msgs| == |calls| && forall i :: 0 <= i < |msgs| ==> cut(msgs[i]) == Good(|msgs[i]|, calls[i])
  }

  lemma {:induction false} EachEaten(msgs: seq<seq<Byte>>, calls: seq<Fcall>, cut: Cutter)
    requires Steady(cut) && Each(msgs, calls, cut)
    ensures Eaten(Concat(msgs), calls, cut)
  {
    if msgs != [] {
      var tail := Concat(msgs[1..]);
      EachEaten(msgs[1..], calls[1..], cut);
      DropFront(msgs[0], tail, |msgs[0]|);
      assert msgs[0][|msgs[0]|..] == [] && [] + tail == tail;
      assert cut(msgs[0] + tail) == cut(msgs[0]);
    }
  }

  /** The messages a stream is made of, and what is left. */
  lemma {:induction false} StreamOf(stream: seq<Byte>, cut: Cutter) returns (msgs: seq<seq<Byte>>, rest: seq<Byte>)
    requires Steady(cut)
    ensures Each(msgs, Frames(stream, cut).calls, cut) && stream == Concat(msgs) + rest
    ensures cut(rest) == if Frames(stream, cut).refused then Bad else Partial
    decreases |stream|
  {
    if cut(stream).Good? {
      var size := cut(stream).size;
      msgs, rest := StreamOf(stream[size..], cut);
      Regather(stream, size, msgs, rest);
      msgs := [stream[..size]] + msgs;
    } else {
      msgs, rest := [], stream;
      assert Concat([]) + stream == stream;
    }
  }

  lemma {:induction false} Regather(stream: seq<Byte>, size: nat, msgs: seq<seq<Byte>>, rest: seq<Byte>)
    requires size <= |stream| && stream[size..] == Concat(msgs) + rest
    ensures stream == Concat([stream[..size]] + msgs) + rest
  {
    assert ([stream[..size]] + msgs)[1..] == msgs;
    assert stream == stream[..size] + stream[size..];
  }

  ghost predicate AllAccepted(msgs: seq<seq<Byte>>, calls: seq<Fcall>, msize: nat, dotu: bool) {
    |msgs| == |calls| && forall i :: 0 <= i < |msgs| ==> Accepted(msgs[i], calls[i], msize, dotu)
  }

  lemma EachAccepted(msgs: seq<seq<Byte>>, calls: seq<Fcall>, msize: nat, dotu: bool)
    ensures Each(msgs, calls, Cut(msize, dotu)) <==> AllAccepted(msgs, calls, msize, dotu)
  {
    forall i | 0 <= i < |msgs| && i < |calls|
      ensures Cut(msize, dotu)(msgs[i]) == Good(|msgs[i]|, calls[i]) <==> Accepted(msgs[i], calls[i], msize, dotu)
    {
      if Accepted(msgs[i], calls[i], msize, dotu) { AcceptedFront(msgs[i], calls[i], msize, dotu); }
      FrontExactly(msgs[i], msize, dotu);
      assert msgs[i][..|msgs[i]|] == msgs[i];
    }
  }

  /** The stream is messages that are accepted, these calls, and what is left is refused or waited for. */
  ghost predicate DeliveredAs(stream: seq<Byte>, msgs: seq<seq<Byte>>, rest: seq<Byte>, f: Framed, msize: nat,
                              dotu: bool) {
    && AllAccepted(msgs, f.calls, msize, dotu) && stream == Concat(msgs) + rest
    && if f.refused then Spoilt(rest, msize, dotu) else Waits(rest, msize)
  }

  ghost predicate Delivered(stream: seq<Byte>, f: Framed, msize: nat, dotu: bool) {
    exists msgs, rest :: DeliveredAs(stream, msgs, rest, f, msize, dotu)
  }

  lemma {:induction false} FramesDelivered(stream: seq<Byte>, msize: nat, dotu: bool)
    ensures Steady(Cut(msize, dotu)) && Delivered(stream, Frames(stream, Cut(msize, dotu)), msize, dotu)
  {
    var cut := Cut(msize, dotu);
    CutIsSteady(msize, dotu);
    var msgs, rest := StreamOf(stream, cut);
    EachAccepted(msgs, Frames(stream, cut).calls, msize, dotu);
    FrontExactly(rest, msize, dotu);
    assert DeliveredAs(stream, msgs, rest, Frames(stream, cut), msize, dotu);
  }

  /** That is what the reader makes of a stream, and nothing else. */
  lemma {:induction false} DeliveredExactly(stream: seq<Byte>, f: Framed, msize: nat, dotu: bool)
    ensures Steady(Cut(msize, dotu))
    ensures Frames(stream, Cut(msize, dotu)) == f <==> Delivered(stream, f, msize, dotu)
  {
    FramesDelivered(stream, msize, dotu);
    if Delivered(stream, f, msize, dotu) {
      var msgs, rest :| DeliveredAs(stream, msgs, rest, f, msize, dotu);
      AcceptedThen(msgs, f.calls, rest, msize, dotu);
    }
  }

  /** Messages that are accepted are queued, in order. The first one that np_deserialize does not take stops the reader
      for good, whatever is behind it; it waits only for what is not all there. */
  lemma {:induction false} AcceptedThen(msgs: seq<seq<Byte>>, calls: seq<Fcall>, rest: seq<Byte>, msize: nat,
                                        dotu: bool)
    requires AllAccepted(msgs, calls, msize, dotu)
    ensures Steady(Cut(msize, dotu))
    ensures Spoilt(rest, msize, dotu) ==> Frames(Concat(msgs) + rest, Cut(msize, dotu)) == Framed(calls, true)
    ensures Waits(rest, msize) ==> Frames(Concat(msgs) + rest, Cut(msize, dotu)) == Framed(calls, false)
  {
    var cut := Cut(msize, dotu);
    CutIsSteady(msize, dotu);
    EachAccepted(msgs, calls, msize, dotu);
    EachEaten(msgs, calls, cut);
    EatenThen(Concat(msgs), calls, rest, cut);
    FrontExactly(rest, msize, dotu);
    assert calls + [] == calls;
  }

  /** So with a whole message that is not taken, of a size that the buffer holds. */
  lemma {:induction false} RefusedBehind(msgs: seq<seq<Byte>>, calls: seq<Fcall>, msg: seq<Byte>, tail: seq<Byte>,
                                         msize: nat, dotu: bool)
    requires AllAccepted(msgs, calls, msize, dotu)
    requires 4 <= |msg| <= msize && UnLE(msg[..4]) == |msg| && Parse(msg, dotu).None?
    ensures Steady(Cut(msize, dotu))
    ensures Frames(Concat(msgs) + (msg + tail), Cut(msize, dotu)) == Framed(calls, true)
  {
    ParseAlone(msg, tail, dotu);
    AcceptedThen(msgs, calls, msg + tail, msize, dotu);
  }

  /** What a constructor built is such a message, if the parser undoes the constructor and the buffer can hold it. */
  lemma BuiltIsQueued(m: Call, dotu: bool, junk: seq<Byte>, msize: nat)
    requires FitsCall(m, dotu) && !Refused(m) && !NotInverse(m, dotu) && |junk| == Build(m, dotu).size + 7 <= msize
    ensures var b := Build(m, dotu);
      && Created(m, dotu, junk).Some? && |Created(m, dotu, junk).value| == b.size + 7
      && FrontOf(Created(m, dotu, junk).value, msize, dotu) ==
         Good(b.size + 7, Fcall(b.size + 7, b.typ, NoTag, Expected(m, dotu)))
  {
    RoundTripsExactly(m, dotu, junk);
  }

  // ---- the reader

  function Least(a: nat, b: nat): nat { if a < b then a else b }

  /** np_conn_read_proc, while the connection is neither reset nor closed. The k-th read delivers at most cuts(k) + 1
      bytes of the stream, at most what the buffer has room for, and at least one while there is one. */
  method ReadProc(stream: seq<Byte>, msize: nat, dotu: bool, cuts: nat -> nat)
    returns (queued: seq<Fcall>, refused: bool)
    ensures Steady(Cut(msize, dotu)) && Framed(queued, refused) == Frames(stream, Cut(msize, dotu))
    ensures Delivered(stream, Framed(queued, refused), msize, dotu)
  {
    ghost var cut := Cut(msize, dotu);
    CutIsSteady(msize, dotu);
    var pkt := new Byte[msize];
    var n: nat, pos: nat, k: nat := 0, 0, 0;
    queued, refused := [], false;
    ghost var eaten: seq<Byte>, held: seq<Byte> := [], [];
    while true
      invariant n <= msize && pos <= |stream| && pkt.Length == msize && fresh(pkt)
      invariant pkt[..n] == held && stream[..pos] == eaten + held && Eaten(eaten, queued, cut) && cut(held).Partial?
      decreases |stream| - pos
    {
      var i := Least(cuts(k) + 1, Least(msize - n, |stream| - pos));
      if i == 0 { break; }
      Copy(pkt, n, stream[pos..pos + i]);
      ReadMore(stream, pos, i, eaten, held);
      n, pos, k := n + i, pos + i, k + 1;
      pkt, n, queued, refused, eaten, held := Dispatch(pkt, n, msize, dotu, queued, eaten);
      if refused { break; }
    }
    Finish(stream, pos, eaten, held, queued, msize, dotu);
    FramesDelivered(stream, msize, dotu);
  }

  lemma ReadMore(stream: seq<Byte>, pos: nat, i: nat, eaten: seq<Byte>, held: seq<Byte>)
    requires pos + i <= |stream| && stream[..pos] == eaten + held
    ensures stream[..pos + i] == eaten + (held + stream[pos..pos + i])
  {
    assert stream[..pos + i] == stream[..pos] + stream[pos..pos + i];
  }

  method Copy(pkt: array<Byte>, n: nat, chunk: seq<Byte>)
    requires n + |chunk| <= pkt.Length
    modifies pkt
    ensures pkt[..n + |chunk|] == old(pkt[..n]) + chunk
  {
    for i := 0 to |chunk|
      invariant pkt[..n] == old(pkt[..n]) && pkt[n..n + i] == chunk[..i]
    {
      pkt[n + i] := chunk[i];
    }
  }

  /** The tests between again and the memmove: the size, and np_deserialize. */
  method Examine(pkt: array<Byte>, n: nat, msize: nat, dotu: bool) returns (front: Front)
    requires n <= msize == pkt.Length
    ensures front == FrontOf(pkt[..n], msize, dotu)
  {
    if n < 4 { return Partial; }
    ghost var held := pkt[..n];
    SizeOf(pkt[..4]);
    assert held[..4] == pkt[..4];
    var size := pkt[0] as int + 0x100 * pkt[1] as int + 0x1_0000 * pkt[2] as int + 0x100_0000 * pkt[3] as int;
    if size >= 0x8000_0000 { return Bad; }
    if n < size { return Partial; }
    assert pkt[..] == held + pkt[n..];
    ParseAlone(held, pkt[n..], dotu);
    var r := Deserialize(pkt, dotu);
    return if r.None? then Bad else Good(size, r.value.call);
  }

  /** The memmove of what stands behind the message, into the buffer of the next fcall. */
  method KeepRest(pkt: array<Byte>, n: nat, size: nat) returns (fc1: array<Byte>)
    requires size <= n <= pkt.Length
    ensures fresh(fc1) && fc1.Length == pkt.Length && fc1[..n - size] == pkt[..n][size..]
  {
    fc1 := new Byte[pkt.Length];
    Copy(fc1, 0, pkt[size..n]);
  }

  lemma {:induction false} EatOne(eaten: seq<Byte>, queued: seq<Fcall>, held: seq<Byte>, cut: Cutter)
    requires Steady(cut) && Eaten(eaten, queued, cut) && cut(held).Good?
    ensures var size := cut(held).size;
      Eaten(eaten + held[..size], queued + [cut(held).call], cut)
      && eaten + held == (eaten + held[..size]) + held[size..]
  {
    EatenSnoc(eaten, queued, held[..cut(held).size], cut(held).call, cut);
    Split(eaten, held, cut(held).size);
  }

  /** The part of the loop after again: every whole message in the buffer goes to the queue. */
  method Dispatch(pkt0: array<Byte>, n0: nat, msize: nat, dotu: bool, queued0: seq<Fcall>, ghost eaten0: seq<Byte>)
    returns (pkt: array<Byte>, n: nat, queued: seq<Fcall>, refused: bool, ghost eaten: seq<Byte>, ghost held: seq<Byte>)
    requires n0 <= msize == pkt0.Length && Steady(Cut(msize, dotu)) && Eaten(eaten0, queued0, Cut(msize, dotu))
    ensures n <= msize == pkt.Length && (pkt == pkt0 || fresh(pkt)) && held == pkt[..n]
    ensures eaten + held == eaten0 + old(pkt0[..n0]) && Eaten(eaten, queued, Cut(msize, dotu))
    ensures Cut(msize, dotu)(held) == if refused then Bad else Partial
  {
    ghost var cut := Cut(msize, dotu);
    pkt, n, queued, refused, eaten, held := pkt0, n0, queued0, false, eaten0, pkt0[..n0];
    while true
      invariant n <= msize == pkt.Length && (pkt == pkt0 || fresh(pkt)) && held == pkt[..n]
      invariant eaten + held == eaten0 + old(pkt0[..n0]) && Eaten(eaten, queued, cut)
      decreases n
    {
      var front := Examine(pkt, n, msize, dotu);
      assert cut(held) == front;
      if front.Partial? { return; }
      if front.Bad? {
        refused := true;
        return;
      }
      var fc1 := KeepRest(pkt, n, front.size);
      EatOne(eaten, queued, held, cut);
      eaten, held := eaten + held[..front.size], held[front.size..];
      pkt, n, queued := fc1, n - front.size, queued + [front.call];
    }
  }

  lemma Split(a: seq<Byte>, b: seq<Byte>, k: nat)
    requires k <= |b|
    ensures a + b == (a + b[..k]) + b[k..]
  {
  }

  lemma {:induction false} SizeOf(s: seq<Byte>)
    requires |s| == 4
    ensures UnLE(s) == s[0] as int + 0x100 * s[1] as int + 0x1_0000 * s[2] as int + 0x100_0000 * s[3] as int
  {
    assert UnLE(s[3..]) == s[3] by { assert s[3..][1..] == []; }
    assert UnLE(s[2..]) == s[2] as int + 0x100 * s[3] as int by { assert s[2..][1..] == s[3..]; }
    assert UnLE(s[1..]) == s[1] as int + 0x100 * s[2] as int + 0x1_0000 * s[3] as int
      by { assert s[1..][1..] == s[2..]; }
  }

  /** Bytes behind a message that the buffer cannot hold, or that is not all there at the end, change nothing. */
  lemma StaysPartial(held: seq<Byte>, more: seq<Byte>, msize: nat, dotu: bool)
    requires FrontOf(held, msize, dotu).Partial? && (more == [] || |held| == msize)
    ensures FrontOf(held + more, msize, dotu).Partial?
  {
    if more == [] {
      assert held + more == held;
    } else if |held| >= 4 {
      assert (held + more)[..4] == held[..4];
    }
  }

  lemma Regroup(stream: seq<Byte>, pos: nat, eaten: seq<Byte>, held: seq<Byte>)
    requires pos <= |stream| && stream[..pos] == eaten + held
    ensures stream == eaten + (held + stream[pos..])
  {
  }

  /** When the reader stops, the rest of the stream would not have changed what it queued. */
  lemma {:induction false} Finish(stream: seq<Byte>, pos: nat, eaten: seq<Byte>, held: seq<Byte>, queued: seq<Fcall>,
                                  msize: nat, dotu: bool)
    requires pos <= |stream| && stream[..pos] == eaten + held && Steady(Cut(msize, dotu))
    requires Eaten(eaten, queued, Cut(msize, dotu)) && !Cut(msize, dotu)(held).Good?
    requires Cut(msize, dotu)(held).Partial? ==> pos == |stream| || |held| == msize
    ensures Frames(stream, Cut(msize, dotu)) == Framed(queued, Cut(msize, dotu)(held).Bad?)
  {
    var more := stream[pos..];
    Regroup(stream, pos, eaten, held);
    if Cut(msize, dotu)(held).Partial? { StaysPartial(held, more, msize, dotu); }
    Stops(eaten, queued, held, more, Cut(msize, dotu));
  }

  lemma {:induction false} Stops(eaten: seq<Byte>, queued: seq<Fcall>, held: seq<Byte>, more: seq<Byte>, cut: Cutter)
    requires Steady(cut) && Eaten(eaten, queued, cut) && !cut(held).Good?
    requires cut(held).Partial? ==> cut(held + more).Partial?
    ensures Frames(eaten + (held + more), cut) == Framed(queued, cut(held).Bad?)
  {
    EatenThen(eaten, queued, held + more, cut);
    assert queued + [] == queued;
  }
}
