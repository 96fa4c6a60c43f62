# npfs: verified model

npfs is a multi-threaded file server library for 9P2000, 9P2000.u and 9P2000.L. This project models its core in Dafny
and proves what the core is for. Each module follows one component of the C code; code that changes state in place is
modelled by classes and methods over the same fields and links, and a protocol between threads by a transition system
with one step for each critical section. The file system behind the server (`srv->walk`, `srv->clone`, ...), memory
allocation and the transport are oracles: every answer they can give is covered.

| file | what it models |
|---|---|
| `Engine.dfy` | the request engine: queue, working list, flush chains, replies and connection resets, for any number of threads |
| `Resets.dfy` | connection reset: what it guarantees, and exactly when it does not |
| `Flushes.dfy` | the loop that answers the Tflushes for a request, and the memory of the requests: exactly when it answers them all |
| `Wakeups.dfy` | the sleep of a reset on its condition variable: when it is sure to be woken, and exactly when it is not |
| `ReqLists.dfy` | the two doubly linked request lists, the flushreq pointers and the memory of the requests; they agree with the state of `Engine` before and after every step, and so does the variable of the loop along flushreq |
| `Teardown.dfy` | the life of connections and of the server: references, shutdown, destruction |
| `FidPool.dfy` | the hash table of fids with its move-to-front chains, refining a map |
| `FidRefs.dfy` | who holds a reference to a fid, over every interleaving of handlers and replies |
| `Walk.dfy` | Twalk on the fid table |
| `Bytes.dfy`, `Cbuf.dfy`, `Wire.dfy` | little-endian integers, the bounded cursor with its sticky mark, the values on the wire |
| `Codec.dfy`, `Packets.dfy` | the `np_create_*` constructors, `np_deserialize`, and the functions that patch a finished packet |
| `Calls.dfy` | the same messages by the names of their arguments and fields, and where these stand on the wire |
| `Cuts.dfy` | messages cut short: exactly which ones `np_deserialize` accepts |
| `Framing.dfy` | the reader that cuts a byte stream into messages |
| `DirRead.dfy` | stat records and resumable directory reads |
| `Checkpoint.dfy` | checkpoint and restore of a connection's fids |
| `ImageCuts.dfy` | images cut short, or with another number of fids than they hold: exactly which ones `ufs_restore` takes |
| `Futex.dfy` | the three-valued lock word |
| `Cipher.dfy` | the overlapping block mode, and the ticket codec on it |
| `IdPool.dfy` | the growing bitmap of identifiers |
| `RamFile.dfy` | the block-rounded file in memory |

## Main results

1. Engine. Whatever the threads do, every accepted request is in exactly one of queued, working and finished; handlers
   start in arrival order; a request that a Tflush finds on the queue is never handled and never answered; one that it
   finds working leaves workreqs together with the whole chain of its Tflushes, and its reply precedes the Rflush of
   each that gets one, which none gets twice. Every continuation that comes to the end of the request has the Rflush of
   each of its Tflushes if and only if there is no more than one: with more, np_req_alloc can clear one between its
   Rflush and the reading of its flushreq. (Where resets that have still to wait hold on to all but the oldest, this is
   proved when the connection has no Tflush aimed at a Tflush or at a Tversion; see below.) When it clears none of them
   but the oldest, all have their Rflush. A Tversion on which a Tflush hangs never gets past the wait of its reset.
   What a reset has found working keeps its memory until it ends. A reset that can pass its wait is sure to find nothing of its connection queued, however long it takes to pass, if and
   only if nothing is queued and the reader lets nothing in: it has left, or the resetting flag is up and no other
   Tversion of the connection that may yet reset it is queued or in its handler. A client that sends one Tversion at a
   time meets that condition. (That nothing but Tversions of the connection is working is what the reset waits for.) A
   reset never sleeps on with nothing left to wait for, unless a request it waited for ended without reply and Tflush,
   another reset of the connection ended, or one of its Tflushes was cleared as above. One that does is woken in some
   run if and only if the connection is in one of these states: the reader is there, and the flag is down, or a call of
   np_conn_respond is due, or some other request is listed that is neither asleep nor about to end in silence; the
   reader has left with the flag up, and the same holds but for Tversions in their own resets; or it has left with the
   flag down, and there is a Tversion yet to reset the connection, and a due call or such a request beside it. (In the
   last state that some run wakes it is proved when no Tflush of the connection is queued.)
   The linked lists, the flushreq pointers and the loops along them, in memory that one request takes over from another,
   refine all of this step by step.
2. Fids. The reference count of a fid is one for the client, if it holds it, one for each handler at work on it, and the
   references lost, in every reachable state; the fid is in the pool iff that is positive, and the last holder destroys
   it. None is lost if and only if no Tlink misses its second fid, no Tunlinkat names a fid that cannot be used, and no
   response comes without a reply. A handler that finds a fid has a reference to it until it lets go, so that the fid
   stays in the pool; when a Tclunk has returned well the client holds the fid no more, and it is out of the pool as soon
   as nobody else refers to it. The hash table with its move-to-front chains refines a map. A Twalk to a new number is
   all or nothing, and the new fid has the type of the last qid.
3. Codec. A message reads back as what its constructor was given iff the call is not one of an explicit short list, each
   argument under its own name. A message cut short is accepted iff its type is there and the cut falls between two of
   the pieces it is read in. The reader queues the same messages however the transport cuts the stream up: those that are
   accepted, in order, up to the first that is not, which drops the connection.
4. Directories. A read takes as many records as there is room for. However the counts cut a listing up, the replies are the whole records, in order, each once, if and only
   if no record is cut; with the exact condition under which `np_serialize_stat` writes a record that lacks its last two
   bytes. It goes on as long as the offset is below 2^32.
5. Checkpoint. The bytes of an image are those of the fids' own fields. It is read back to the fids it was made of, each with one reference; one restore and checkpoint
   reverses each hash bucket's records, and two give back the same bytes. An image cut short is taken iff the cut falls
   between two of the pieces it was put in, and one that announces n fids iff n is a C int and it holds no more. Records
   with the same number make one fid, with the fields of the last and a reference for each.
6. The lock excludes and loses no wakeup: in every reachable state, whoever waits for it can still get it, without a
   FUTEX_WAIT that returns of its own. `_encrypt` calls DES on exactly the overlapping blocks, from the front to the back,
   and `_decrypt` undoes it. The steps that have been taken tell exactly which connections are freed and whether the
   server is destroyed. The id pool hands out the smallest free id. The RAM file is a byte string that reads as zero where
   nothing was written.

## Where the code does not do what it is for

Each of these is a lemma about the code as it is.

- `np_create_tsetattr` asks for 12 bytes too few and always returns NULL; `np_create_rstatfs` asks for 4 too many;
  `np_create_tauth` has no room for `n_uname` under 9P2000.u; `np_deserialize` has no case for Tlerror and expects a fid
  at the start of Rgetlock (`Codec.RoundTripsExactly`).
- A message cut short between two integers, between a string's count and its bytes, or between any other two pieces that
  the parser reads, is accepted: with zeros and empty values for the fields that are missing, and a NULL string or NULL
  data behind a count that is there (`Cuts.CutExactly`, `Codec.CutBetweenFields`).
- A checkpoint cut short between two pieces, or one that announces more fids than it holds, is restored: what is missing
  reads as fids of number 0 without a name (`ImageCuts.CutImageExactly`, `ImageCuts.CountExactly`).
- Records with the same number, as a checkpoint that is cut short or announces too many fids is read, leave a fid with
  more references than its client has to give back (`Checkpoint.RestoredRepeated`).
- The offset of a directory read is kept in 32 bits: a listing of 2^32 bytes or more is refused from there on
  (`DirRead.DirFid.TreadAll`).
- `np_serialize_stat` can write all of a record but the last two bytes and report success (`DirRead.SerializedExactly`,
  `DirRead.CutsHappen`).
- The loop in np_respond gives a Tflush back before it reads its flushreq. With two Tflushes for one request, a reader
  that takes the first one's memory meanwhile makes the loop end, and the second never gets an Rflush
  (`Flushes.RflushLost`, and exactly when in `Flushes.ForgetsExactly`); when the new request in that memory has a Tflush
  of its own by then, the loop goes on with that one (`Flushes.StraysExactly`).
- np_respond without a reply does not call np_conn_respond, so nobody broadcasts resetcond. A reset that waits for such a
  request can sleep for ever (`Wakeups.SleepsForever`), as it can when another Tversion's reset lowers the flag before
  the reply it waits for is written; when it is woken after all is `Wakeups.WokenExactly`. In this repository a reply is
  missing only where it could not be allocated, as at fs/echofs.c:202.
- A Tflush for a Tversion that resets its connection waits for the Tversion, and the reset for the Tflush: neither is
  ever answered (`Flushes.FlushedVersionWaits`).
- With two Tversions of one connection at once, a reset can pass its wait with requests still queued
  (`Resets.OverlappingResets`, and exactly when in `Resets.ResetExactly`).
- A Tflush that finds its target on the queue while the connection is being reset calls np_conn_respond with the server's
  lock held, which asks for that lock again (libnpfs/fcall.c:229-235, libnpfs/conn.c:362-366). Such a state can be
  reached (`Resets.FlushMeetsReset`); the thread then waits for itself, and every thread that needs the lock waits for
  it. The engine lets the step complete, so that what is proved holds of the code up to that point.
- np_link, np_unlinkat and responses without a reply lose references (`FidRefs.ConservedExactly`).
- A refused clone leaves the new fid in the table with a count of -1 (`Walk.CloneRefused`).
- The id pool can exceed `maxid`, for other limits than the two in use (`IdPool.NeverExceedsExactly`).

## Model

| member | source | states |
|---|---|---|
| `Engine.InvStep` | libnpfs/srv.c:347-396 | every critical section keeps the lists, the flush chains, the log and the resets consistent |
| `Engine.InvFrom` | libnpfs/srv.c:548-582 | so does every run |
| `Engine.StepMoves` | libnpfs/srv.c:588-635 | a step takes a request along its life or leaves it alone, and logs exactly the event of that move |
| `Engine.Conservation` | libnpfs/srv.c:347-396 | in every reachable state an accepted request is in exactly one of queued, working and finished, and listed once; the queue is in arrival order |
| `Engine.HandledInArrivalOrder` | libnpfs/srv.c:566-577 | handlers start in the order in which requests arrived |
| `Engine.FlushedOffTheQueue` | libnpfs/fcall.c:230-242 | a request that a Tflush finds queued is handled and answered neither before nor in any continuation |
| `Engine.FlushedAtWork` | libnpfs/fcall.c:245-256 | a Tflush that finds its target working leaves workreqs with it and gets at most one Rflush, never before the target's reply; it has it when the target is done, unless a Tflush on the chain, other than the oldest, was cleared for a new request |
| `Engine.ChainedIsServed` | libnpfs/srv.c:605-632 | the same of every Tflush on any chain |
| `Engine.MemoryStep` | libnpfs/srv.c:876-943 | every step keeps: a request that was not given back has its memory to itself |
| `Engine.LossesStep` | libnpfs/srv.c:625-632 | every step keeps: the loop leaves the chain early only behind a Tflush whose memory was taken |
| `Flushes.ForgetsExactly` | libnpfs/srv.c:605-635 | once a request is off workreqs, no continuation comes to its end without the Rflush of each of its Tflushes, iff there is at most one; given, when there are more, one other than the oldest that no reset which has still to wait holds a reference to, or a connection without a Tflush aimed at a Tflush or at a Tversion |
| `Flushes.StraysExactly` | libnpfs/srv.c:625-632 | and in no continuation does the loop go on with a request that did not hang on it, iff there is none; given the same of any of its Tflushes |
| `Flushes.Settle` | libnpfs/conn.c:263-297 | where every Tflush of a connection is aimed at neither a Tflush nor a Tversion, some run leaves no request of it working, without touching the finished ones or the memory |
| `Flushes.SweptKeepMemory` | libnpfs/conn.c:216-302 | a request of the connection that a sweep finds working, and that the reset is to wait for, keeps its memory in every continuation in which that reset has not ended |
| `Flushes.FlushedVersionWaits` | libnpfs/conn.c:263-274 | a Tversion that begins to reset its connection with a Tflush hanging on it never passes its wait, and neither is ever answered |
| `Flushes.FlushedVersion` | libnpfs/fcall.c:245-256 | such a state can be reached from Init |
| `Flushes.StraysElsewhere` | libnpfs/srv.c:625-632 | where it goes on then is none of its own Tflushes |
| `Flushes.AllAnswered` | libnpfs/srv.c:625-632 | on a run that takes the memory of none of them but the oldest, all have their Rflush at the end |
| `Flushes.AnsweredExactly` | libnpfs/srv.c:625-632 | at any time the Tflushes that have an Rflush are the newest ones, as many as the loop has come by |
| `Flushes.RflushLost` | libnpfs/srv.c:876-906 | from Init to a request with two Tflushes that is done while one has no Rflush |
| `Flushes.StaysPut` | libnpfs/srv.c:625-632 | only its own thread moves the loop of a request |
| `Flushes.LeadsOn` | libnpfs/fcall.c:245-256 | flushreq of a Tflush on a chain leads to the next older one there, or nowhere from the oldest |
| `Wakeups.NeverLeftAsleep` | libnpfs/conn.c:263-274 | when a reset sleeps with nothing left to wait for, the flag is up and a call of np_conn_respond is due on its connection; for every run since its beginning without a request that it waits for ending silently, another reset of the connection ending, or one of its Tflushes cleared under the loop |
| `Wakeups.WokenExactly` | libnpfs/conn.c:320-370 | a reset that sleeps with nothing left to wait for is woken in some continuation iff, with the reader there, the flag is down, such a call is due, or a request is listed that is queued, about to be answered, or in its handler and not asleep; with the reader gone and the flag up, the same without the Tversions in their own resets; with the flag down, a Tversion that has not reset the connection is listed, and a call is due or another such request is listed (if: given, in this last case, no queued Tflush) |
| `Wakeups.StuckRun` | libnpfs/conn.c:320-370 | in each of the four kinds of state in which nobody can call np_conn_respond with the flag up, a sleeping reset sleeps on in every continuation |
| `Wakeups.SleepsForever` | libnpfs/srv.c:611-623 | from Init to a Tversion that sleeps on in every continuation, after a response without a reply |
| `Wakeups.OwesStays` | libnpfs/srv.c:611-632 | a call that is due stays due until it is made, unless the Tflush is cleared under the loop |
| `Wakeups.OwesNever` | libnpfs/srv.c:611-632 | a finished request for which none is due never gets one due |
| `Resets.ResetExactly` | libnpfs/conn.c:196-297 | a reset that can pass its wait finds nothing of its connection queued in any continuation, iff nothing is and the reader is barred until then: it has left, or the flag is up and no other Tversion of the connection may yet reset it |
| `Resets.SweptExactly` | libnpfs/conn.c:200-274 | just behind its sweep, a reset that could pass at once has only that last condition to meet |
| `Resets.SecureReset` | libnpfs/conn.c:196-274 | a reset that meets it when it begins passes its wait, in every continuation, with nothing of its connection queued |
| `Resets.LoneReset` | libnpfs/conn.c:196-274 | a Tversion that begins its reset with no other Tversion of the connection queued or working is the only request of the connection left on either list when the reset passes |
| `Resets.ResetClaim` | libnpfs/conn.c:196-274 | so is nothing queued when no other Tversion's reset of the connection ends on the way |
| `Resets.ReaderResetClaim` | libnpfs/conn.c:178-179 | the reader's own reset leaves nothing of the connection on either list |
| `Resets.RaceLost` | libnpfs/conn.c:263-297 | from every state in which the reader is not barred, or may be let in by another reset, a run on which a request is queued when the reset passes |
| `Resets.SweepKeepsOthers` | libnpfs/conn.c:201-213 | the sweep takes every queued request of its connection and leaves those of every other one in order |
| `Resets.OverlappingResets` | libnpfs/conn.c:263-297 | two Tversions, from Init to a reset that passes its wait with a request of its connection queued |
| `Resets.FlushMeetsReset` | libnpfs/fcall.c:229-242 | a reachable state in which a Tflush finds its target queued while the connection is being reset |
| `Engine.VersionStays` | libnpfs/conn.c:263-274 | a Tversion that resets its connection stays in its handler whatever else happens |
| `Engine.First` | libnpfs/fcall.c:230-247 | the request a Tflush aims at is of its connection and has its oldtag; none is found only when none is there |
| `ReqLists.Srv.AddReq` | libnpfs/srv.c:347-357 | the request goes to the end of the queue; links, first and last stay consistent |
| `ReqLists.Srv.RemoveReq` | libnpfs/srv.c:359-373 | exactly this request leaves the queue, from wherever it stands |
| `ReqLists.Srv.AddWorkreq` | libnpfs/srv.c:375-384 | the request goes to the front of workreqs |
| `ReqLists.Srv.RemoveWorkreq` | libnpfs/srv.c:386-396 | exactly this request leaves workreqs, from wherever it stands |
| `ReqLists.Srv.Take` | libnpfs/srv.c:566-574 | a worker moves the first of the queue to workreqs |
| `ReqLists.Splice` | libnpfs/srv.c:386-396 | the neighbours of the removed request are linked with each other |
| `ReqLists.Find` | libnpfs/fcall.c:230-247 | the search returns the first request of the list with that connection and tag, or none |
| `ReqLists.Srv.Flush` | libnpfs/fcall.c:228-263 | a queued target leaves the queue; a working one, a Tflush too, gets the Tflush in front of what hangs on it, and no other flushreq changes; otherwise the lists stay, and the Tflush is answered at once |
| `ReqLists.Srv.Hang` | libnpfs/fcall.c:250-251 | the Tflush goes to the front of what hangs on its target |
| `ReqLists.Srv.UnlinkAll` | libnpfs/srv.c:605-609 | the request and its whole chain leave workreqs, and nothing else does |
| `ReqLists.Srv.Sweep` | libnpfs/conn.c:200-213 | exactly the queued requests of the connection leave the queue, and each is on the list of those to answer |
| `ReqLists.AddMirrors` | libnpfs/srv.c:347-357 | the linked lists refine the sequences of the engine when a request is added |
| `ReqLists.TakeMirrors` | libnpfs/srv.c:566-574 | and when a worker takes one |
| `ReqLists.TargetsMirror` | libnpfs/fcall.c:230-247 | the searches find the engine's targets |
| `ReqLists.FlushMirrors` | libnpfs/fcall.c:230-256 | and when a Tflush runs, as far as the lists go |
| `ReqLists.UnlinkMirrors` | libnpfs/srv.c:605-609 | and when a request is responded to, for the chain that the engine gives it |
| `ReqLists.SweepMirrors` | libnpfs/conn.c:200-213 | and when a reset sweeps the queue |
| `ReqLists.MayUnlink` | libnpfs/srv.c:605-609 | from the engine's invariant: flushreq leads along the chain, which is distinct, on workreqs, and without the request itself |
| `ReqLists.Start` | libnpfs/srv.c:347-396 | a new server agrees with the engine's first state: lists, requests and every flushreq |
| `ReqLists.AllocStep` | libnpfs/srv.c:876-906 | memory that agrees with the engine's state agrees with its next one when np_req_alloc takes a request that was given back and clears its flushreq |
| `ReqLists.AddStep` | libnpfs/conn.c:159-165 | and when a request is added, in new memory or in such |
| `ReqLists.TakeStep` | libnpfs/srv.c:566-574 | and when a worker takes one |
| `ReqLists.FlushStep` | libnpfs/fcall.c:228-263 | and when a Tflush runs, which answers at once just when the engine's does |
| `ReqLists.UnlinkStep` | libnpfs/srv.c:605-609 | and when a request is responded to |
| `ReqLists.SweepStep` | libnpfs/conn.c:200-213 | and when a reset sweeps the queue |
| `ReqLists.OtherStep` | libnpfs/srv.c:594-635 | and on every other step, which changes no list and no flushreq |
| `ReqLists.ChainPointer` | libnpfs/srv.c:625-632 | flushreq of a Tflush that keeps its memory points at the next on the chain, also when it has left workreqs |
| `ReqLists.FirstFlush` | libnpfs/srv.c:622-625 | the variable of the loop begins with the engine's first Tflush |
| `ReqLists.RflushStands` | libnpfs/srv.c:626-631 | it is the one whose Rflush the engine logs |
| `ReqLists.NextFlush` | libnpfs/srv.c:625-632 | reading flushreq of what was just given back gives the engine's next one: the next on the chain, null where the loop ends, or a Tflush off the chain where it goes astray |
| `ReqLists.OthersStand` | libnpfs/srv.c:625-632 | no step of another thread makes it another |
| `ReqLists.EndStands` | libnpfs/srv.c:625-634 | and it is null when the engine's loop ends |
| `Teardown.InvStep` | libnpfs/srv.c:234-331 | every step keeps: a connection's count is the number of its holders, and the server is destroyed iff shut down with no connection listed |
| `Teardown.Conservation` | libnpfs/conn.c:69-108 | over every run: the count is the list's or the shutdown's reference, the reader's and the live requests'; it is freed once, at zero; np_srv_destroy runs at most once |
| `Teardown.FreedStaysFreed` | libnpfs/conn.c:77-108 | what is freed or destroyed stays so over every continuation |
| `Teardown.ToldByHistory` | libnpfs/srv.c:234-330 | over every run, the steps taken tell the state: how many connections there are, which of them are listed or taken by the shutdown, where their readers are and how many requests they have |
| `Teardown.FreedExactly` | libnpfs/conn.c:77-108 | a connection is freed, once, iff its reader has left it, as many of its requests have been freed as allocated, and the shutdown has released it if it took it |
| `Teardown.DestroyedExactly` | libnpfs/srv.c:298-345 | the server is destroyed iff it has begun to shut down and then took the connections, or every reader of one made before has removed its own |
| `Teardown.EnabledExactly` | libnpfs/conn.c:110-190 | and they tell which of these steps can come next |
| `Teardown.Npsrv.AddConn` | libnpfs/srv.c:273-296 | the connection is listed with one more reference, or refused once the server is shutting down |
| `Teardown.Npsrv.Unchain` | libnpfs/srv.c:304-315 | just this connection leaves the chain, from wherever it stands |
| `Teardown.Npsrv.RemoveConn` | libnpfs/srv.c:298-330 | the list loses the connection, which gives back the list's reference iff it was listed |
| `Teardown.Npsrv.Shutdown` | libnpfs/srv.c:234-271 | the first shutdown takes the whole list if it is to shut the connections down; a later one takes nothing |
| `FidPool.MoveToFront` | libnpfs/fidpool.c:104-128 | the fid becomes the head of its chain; the others keep their order and their links agree |
| `FidPool.Unlink` | libnpfs/fidpool.c:188-228 | the neighbours of the removed fid are linked with each other |
| `FidPool.ToFrontPermutes` | libnpfs/fidpool.c:113-124 | moving to the front only permutes the chain |
| `FidPool.Pool.Lookup` | libnpfs/fidpool.c:104-128 | returns what the map holds under the number, changes no more than the order of that number's chain |
| `FidPool.Pool.Search` | libnpfs/fidpool.c:108-112 | the walk along the chain finds the fid the map holds, if it does |
| `FidPool.Pool.Find` | libnpfs/fidpool.c:130-144 | returns what the map holds under the number, and leaves the map as it was |
| `FidPool.Pool.Create` | libnpfs/fidpool.c:146-186 | the fid in use under the number, or a new one at the head of its chain, without references |
| `FidPool.Pool.Destroy` | libnpfs/fidpool.c:188-228 | exactly this number leaves the map |
| `FidPool.Pool.Incref` | libnpfs/fidpool.c:230-239 | one more reference |
| `FidPool.Pool.Decref` | libnpfs/fidpool.c:241-255 | one less; the fid leaves the map iff that makes it zero |
| `FidPool.Pool.Count` | libnpfs/fidpool.c:71-84 | the count is the size of the map |
| `FidPool.Pool.List` | libnpfs/fidpool.c:86-102 | the first count fids in chain order, each with one more reference, and no other fid's count changes |
| `FidPool.ListingEnumerates` | libnpfs/fidpool.c:86-102 | the chains taken together list every fid of the map, once |
| `FidRefs.InvStep` | libnpfs/fcall.c:558-626 | every step of a handler or a reply keeps every fid's count equal to the number of its holders |
| `FidRefs.InvFrom` | libnpfs/srv.c:611-623 | so does every run |
| `FidRefs.Conservation` | libnpfs/fidpool.c:230-255 | over every run: the count is one for the client, if it holds the fid, one for each reference of a request in flight, and those lost; the fid is in the pool iff that is positive, and is destroyed once |
| `FidRefs.LostExactly` | libnpfs/fcall.c:1161-1200 | a reference is lost by a Tlink that does not find its second fid, a Tunlinkat of a fid that cannot be used, or a response without a reply, and by nothing else; none is found again |
| `FidRefs.ConservedExactly` | libnpfs/fcall.c:1284-1314 | after a run, the count of every fid is just the client's reference and those of the requests, iff none of these has happened on it |
| `FidRefs.AtRest` | libnpfs/srv.c:611-623 | with nothing in flight, the pool holds just the client's fids, each with one reference, and those of which references were lost |
| `FidRefs.BegunHolds` | libnpfs/fcall.c:568-575 | when a handler other than np_attach's begins on a number that finds a fid, that fid stays in the pool under the number, with a count above the references of all others, in every continuation in which the request has not let go of it |
| `FidRefs.ClunkReleases` | libnpfs/fcall.c:558-600 | from a Tclunk of a held fid that returns well on, the client does not hold the fid, and it is in the pool iff requests refer to it or references to it were lost, and otherwise destroyed, once |
| `FidRefs.ClunkAnswered` | libnpfs/srv.c:611-623 | once its reply is out, the request refers to no fid |
| `FidRefs.TakenHolds` | libnpfs/fcall.c:1176-1181 | a handler that finds its second fid refers to that one too until it returns |
| `FidRefs.NewIsHeld` | libnpfs/fcall.c:309-358 | a new fid is pooled under its number while its handler is at work; then the client holds it iff the handler returns well |
| `FidRefs.AttachIsHeld` | libnpfs/fcall.c:150-162 | so with the fid of a Tattach |
| `FidRefs.DestroyedByTheLast` | libnpfs/fidpool.c:241-255 | a step destroys a fid iff it takes its last holder away |
| `FidRefs.Found` | libnpfs/fidpool.c:130-144 | a number finds a fid of the pool with that number, or there is none |
| `Walk.StopsForAReason` | libnpfs/fcall.c:332-341 | a walk that stops short was refused the next name or stands at something that is no directory |
| `Walk.Reached` | libnpfs/fcall.c:332-341 | every qid returned but the last is a directory's |
| `Walk.WalkMeans` | libnpfs/fcall.c:332-346 | the reply holds the type of each qid reached, in order, or fails before the first; the type of the fid is that of the last qid, or its own when none was reached |
| `Walk.WalkNames` | libnpfs/fcall.c:332-341 | the loop returns the qids up to where the walk stops, and the fid takes the type of the last |
| `Walk.WalkToNew` | libnpfs/fcall.c:309-358 | all or nothing: the new fid stays, with the client's one reference, the user of the source and the type of the last qid, iff every name was reached |
| `Walk.WalkCloned` | libnpfs/fcall.c:331-358 | the same from the clone on, with the references taken and given back |
| `Walk.WalkApart` | libnpfs/fcall.c:309-358 | the same with the branches for a number in use and for a refused clone |
| `Walk.WalkFrom` | libnpfs/fcall.c:286-358 | for a source that exists, the reply, the source, the new number and the table in every case: an open source, too many names, the source's own number, a number in use, a refused clone, a clone |
| `Walk.NpWalk` | libnpfs/fcall.c:274-359 | np_walk as a whole, with an unknown source: the qids reached, in order; the type of the last one for the new fid, or for the fid itself; no other fid's count and no other fid's type changes |
| `Walk.WalkInPlace` | libnpfs/fcall.c:328-358 | a walk on the fid itself leaves table and count alone, and moves the fid as far as it got, with the type of the last qid reached |
| `Walk.CloneRefused` | libnpfs/fcall.c:322-357 | the new fid stays in the table with a count of -1 |
| `Cbuf.Cbuf.CheckSize` | libnpfs/np.c:51-62 | it fails iff fewer bytes are left, and marks the cursor only strictly before the end |
| `Cbuf.Cbuf.PutBytes` | libnpfs/np.c:64-75 | the bytes are appended whole, or nothing is; nothing outside the buffer changes |
| `Cbuf.Cbuf.PutInt16` | libnpfs/np.c:89-101 | two bytes, least significant first, or none |
| `Cbuf.Cbuf.PutInt32` | libnpfs/np.c:103-116 | four bytes, or none |
| `Cbuf.Cbuf.PutInt64` | libnpfs/np.c:118-135 | eight bytes, or none |
| `Cbuf.Cbuf.PutStr` | libnpfs/np.c:137-155 | the count and the bytes together, or neither |
| `Cbuf.Cbuf.GetBytes` | libnpfs/np.c:64-75 | the next bytes, or none, and the cursor behind them or marked |
| `Cbuf.Cbuf.GetInt` | libnpfs/np.c:220-278 | the next integer, or 0 when its bytes are not there |
| `Cbuf.PutAllFits` | libnpfs/np.c:51-75 | a list of puts that fits leaves exactly their bytes |
| `Cbuf.PutAllMarked` | libnpfs/np.c:45-62 | a mark is never taken back by a put |
| `Cbuf.PutAllFull` | libnpfs/np.c:51-62 | puts at a cursor that stands exactly at the end change nothing and mark nothing |
| `Cbuf.IntThere` | libnpfs/np.c:220-278 | an integer reads back from between any two strings of bytes |
| `Wire.AllAhead` | libnpfs/np.c:77-332 | every list of values reads back, field by field, and the cursor ends right behind it |
| `Wire.FieldAhead` | libnpfs/np.c:77-332 | so does every single value |
| `Wire.PutValue` | libnpfs/np.c:77-218 | the method writes the value's pieces, each checked for room on its own |
| `Wire.ReadField` | libnpfs/np.c:220-332 | the method reads what the reading function says, and moves the cursor as it says |
| `Codec.Agrees` | libnpfs/np.c:457-1921 | but for the listed constructors, the size asked for is that of the fields put, and the parser's case takes these fields in this order |
| `Codec.RoundTripsExactly` | libnpfs/np.c:1924-2328 | parsing what a constructor built returns every field and ends exactly at the end, iff the call is not one of the list |
| `Codec.RegularRoundTrips` | libnpfs/np.c:423-455 | the same for all constructors whose size and layout agree |
| `Calls.ArgumentsReadBack` | libnpfs/np.c:1924-2328 | np_deserialize finds each argument of a constructor under its own name, in a message of the constructor's own type, for every call that is not on the list |
| `Calls.Arguments` | libnpfs/np.c:457-1921 | the values that a constructor puts are its arguments, each in the place where the parser reads the field of that name; so too for Rstatfs and for Tauth with a user |
| `Calls.TypesExactly` | libnpfs/np.c:1944-2318 | the parser has a case for just the types of the calls, Tsetattr and Rgetlock among them |
| `Calls.TwalkBytes` | libnpfs/np.c:677-705 | the fid at byte 7, the new one at 11, the number of names at 15, and each name behind its length |
| `Calls.HeaderBytes` | libnpfs/np.c:423-446 | size, type and tag at bytes 0, 4 and 5, and the body from 7 on |
| `Calls.TlerrorBytes` | libnpfs/np.c:1078-1095 | the bytes of a message the parser has no case for |
| `Calls.RgetlockBytes` | libnpfs/np.c:1753-1773 | the bytes of a message the parser reads otherwise |
| `Calls.StatArguments` | libnpfs/np.c:172-199 | the fields of a stat record stand where the parser reads those of the same names |
| `Calls.StatBytes` | libnpfs/np.c:172-199 | the bytes of a stat record, piece by piece |
| `Calls.StatReadsBack` | libnpfs/np.c:2376-2391 | np_deserialize_stat returns each field of the record under its own name |
| `Codec.TcreateRoundTrips` | libnpfs/np.c:774-795 | Tcreate under 9P2000.u reads back with an empty extension |
| `Codec.TauthDropsUid` | libnpfs/np.c:497-524 | Tauth under 9P2000.u reads back iff n_uname is 0 |
| `Codec.TsetattrOverflows` | libnpfs/np.c:1452-1480 | np_create_tsetattr always runs over its buffer and so returns NULL |
| `Codec.RstatfsStopsShort` | libnpfs/np.c:364-369 | the parser stops 4 bytes before the end of an Rstatfs |
| `Codec.NotInverseFails` | libnpfs/np.c:1753-1780 | no call of the list reads back, whatever its arguments |
| `Codec.OtherCountMisreads` | libnpfs/np.c:2271-2278 | a case with another number of fields never yields the fields put |
| `Codec.PacketReadsBack` | libnpfs/np.c:1924-2328 | a message of the fields of its type reads back, whatever stands behind it in the buffer |
| `Cuts.CutExactly` | libnpfs/np.c:51-62 | a message cut short, its size corrected, is accepted iff its type is there and the cut falls between two of the pieces that the parser reads |
| `Cuts.FieldsCut` | libnpfs/np.c:220-332 | a cursor with part of some fields left comes to the end when the part is whole pieces, and is marked otherwise |
| `Cuts.FieldCut` | libnpfs/np.c:220-332 | the same for one field of any kind, lists of names and of qids included |
| `Cuts.BetweenMeans` | libnpfs/np.c:51-62 | what it is to fall between two pieces: to be the first so many of them |
| `Codec.CutBetweenFields` | libnpfs/np.c:51-62 | a message that ends between two fields is accepted, with zero or empty values for the rest |
| `Codec.CutInsideInteger` | libnpfs/np.c:51-62 | one that ends inside an integer is refused |
| `Codec.MarkStays` | libnpfs/np.c:45-62 | once marked, the reading cursor stays so to the end of the message |
| `Codec.EncAllLength` | libnpfs/np.c:77-218 | the bytes of a list of values are as many as the constructors count |
| `Codec.WstatLength` | libnpfs/np.c:334-362 | size_wstat is the length of the record behind its own count |
| `Packets.Create` | libnpfs/np.c:423-455 | a constructor returns its packet, or NULL iff it refuses or runs over the buffer |
| `Packets.Deserialize` | libnpfs/np.c:1924-2328 | the method parses as the parsing function does, for every content of the buffer |
| `Packets.SetTag` | libnpfs/np.c:415-421 | the tag and no other byte is replaced |
| `Packets.SetRreadCount` | libnpfs/np.c:870-884 | the size and the count are replaced, and no other byte |
| `Packets.TaggedReadsBack` | libnpfs/np.c:415-421 | a tagged packet reads back with that tag and the same fields |
| `Packets.ShortenedReadsBack` | libnpfs/np.c:870-884 | an Rread cut down to count reads back as its first count bytes |
| `Framing.ReadProc` | libnpfs/conn.c:110-186 | for every way to cut the stream into reads, the reader queues the same messages in order and stops at the same one: the stream is messages that are accepted, which are those, and then one that is refused, or a part of one to wait for |
| `Framing.Dispatch` | libnpfs/conn.c:137-168 | the inner loop queues every whole message of the buffer and keeps the rest |
| `Framing.Examine` | libnpfs/conn.c:137-146 | what is decided about the front of the buffer depends on its bytes alone |
| `Framing.FrontExactly` | libnpfs/conn.c:137-146 | the reader waits iff there is no size field, or fewer bytes than it says, or it says more than the buffer holds; it gives up iff what is there is whole and not accepted, or of a negative size |
| `Framing.DeliveredExactly` | libnpfs/conn.c:110-186 | what is made of a stream is its accepted messages in order, and why it stops behind them, and nothing else |
| `Framing.AcceptedThen` | libnpfs/conn.c:137-168 | behind accepted messages, what is not accepted stops the reader, and a part of a message does not |
| `Framing.RefusedBehind` | libnpfs/conn.c:145-146 | a whole message that is refused stops it, whatever follows |
| `Framing.CutIsSteady` | libnpfs/conn.c:137-146 | that decision stays when more bytes come, and an accepted message is not empty |
| `Framing.FrontIsLonger` | libnpfs/conn.c:137-146 | an accepted message takes at least 5 bytes, and no more than msize or than are there |
| `Framing.FramesGrow` | libnpfs/conn.c:110-186 | what is queued stays queued when the stream grows, and after a refusal nothing is |
| `Framing.AllQueued` | libnpfs/conn.c:110-186 | a stream of acceptable messages is queued whole, in order |
| `Framing.BuiltIsQueued` | libnpfs/np.c:423-455 | what a constructor built is such a message, if the call is not on the list and fits msize |
| `Framing.ParseAlone` | libnpfs/np.c:1924-2328 | the parser looks at the bytes of the message alone |
| `DirRead.SerializedExactly` | libnpfs/np.c:2330-2352 | the whole record or nothing, but for one case that lacks the last two bytes: no .u, an empty muid, and room for just the size without its own count |
| `DirRead.CutEnd` | libnpfs/np.c:2330-2352 | what such a record lacks is the count of its muid |
| `DirRead.RecordReadsBack` | libnpfs/np.c:2376-2391 | a record reads back, whatever stands behind it |
| `DirRead.SerializeStat` | libnpfs/np.c:2330-2352 | the method writes these bytes and returns their number |
| `DirRead.DeserializeStat` | libnpfs/np.c:2376-2391 | the method reads these fields and returns their length |
| `DirRead.ReadExactly` | libnpfs/file.c:607-680 | a read returns the longest run of whole records that leaves a byte of room, and the cut one behind it if there is one |
| `DirRead.ReadsMost` | libnpfs/file.c:638-655 | without a cut, a read takes as many whole records as leave a byte of the reply free |
| `DirRead.CutsExactly` | libnpfs/np.c:2330-2352 | one is cut iff the records up to it are one byte longer than the room, and it has no muid |
| `DirRead.ReadsNothing` | libnpfs/file.c:607-680 | without a cut, a read returns nothing iff at the end or the next record does not fit |
| `DirRead.ListedExactly` | libnpfs/file.c:607-680 | the replies of successive reads are the records of the entries got past, in order, each once, iff no record was cut |
| `DirRead.ListedWhole` | libnpfs/file.c:607-680 | with counts that hold any one entry, the listing comes to its end |
| `DirRead.ListingReadsBack` | libnpfs/np.c:2376-2391 | the concatenated replies parse back to all entries in order |
| `DirRead.NeverCut` | libnpfs/np.c:334-362 | no record is cut when none can be, as under .u or with a muid everywhere |
| `DirRead.CutsHappen` | libnpfs/np.c:2330-2352 | an entry and a count for which a record is cut |
| `DirRead.DirFid.Tread` | libnpfs/fcall.c:445-505 | a reply iff the count fits msize, the fid is open for reading and the offset is the running one; then the next records, and offset and entry move on together |
| `DirRead.DirFid.TreadAll` | libnpfs/file.c:607-680 | a client that reads on, each time at the offset behind what it has, gets what the successive reads give, the whole records iff none is cut, for as many reads as begin below 2^32; the next one is refused |
| `DirRead.DirFid.FillReply` | libnpfs/file.c:638-655 | the loop stops where there is no room, no entry, or an entry that is not written, and has written all before |
| `DirRead.LoopEnds` | libnpfs/file.c:640-652 | there it has read what the reading function says |
| `Checkpoint.ImageReadsBack` | libufs/ufs.c:335-399 | restore reads from an image exactly the head and the records it was made of, to the last byte |
| `Checkpoint.ImageBytes` | libufs/ufs.c:211-243 | the bytes of a checkpoint: msize, dotu, dotl, the number of fids, and each fid behind it |
| `Checkpoint.RecordedBytes` | libufs/ufs.c:222-242 | the bytes of a fid: number, open mode, type, directory offset, user, and the path, open mode and xattr of its file, each from its own field |
| `Checkpoint.ExtraIsRefused` | libufs/ufs.c:401-414 | an image with anything behind it is refused |
| `ImageCuts.CutImageExactly` | libufs/ufs.c:355-414 | an image cut short is taken iff the cut falls between two of the pieces it was put in |
| `ImageCuts.CountExactly` | libufs/ufs.c:352-414 | an image that announces n fids is taken iff n is a C int and it holds no more, and reads as those it holds and blank ones for the rest |
| `ImageCuts.RecCut` | libufs/ufs.c:362-399 | a record cut short reads as a record, at the end, iff its pieces are whole |
| `Checkpoint.SizeOf` | libufs/ufs.c:188-209 | the size counted beforehand is the length of the image, if that is a C int |
| `Checkpoint.WriteImage` | libufs/ufs.c:211-243 | the bytes written are the image of the records, and fill the buffer |
| `Checkpoint.Release` | libufs/ufs.c:254-256 | each listed fid gives back one reference, and none leaves the pool |
| `Checkpoint.Checkpoint` | libufs/ufs.c:180-259 | the image of the fids in the order of the hash chains; map, chains and counts end as they were |
| `Checkpoint.RestoreOne` | libufs/ufs.c:355-399 | one turn reads one record and gives a new number a fid at the head of its chain with the record's fields |
| `Checkpoint.SetUp` | libufs/ufs.c:277-319 | every restored fid gains one reference |
| `Checkpoint.Restore` | libufs/ufs.c:335-456 | into an empty pool: it succeeds iff the image is read to its last byte; for records with different numbers the pool then holds one fid for each, with one reference, in the chains that creating them in order makes; for any records, one for each number, with the fields of the last record and as many references as records |
| `Checkpoint.RestoredRepeated` | libufs/ufs.c:355-399 | the numbers in the restored pool are the records'; each fid has the fields of the last record with its number, and as many references as there are such records |
| `Checkpoint.LastOfMeans` | libufs/ufs.c:355-399 | that record is the one behind which no other has the number |
| `Checkpoint.RestoredMap` | libufs/ufs.c:355-399 | the restored pool maps each record's number to a fid with the record's fields and one reference, and no other number |
| `Checkpoint.RestoredListing` | libufs/ufs.c:218-237 | a checkpoint of it lists the records in their cycled order |
| `Checkpoint.CycleReverses` | libnpfs/fidpool.c:87-102 | one cycle reverses each bucket's group of records |
| `Checkpoint.TwoCycles` | libnpfs/fidpool.c:175-180 | two give back the same bytes |
| `Checkpoint.TakeOver` | libufs/ufs.c:335-399 | restoring an image into a new pool and checkpointing that gives the image of the records in their cycled order |
| `Checkpoint.CheckpointCycles` | libufs/ufs.c:180-259 | checkpoint, restore, checkpoint, restore and checkpoint, on pools in memory: the third image is the first, byte for byte |
| `Checkpoint.PoolCycles` | libufs/ufs.c:180-259 | the records of any pool's checkpoint have different numbers, and two cycles give back its bytes |
| `Futex.ExclusionStep` | fs/fus.c:290-311 | every step keeps: the word is nonzero iff exactly one thread holds or is releasing the lock |
| `Futex.NoLostWakeupStep` | fs/fus.c:290-311 | every step keeps: with a sleeper, the word is 2 or somebody is on the way to the word |
| `Futex.Safety` | fs/fus.c:290-311 | both over every run of any number of threads |
| `Futex.MutualExclusion` | fs/fus.c:290-300 | no two threads own the lock |
| `Futex.QuiescentMeansNoSleeper` | fs/fus.c:302-311 | when every thread is outside or asleep, the lock is free and none is asleep |
| `Futex.SleeperIsServed` | fs/fus.c:302-311 | beside a sleeper there is a thread that owns the lock or is about to look at the word or to wake somebody |
| `Futex.EveryoneCanGetIt` | fs/fus.c:290-311 | in every reachable state, every thread that does not have the lock and is not giving it back can come to have it, without a FUTEX_WAIT that returns of its own |
| `Futex.Uncontended` | fs/fus.c:290-311 | a free lock is taken and given back by one instruction each |
| `Cipher.BlockUndone` | libnpauth/msgs.c:30-72 | decrypting a block in place undoes encrypting it |
| `Cipher.Crypt` | libnpauth/msgs.c:42-47 | a call of DES turns the 8 bytes at its offset into their image, and leaves the others |
| `Cipher.StartsExactly` | libnpauth/msgs.c:38-47 | the offsets of the calls are the starts of the overlapping blocks, each once, from the front to the back |
| `Cipher.RoundByRound` | libnpauth/msgs.c:41-47 | each call changes the block at its offset and nothing else |
| `Cipher.LastBlock` | libnpauth/msgs.c:46-47 | the last 8 bytes end as DES of what stood there before the last call; 8 bytes as DES of them |
| `Cipher.RoundsUndone` | libnpauth/msgs.c:51-72 | calls at any offsets are undone by those of the inverse at the same offsets in reverse order |
| `Cipher.DecryptUndoesEncrypt` | libnpauth/msgs.c:30-72 | for every length from 8 on and every key, odd last block included |
| `Cipher.EveryByteCovered` | libnpauth/msgs.c:30-49 | every block lies within the buffer, and every byte within a block |
| `Cipher.Encrypt` | libnpauth/msgs.c:30-49 | the calls of DES at these offsets in this order, in place; DES itself on 8 bytes; nothing under 8 bytes, which it refuses |
| `Cipher.Decrypt` | libnpauth/msgs.c:51-72 | the calls of the inverse at the same offsets, from the back to the front |
| `Ticket.EncFixed` | libnpauth/msgs.c:138-144 | a field of fixed length is copied at the cursor, and no other byte changes |
| `Ticket.EncPad` | libnpauth/msgs.c:167-179 | the string padded with NULs, iff one NUL fits; otherwise nothing changes |
| `Ticket.DecPad` | libnpauth/msgs.c:146-165 | accepts iff a NUL stands within the field or right behind it |
| `Ticket.EncTicket` | libnpauth/msgs.c:220-232 | the encrypted plain text of the ticket, iff both names leave room for a NUL |
| `Ticket.DecTicket` | libnpauth/msgs.c:207-218 | the ticket that the decrypted bytes hold |
| `Ticket.PlainFields` | libnpauth/msgs.c:220-232 | where each field of a ticket stands in its plain text, and the NULs behind the names |
| `Ticket.PaddedReadsBack` | libnpauth/msgs.c:146-179 | a padded string reads back |
| `Ticket.PlainOpens` | libnpauth/msgs.c:207-232 | the plain text of a ticket opens to the ticket |
| `Ticket.TicketRoundTrip` | libnpauth/msgs.c:207-232 | decTicket undoes encTicket under every key |
| `IdPool.M2id` | libnpclient/pool.c:31-64 | the table gives the lowest clear bit of every byte but 0xFF |
| `IdPool.Pool.Get` | libnpclient/pool.c:101-140 | the smallest id not in use, which alone is marked; it waits only when all ids of the map are in use; the map grows iff all are, maxid allows it and there is memory |
| `IdPool.Pool.Grow` | libnpclient/pool.c:115-127 | growth keeps every mark and adds none |
| `IdPool.Pool.Put` | libnpclient/pool.c:142-149 | exactly this id is freed |
| `IdPool.NeverExceedsExactly` | libnpclient/pool.c:115-118 | no id the map can hold exceeds maxid iff maxid is at least 255 and ends a byte or is a multiple of 256 |
| `IdPool.ClientPoolsNeverExceed` | libnpclient/pool.c:66-90 | so for the limits 0xFFFF and 0xFFFFFFFF |
| `RamFile.RoundUp` | fs/ramfs2.c:207-228 | the buffer covers the size with whole blocks, by less than a block |
| `RamFile.RoundUpGrows` | fs/ramfs2.c:207-228 | a larger size never gets a smaller buffer |
| `RamFile.File.Truncate` | fs/ramfs2.c:207-228 | the buffer becomes the rounded size and keeps the bytes that fit it, or stays when memory is short or the size no C int |
| `RamFile.File.Read` | fs/ramfs2.c:236-254 | the bytes of the file from the offset on, as many as asked for or as there are |
| `RamFile.File.Write` | fs/ramfs2.c:256-297 | the bytes at the offset or the end, zeros in any hole before them, or, when memory is short or the size no C int, nothing; the buffer still covers the length |
| `RamFile.File.SetLength` | fs/ramfs2.c:334-349 | the file cut, or grown with zeros over whatever the block held, or as it was |
| `RamFile.LastOperationWins` | fs/ramfs2.c:236-349 | over any run, a byte is what the last operation that reached it put there |
| `RamFile.UntouchedIsZero` | fs/ramfs2.c:236-349 | and zero if none did |
| `RamFile.InsideExactly` | fs/ramfs2.c:236-349 | over any run, a byte is inside the file iff some operation has reached past it and no length change since has cut it off |

## Left out

- Sockets, pipes, RDMA, thread creation, chroot confinement, the user and group databases, debug printing and the calls
  to the host's file system: input, output and foreign code. The answers of the file system are oracles.
- The rest of `fs/fus.c`: its fid table, message reading and handlers.
- `np_serialize_dirent` and the 9P2000.L reads of directories built on it.
- Engine: a Tflush of a Tflush or of itself; `ReqLists.Srv.Flush` says what becomes of the pointers then (it hangs on the
  chain that the other Tflush is on, is forgotten when that one hangs itself later, or points at itself). The order of
  the Rflushes of several Tflushes of one request, which is newest first where flush(5) asks for the order of arrival. A
  Tflush that comes between the unlinking of its target and the writing of the reply finds no target, and its Rflush can
  overtake that reply: nothing is claimed about it.
- Engine: a Tversion resets its connection at most once, as np_default_version does.
- Engine: Reply and Rflush are the calls of `np_conn_respond`, which writes nothing once the connection is resetting or
  its transport is gone. A backend responds to each request once; the test of `responded` for a second response is not
  modelled.
- Engine: the counts of references to requests are not modelled, but who holds one: the request itself until it is given
  back, and each reset that waits for it. np_flush holds its target only while it runs. A request given back goes to
  reqpool; that the pool keeps 64 and frees the others, whose memory then belongs to anybody, is left out.
- Engine: a thread whose loop has gone astray stops there. What it would do to the other request, which it would answer
  and give back, is left out; the results about every run hold up to that point.
- Flushes.ForgetsExactly: when resets that have still to wait hold every Tflush but the oldest, and the connection has a
  Tflush aimed at a Tflush or at a Tversion, whether one can be lost depends on whether those resets can come to their
  end, which they cannot always (`Flushes.FlushedVersionWaits`); then only the direction from one Tflush to no loss is
  claimed.
- Flushes.StraysExactly: likewise, for all of its Tflushes.
- Wakeups.WokenExactly: with the reader gone, the flag down and a Tflush of the connection queued, only the direction from
  a run that wakes the reset to the condition is claimed: what such a Tflush finds to do decides the other.
  pthread_cond_wait wakes nobody without a broadcast; the requests a reset has swept are answered in one step with the
  sweep; that a thread about to respond goes on to do so is not modelled, as in Futex.
- Engine: the destruction of the fid pool in a reset, and requests that use fids meanwhile.
- ReqLists.Srv.Sweep: the answers to the swept requests are not modelled.
- FidRefs.Conservation: takes the client's rules: no walk to a number in use, nothing clunked twice, no auth fids. A
  refused clone and the Orclose clunk are left out; in np_walk the creation, the clone and the first reference are one
  step; a Tlink that returns before it has looked for its second fid counts as one that has not found it.
- Walk.WalkInPlace: what the backend has done to a fid that was moved part of the way is not modelled.
- Teardown.Conservation: `np_conn_create` and its reader's first reference are one step; np_pipesrv_start and the RDMA
  listener, which list a connection twice, are left out.
- Cbuf.Cbuf.GetBytes: lengths of 2^31 and more, which `buf_alloc` would take for negative ones, are left out.
- Wire.AllAhead: for the same reason the counts of Tread data and the like are below 2^31.
- Codec.RoundTripsExactly: `np_create_rerror1` is left out, whose error string has no count; failing allocation is left
  out; a NULL string stands for an empty one; the error number of Rlerror is the one np_errno_to_linux returns, which on
  Linux is the one it is given.
- Calls.StatArguments: without .u the parser leaves the numeric ids of a stat record as they were; here they read as 0.
- Cuts.CutExactly: says which messages are accepted; what the fields read as is said for cuts between fields only.
- Framing.ReadProc: the parameters do not change while it reads, and nothing resets or closes the connection; the four
  sizes from 0x80000000 on for which the computation of the remaining bytes wraps are treated like the other negative
  ones.
- DirRead.DirFid.Tread: the directory does not change; the auth and xattr branches of np_read are left out; counts are
  below 2^31.
- Checkpoint.SizeOf: images of 2^31 bytes and more, whose size the C int cannot count, are left out, here and in
  Checkpoint.Checkpoint.
- Checkpoint.Restore: an xattr value that is announced with 2^31 bytes or more is refused here, while `buf_alloc` cuts its
  size to a C int. Reopening the files and looking up the users are left out, as is what follows from their failing.
  An image cut between a string's count and its bytes is refused here, while the code copies from NULL; one cut before an
  xattr value has an empty value here, while the code leaves it as malloc gave it.
- Checkpoint.ImageReadsBack: values of xattrs have fewer than 2^31 bytes, names are not empty when present, and an xattr
  value is there iff the fid's type says so.
- Cipher.DecryptUndoesEncrypt: DES is any pair of functions on blocks of 8 bytes of which the one undoes the other; the
  secrecy of p9sk1 is not modelled.
- Ticket.TicketRoundTrip: names hold no NUL; the ticket request and the authenticator are left out, the latter because
  its integers are put together from signed characters.
- IdPool.Pool.Get: waiting for another thread's npc_put_id is one failed attempt; the number of bits of the map is a C
  int.
- RamFile.File.SetLength: the renaming part of rfs_wstat is left out.
- RamFile.File.Truncate: sizes that round to 2^32 or more, which the C int makes small again, are left out, here and in
  Write and SetLength; so are reads of more than 2^31 bytes, or from more than 2^31 bytes behind the end, in Read.
