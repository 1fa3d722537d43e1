/** The writing side of the PTY event loop: a message channel, a queue of chunks and partial writes. */
module PtyWrite {
  import opened Common
  import opened Arith

  datatype Msg = Input(bytes: Bytes) | Shutdown | Resize(columns: nat, lines: nat)

  /** A chunk and how much of it has been written. */
  datatype Writing = Writing(source: Bytes, written: nat) {
    predicate Valid() { written <= |source| }

    function Rest(): Bytes
      requires Valid()
    {
      source[written..]
    }

    predicate Finished() { written >= |source| }
  }

  /** What one write to the PTY does; a short write accepts fewer bytes than it was given. */
  datatype WriteOutcome = Accepts(count: nat) | Interrupted | WouldBlock | WriteFails

  /** The PTY takes nothing now, which is no error. */
  predicate Refuses(o: WriteOutcome) {
    o in {Interrupted, WouldBlock, Accepts(0)}
  }

  // ----- What the PTY takes -----

  /** Number of bytes taken when `room` are offered. */
  function TakenOf(o: WriteOutcome, room: nat): (n: nat)
    ensures n <= room
  {
    if o.Accepts? then Min(o.count, room) else 0
  }

  /** What is left of a chunk after the calls from `start` to `calls`, each of which offers all that is left. */
  function Left(rest: Bytes, io: nat -> WriteOutcome, start: nat, calls: nat): Bytes {
    if calls <= start then rest
    else
      var before := Left(rest, io, start, calls - 1);
      before[TakenOf(io(calls - 1), |before|)..]
  }

  /** A queue of chunks after one more call, which offers the first chunk. */
  function Delivered(chunks: seq<Bytes>, o: WriteOutcome): seq<Bytes> {
    if chunks == [] then []
    else
      var n := TakenOf(o, |chunks[0]|);
      if n == 0 then chunks
      else if n == |chunks[0]| then chunks[1..]
      else [chunks[0][n..]] + chunks[1..]
  }

  /** A queue of chunks after the calls from `start` to `calls`. */
  function Queue(chunks: seq<Bytes>, io: nat -> WriteOutcome, start: nat, calls: nat): seq<Bytes> {
    if calls <= start then chunks else Delivered(Queue(chunks, io, start, calls - 1), io(calls - 1))
  }

  lemma {:induction false} QueueGoesOn(
    chunks: seq<Bytes>, io: nat -> WriteOutcome, start: nat, middle: nat, calls: nat)
    requires start <= middle <= calls
    ensures Queue(Queue(chunks, io, start, middle), io, middle, calls) == Queue(chunks, io, start, calls)
  {
    if middle < calls {
      QueueGoesOn(chunks, io, start, middle, calls - 1);
    }
  }

  /** Each of these calls takes something, and none finishes the chunk. */
  predicate GoesOn(rest: Bytes, io: nat -> WriteOutcome, start: nat, calls: nat) {
    calls <= start
    || (GoesOn(rest, io, start, calls - 1) && io(calls - 1).Accepts? && io(calls - 1).count > 0
        && Left(rest, io, start, calls) != [])
  }

  /** As long as the first chunk is not finished, the calls are about that chunk alone. */
  lemma {:induction false} QueueWhileGoing(
    rest: Bytes, list: seq<Bytes>, io: nat -> WriteOutcome, start: nat, calls: nat)
    requires rest != [] && GoesOn(rest, io, start, calls)
    ensures Left(rest, io, start, calls) != []
    ensures Queue([rest] + list, io, start, calls) == [Left(rest, io, start, calls)] + list
  {
    if start < calls {
      QueueWhileGoing(rest, list, io, start, calls - 1);
      var before := Left(rest, io, start, calls - 1);
      assert ([before] + list)[1..] == list;
    }
  }

  /** The call after them may finish it. */
  lemma QueueOfFirst(rest: Bytes, list: seq<Bytes>, io: nat -> WriteOutcome, start: nat, calls: nat)
    requires rest != [] && start < calls && GoesOn(rest, io, start, calls - 1)
    ensures Queue([rest] + list, io, start, calls)
         == if Left(rest, io, start, calls) == [] then list else [Left(rest, io, start, calls)] + list
  {
    QueueWhileGoing(rest, list, io, start, calls - 1);
    var before := Left(rest, io, start, calls - 1);
    assert ([before] + list)[1..] == list;
  }

  /** After some calls: what is left of the chunk, and the bytes that the PTY has had before and has now. */
  ghost predicate Offered(
    rest: Bytes, left: Bytes, io: nat -> WriteOutcome, start: nat, calls: nat, before: Bytes, wrote: Bytes)
  {
    start <= calls && left == Left(rest, io, start, calls) && wrote + left == before + rest && before <= wrote
  }

  lemma OfferedOneMore(
    rest: Bytes, left: Bytes, io: nat -> WriteOutcome, start: nat, calls: nat, before: Bytes, wrote: Bytes)
    requires Offered(rest, left, io, start, calls, before, wrote)
    ensures var n := TakenOf(io(calls), |left|);
      Offered(rest, left[n..], io, start, calls + 1, before, wrote + left[..n])
  {
    var n := TakenOf(io(calls), |left|);
    assert (wrote + left[..n]) + left[n..] == wrote + left;
  }

  lemma GoesOnOneMore(rest: Bytes, io: nat -> WriteOutcome, start: nat, calls: nat)
    requires start <= calls && GoesOn(rest, io, start, calls) && Left(rest, io, start, calls + 1) != []
    requires TakenOf(io(calls), |Left(rest, io, start, calls)|) > 0
    ensures GoesOn(rest, io, start, calls + 1)
  {
  }

  /** What the calls for the first chunk do to the bytes and to the queue. */
  lemma ChunkWritten(
    rest: Bytes, left: Bytes, list: seq<Bytes>, io: nat -> WriteOutcome, start: nat, calls: nat,
    before: Bytes, wrote: Bytes)
    requires start < calls && GoesOn(rest, io, start, calls - 1)
    requires Offered(rest, left, io, start, calls, before, wrote)
    ensures wrote + (left + Flatten(list)) == before + (rest + Flatten(list)) && before <= wrote
    ensures rest != [] ==> Queue([rest] + list, io, start, calls) == (if left == [] then [] else [left]) + list
  {
    AppendBoth(wrote, left, before, rest, Flatten(list));
    if rest != [] {
      QueueOfFirst(rest, list, io, start, calls);
      assert [] + list == list;
    }
  }

  lemma AppendBoth(a: Bytes, b: Bytes, c: Bytes, d: Bytes, tail: Bytes)
    requires a + b == c + d
    ensures a + (b + tail) == c + (d + tail)
  {
    assert a + (b + tail) == (a + b) + tail;
    assert c + (d + tail) == (c + d) + tail;
  }

  // ----- Bytes of queues -----

  function Flatten(chunks: seq<Bytes>): Bytes {
    if chunks == [] then [] else chunks[0] + Flatten(chunks[1..])
  }

  lemma {:induction false} FlattenAppend(chunks: seq<Bytes>, chunk: Bytes)
    ensures Flatten(chunks + [chunk]) == Flatten(chunks) + chunk
  {
    if chunks == [] {
      assert [chunk][1..] == [];
    } else {
      FlattenAppend(chunks[1..], chunk);
      assert (chunks + [chunk])[1..] == chunks[1..] + [chunk];
    }
  }

  /** The input carried by messages, in order. */
  function InputBytes(msgs: seq<Msg>): Bytes {
    if msgs == [] then []
    else (if msgs[0].Input? then msgs[0].bytes else []) + InputBytes(msgs[1..])
  }

  lemma {:induction false} InputBytesAppend(a: seq<Msg>, b: seq<Msg>)
    ensures InputBytes(a + b) == InputBytes(a) + InputBytes(b)
  {
    if a == [] {
      assert a + b == b;
    } else {
      InputBytesAppend(a[1..], b);
      assert (a + b)[1..] == a[1..] + b;
    }
  }

  /** Every input byte sent is written, unwritten or pending, once and in order. */
  predicate Balanced(wrote: Bytes, unwritten: Bytes, pending: seq<Msg>, sent: seq<Msg>) {
    wrote + unwritten + InputBytes(pending) == InputBytes(sent)
  }

  lemma BalancedSend(wrote: Bytes, unwritten: Bytes, pending: seq<Msg>, sent: seq<Msg>, msgs: seq<Msg>)
    requires Balanced(wrote, unwritten, pending, sent)
    ensures Balanced(wrote, unwritten, pending + msgs, sent + msgs)
  {
    InputBytesAppend(pending, msgs);
    InputBytesAppend(sent, msgs);
    assert wrote + unwritten + (InputBytes(pending) + InputBytes(msgs))
        == wrote + unwritten + InputBytes(pending) + InputBytes(msgs);
  }

  lemma BalancedReceive(wrote: Bytes, unwritten: Bytes, pending: seq<Msg>, sent: seq<Msg>)
    requires Balanced(wrote, unwritten, pending, sent) && pending != []
    ensures pending[0].Input? ==> Balanced(wrote, unwritten + pending[0].bytes, pending[1..], sent)
    ensures !pending[0].Input? ==> Balanced(wrote, unwritten, pending[1..], sent)
  {
    if pending[0].Input? {
      var b := pending[0].bytes;
      assert wrote + unwritten + (b + InputBytes(pending[1..])) == wrote + (unwritten + b) + InputBytes(pending[1..]);
    }
  }

  predicate NoShutdown(msgs: seq<Msg>) {
    forall i :: 0 <= i < |msgs| ==> !msgs[i].Shutdown?
  }

  lemma NoShutdownTail(msgs: seq<Msg>)
    requires msgs != []
    ensures NoShutdown(msgs) <==> !msgs[0].Shutdown? && NoShutdown(msgs[1..])
  {
    assert msgs == [msgs[0]] + msgs[1..];
  }

  lemma NoShutdownAppend(a: seq<Msg>, b: seq<Msg>)
    ensures NoShutdown(a + b) <==> NoShutdown(a) && NoShutdown(b)
  {
    assert a == (a + b)[..|a|] && b == (a + b)[|a|..];
  }

  predicate NonEmptyInputs(msgs: seq<Msg>) {
    forall i :: 0 <= i < |msgs| && msgs[i].Input? ==> msgs[i].bytes != []
  }

  lemma NonEmptyAppend(a: seq<Msg>, b: seq<Msg>)
    ensures NonEmptyInputs(a) && NonEmptyInputs(b) ==> NonEmptyInputs(a + b)
  {
  }

  lemma AppendLast(a: seq<Msg>, b: seq<Msg>, c: seq<Msg>)
    ensures a + (b + c) == (a + b) + c
  {
  }

  predicate NonEmptyChunks(chunks: seq<Bytes>) {
    forall i :: 0 <= i < |chunks| ==> chunks[i] != []
  }

  lemma FlattenEmpty(chunks: seq<Bytes>)
    requires NonEmptyChunks(chunks)
    ensures Flatten(chunks) == [] <==> chunks == []
  {
  }

  // ----- The loop -----

  /** Events of one poll; the outcome of a read does not touch the write queue but may end the loop. */
  datatype ReadOutcome = ReadDone | ReadHangup | ReadFails

  datatype PollEvent =
    | ChildExited
    | ReadWrite(interrupt: bool, readable: Option<ReadOutcome>, writable: bool, io: nat -> WriteOutcome)
    | OtherEvent

  predicate EndsLoop(e: PollEvent) {
    e.ChildExited? || (e.ReadWrite? && !e.interrupt && e.readable == Some(ReadFails))
  }

  /** Events that let queued bytes be written. */
  predicate LetsWrite(e: PollEvent) {
    e.ReadWrite? && !e.interrupt && e.readable !in {Some(ReadHangup), Some(ReadFails)} && e.writable
  }

  /** The PTY was asked to take bytes and refused. */
  ghost predicate Refused(e: PollEvent) {
    LetsWrite(e) && exists n :: Refuses(e.io(n))
  }

  /** Whether an event of a poll lets bytes be written. */
  predicate AnyWrites(events: seq<PollEvent>) {
    events != [] && (AnyWrites(events[..|events| - 1]) || LetsWrite(events[|events| - 1]))
  }

  /** Whether the PTY refused to take bytes at an event of a poll. */
  ghost predicate AnyRefused(events: seq<PollEvent>) {
    events != [] && (AnyRefused(events[..|events| - 1]) || Refused(events[|events| - 1]))
  }

  predicate NoneEnds(events: seq<PollEvent>) {
    forall i :: 0 <= i < |events| ==> !EndsLoop(events[i])
  }

  /** The event ends the loop, or does if a write fails. */
  ghost predicate MayEnd(e: PollEvent) {
    EndsLoop(e) || (LetsWrite(e) && exists n :: e.io(n) == WriteFails)
  }

  ghost predicate SomeMayEnd(events: seq<PollEvent>) {
    exists i :: 0 <= i < |events| && MayEnd(events[i])
  }

  lemma OneMoreEvent(events: seq<PollEvent>, i: nat)
    requires i < |events|
    ensures events[..i + 1] != [] && events[..i + 1][..i] == events[..i] && events[..i + 1][i] == events[i]
  {
  }

  datatype Poll = PollInterrupted | PollFails | Ready(events: seq<PollEvent>)

  /** One pass: messages that arrive before the poll returns, its result, and messages that arrive after the peek. */
  datatype Pass = Pass(early: seq<Msg>, poll: Poll, late: seq<Msg>)

  predicate NoEmptyArrivals(script: seq<Pass>) {
    forall i :: 0 <= i < |script| ==> NonEmptyInputs(script[i].early) && NonEmptyInputs(script[i].late)
  }

  /** No shutdown message arrives during the pass. */
  predicate StaysOpen(p: Pass) {
    NoShutdown(p.early) && NoShutdown(p.late)
  }

  predicate AllStayOpen(script: seq<Pass>) {
    forall i :: 0 <= i < |script| ==> StaysOpen(script[i])
  }

  /** The poll and its events let the loop go on. */
  predicate GoesOnAfter(p: Pass) {
    !p.poll.PollFails? && (p.poll.Ready? ==> NoneEnds(p.poll.events))
  }

  predicate AllGoOn(script: seq<Pass>) {
    forall i :: 0 <= i < |script| ==> GoesOnAfter(script[i])
  }

  /** The poll or one of its events may end the loop. */
  ghost predicate PassMayEnd(p: Pass) {
    p.poll.PollFails? || (p.poll.Ready? && SomeMayEnd(p.poll.events))
  }

  /** All messages that arrive during a run. */
  ghost function Arrivals(script: seq<Pass>): seq<Msg> {
    if script == [] then []
    else Arrivals(script[..|script| - 1]) + script[|script| - 1].early + script[|script| - 1].late
  }

  lemma OneMorePass(script: seq<Pass>, i: nat, before: seq<Msg>)
    requires i < |script|
    ensures before + Arrivals(script[..i + 1]) == before + Arrivals(script[..i]) + script[i].early + script[i].late
    ensures AllStayOpen(script[..i + 1]) <==> AllStayOpen(script[..i]) && StaysOpen(script[i])
    ensures AllStayOpen(script) ==> AllStayOpen(script[..i]) && StaysOpen(script[i])
    ensures AllGoOn(script[..i + 1]) <==> AllGoOn(script[..i]) && GoesOnAfter(script[i])
  {
    assert script[..i + 1] == script[..i] + [script[i]];
    assert script == script[..i] + script[i..];
  }

  class EventLoop {
    var channel: seq<Msg>
    var peeked: Option<Msg>
    var writeList: seq<Bytes>
    var writing: Option<Writing>
    var writable: bool
    ghost var sent: seq<Msg>
    ghost var wrote: Bytes

    ghost predicate Valid()
      reads this
    {
      writing.Some? ==> writing.value.Valid()
    }

    /** Bytes taken from the channel that the PTY has not accepted. */
    ghost function Unwritten(): Bytes
      requires Valid()
      reads this
    {
      (if writing.Some? then writing.value.Rest() else []) + Flatten(writeList)
    }

    /** The same, chunk by chunk. */
    ghost function Chunks(): seq<Bytes>
      requires Valid()
      reads this
    {
      (if writing.Some? then [writing.value.Rest()] else []) + writeList
    }

    /** Messages not yet received, the peeked one first. */
    ghost function Pending(): seq<Msg>
      reads this
    {
      (if peeked.Some? then [peeked.value] else []) + channel
    }

    /** No shutdown message is waiting to be received. */
    ghost predicate Open()
      reads this
    {
      NoShutdown(Pending())
    }

    ghost predicate Conserved()
      reads this
    {
      Valid() && Balanced(wrote, Unwritten(), Pending(), sent)
    }

    /** No queue holds an empty chunk. */
    ghost predicate Healthy()
      reads this
    {
      && NonEmptyInputs(Pending()) && NonEmptyChunks(writeList)
      && (writing.Some? ==> writing.value.written < |writing.value.source|)
    }

    constructor ()
      ensures Conserved() && Healthy() && sent == [] && wrote == [] && Pending() == [] && Unwritten() == []
      ensures !writable && writing == None && writeList == []
    {
      channel, peeked, writeList, writing, writable := [], None, [], None, false;
      sent, wrote := [], [];
    }

    /** Messages put into the channel by other threads. */
    method Send(msgs: seq<Msg>)
      requires Conserved()
      modifies this`channel, this`sent
      ensures Conserved() && Pending() == old(Pending()) + msgs && sent == old(sent) + msgs
      ensures old(Healthy()) && NonEmptyInputs(msgs) ==> Healthy()
      ensures Open() <==> old(Open()) && NoShutdown(msgs)
    {
      ghost var pending, unwritten := Pending(), Unwritten();
      BalancedSend(wrote, unwritten, pending, sent, msgs);
      NoShutdownAppend(pending, msgs);
      NonEmptyAppend(pending, msgs);
      AppendLast(if peeked.Some? then [peeked.value] else [], channel, msgs);
      channel := channel + msgs;
      sent := sent + msgs;
      assert Pending() == pending + msgs && Unwritten() == unwritten;
    }

    /** Input from the terminal; empty input is dropped because it would block the queue. */
    method Notify(bytes: Bytes)
      requires Conserved()
      modifies this`channel, this`sent
      ensures Conserved() && InputBytes(sent) == old(InputBytes(sent)) + bytes
      ensures old(Healthy()) ==> Healthy()
    {
      if bytes == [] {
        return;
      }
      InputBytesAppend(sent, [Input(bytes)]);
      assert InputBytes([Input(bytes)]) == bytes;
      Send([Input(bytes)]);
    }

    method Peek() returns (message: Option<Msg>)
      modifies this`channel, this`peeked
      ensures Pending() == old(Pending())
      ensures old(Conserved()) ==> Conserved()
      ensures old(Healthy()) ==> Healthy()
      ensures message == if Pending() == [] then None else Some(Pending()[0])
    {
      if peeked == None && channel != [] {
        peeked := Some(channel[0]);
        channel := channel[1..];
        assert Pending() == old(Pending());
      }
      message := peeked;
    }

    method Recv() returns (message: Option<Msg>)
      modifies this`channel, this`peeked
      ensures message == if old(Pending()) == [] then None else Some(old(Pending())[0])
      ensures Pending() == if old(Pending()) == [] then [] else old(Pending())[1..]
      ensures old(Healthy()) ==> Healthy()
      ensures old(Healthy()) && message.Some? && message.value.Input? ==> message.value.bytes != []
    {
      ghost var pending := Pending();
      assert pending != [] && NonEmptyInputs(pending) ==> NonEmptyInputs(pending[1..]);
      if peeked.Some? {
        message := peeked;
        peeked := None;
      } else if channel == [] {
        message := None;
      } else {
        message := Some(channel[0]);
        channel := channel[1..];
      }
    }

    /** Receive one message and queue the input that it carries. */
    method HandleOne() returns (message: Option<Msg>)
      requires Conserved()
      modifies this`channel, this`peeked, this`writeList
      ensures Conserved()
      ensures old(Healthy()) ==> Healthy()
      ensures message == if old(Pending()) == [] then None else Some(old(Pending())[0])
      ensures Pending() == if old(Pending()) == [] then [] else old(Pending())[1..]
    {
      ghost var pending, unwritten := Pending(), Unwritten();
      message := Recv();
      if message.Some? {
        BalancedReceive(wrote, unwritten, pending, sent);
        if message.value.Input? {
          QueueInput(message.value.bytes);
        }
      }
    }

    /** Queue all received input; false once a shutdown message was received. */
    method DrainRecvChannel() returns (alive: bool)
      requires Conserved()
      modifies this`channel, this`peeked, this`writeList
      ensures Conserved()
      ensures old(Healthy()) ==> Healthy()
      ensures alive <==> old(Open())
      ensures alive ==> Pending() == []
    {
      ghost var healthy, open := Healthy(), NoShutdown(Pending());
      while true
        invariant Conserved() && (healthy ==> Healthy())
        invariant open <==> NoShutdown(Pending())
        decreases |Pending()|
      {
        ghost var pending := Pending();
        var message := HandleOne();
        if message == None {
          return true;
        }
        NoShutdownTail(pending);
        if message.value.Shutdown? {
          return false;
        }
      }
    }

    method QueueInput(bytes: Bytes)
      requires Valid()
      modifies this`writeList
      ensures Valid() && Unwritten() == old(Unwritten()) + bytes
      ensures old(Healthy()) && bytes != [] ==> Healthy()
    {
      FlattenAppend(writeList, bytes);
      writeList := writeList + [bytes];
      assert Unwritten() == old(Unwritten()) + bytes;
    }

    // ----- Writing -----

    method GotoNext()
      requires Valid() && writing == None
      modifies this`writing, this`writeList
      ensures Valid() && Unwritten() == old(Unwritten()) && Chunks() == old(Chunks())
      ensures writing == None <==> old(writeList) == []
      ensures if old(writeList) == [] then writeList == []
              else writeList == old(writeList)[1..] && writing.value == Writing(old(writeList)[0], 0)
    {
      if writeList != [] {
        writing := Some(Writing(writeList[0], 0));
        writeList := writeList[1..];
        assert Unwritten() == old(Unwritten());
      }
    }

    method EnsureNext()
      requires Valid()
      modifies this`writing, this`writeList
      ensures Valid() && Unwritten() == old(Unwritten()) && Chunks() == old(Chunks())
      ensures old(Healthy()) ==> Healthy()
      ensures writing == None ==> writeList == []
      ensures old(writing).Some? ==> writing == old(writing) && writeList == old(writeList)
    {
      if writing == None {
        GotoNext();
      }
    }

    predicate NeedsWrite()
      reads this
    {
      writing.Some? || writeList != []
    }

    /** Without empty chunks, there is something to write exactly when drained bytes are unwritten. */
    lemma NeedsWriteIffUnwritten()
      requires Valid() && Healthy()
      ensures NeedsWrite() <==> Unwritten() != []
    {
      FlattenEmpty(writeList);
    }

    /** The PTY, offered some bytes: it takes as many as its outcome says, if there are as many. */
    method Offer(bytes: Bytes, outcome: WriteOutcome) returns (taken: nat)
      modifies this`wrote
      ensures taken == TakenOf(outcome, |bytes|) && wrote == old(wrote) + bytes[..taken]
    {
      taken := TakenOf(outcome, |bytes|);
      wrote := wrote + bytes[..taken];
    }

    /** Offer what is left of a chunk and advance by what the PTY took. */
    method WriteOnce(now: Writing, outcome: WriteOutcome) returns (next: Writing)
      requires now.Valid()
      modifies this`wrote
      ensures next.Valid() && next.source == now.source
      ensures next.written == now.written + TakenOf(outcome, |now.Rest()|)
      ensures next.Rest() == now.Rest()[TakenOf(outcome, |now.Rest()|)..]
      ensures wrote == old(wrote) + now.Rest()[..TakenOf(outcome, |now.Rest()|)]
    {
      var taken := Offer(now.Rest(), outcome);
      next := now.(written := now.written + taken);
    }

    /** Offer the current chunk until it is written or the PTY takes no more; None means it is finished. */
    method WriteOne(current: Writing, io: nat -> WriteOutcome, start: nat)
      returns (left: Option<Writing>, failed: bool, calls: nat)
      requires current.Valid()
      modifies this`wrote
      ensures left.Some? ==> left.value.Valid()
      ensures Offered(current.Rest(), if left.Some? then left.value.Rest() else [], io, start, calls, old(wrote), wrote)
      ensures calls > start && GoesOn(current.Rest(), io, start, calls - 1)
      ensures current.Rest() != [] ==> (left == None <==> Left(current.Rest(), io, start, calls) == [])
      ensures (left == None ==> !failed) && (failed <==> io(calls - 1) == WriteFails)
      ensures left.Some? && !failed && !current.Finished() ==> Refuses(io(calls - 1))
      ensures current.Finished() ==> left == Some(current)
    {
      ghost var rest, before := current.Rest(), wrote;
      var now := current;
      calls := start;
      while true
        invariant now.Valid() && now.source == current.source
        invariant Offered(rest, now.Rest(), io, start, calls, before, wrote) && GoesOn(rest, io, start, calls)
        invariant if current.Finished() then now == current else !now.Finished()
        decreases |now.Rest()|
      {
        OfferedOneMore(rest, now.Rest(), io, start, calls, before, wrote);
        var next := WriteOnce(now, io(calls));
        calls := calls + 1;
        match io(calls - 1)
        case Accepts(_) =>
          if next.written == now.written {
            return Some(now), false, calls;
          }
          if next.Finished() {
            return None, false, calls;
          }
          GoesOnOneMore(rest, io, start, calls - 1);
          now := next;
        case WriteFails =>
          return Some(now), true, calls;
        case _ =>
          return Some(now), false, calls;
      }
    }

    /** Put the rest of a chunk back, or move to the next chunk. */
    method PutBack(left: Option<Writing>)
      requires Valid() && writing == None && (left.Some? ==> left.value.Valid())
      modifies this`writing, this`writeList
      ensures Valid()
      ensures Chunks() == (if left.Some? then [left.value.Rest()] else []) + old(writeList)
      ensures Unwritten() == (if left.Some? then left.value.Rest() else []) + Flatten(old(writeList))
      ensures left.Some? ==> writing == left && writeList == old(writeList)
      ensures left == None ==> (writing == None <==> old(writeList) == [])
      ensures left == None && writing == None ==> writeList == []
      ensures left == None && writing.Some? ==>
        writing.value == Writing(old(writeList)[0], 0) && writeList == old(writeList)[1..]
      ensures old(Healthy()) && (left.Some? ==> !left.value.Finished()) ==> Healthy()
    {
      if left.Some? {
        writing := left;
      } else {
        GotoNext();
      }
    }

    /** Write the current chunk and move to the next; `more` tells whether writing can go on. */
    method WriteCurrent(io: nat -> WriteOutcome, start: nat) returns (more: bool, ok: bool, calls: nat)
      requires Valid() && writing.Some?
      modifies this`writing, this`writeList, this`wrote
      ensures Valid() && wrote + Unwritten() == old(wrote + Unwritten()) && old(wrote) <= wrote
      ensures old(Healthy()) ==> Healthy()
      ensures calls > start && (ok <==> io(calls - 1) != WriteFails)
      ensures old(writing.value.Rest()) != [] ==> Chunks() == Queue(old(Chunks()), io, start, calls)
      ensures more ==> ok && !old(writing.value.Finished())
      ensures !more ==> writing.Some?
      ensures more && writing == None ==> writeList == [] == old(writeList)
      ensures more && writing.Some? ==> |writeList| < |old(writeList)|
      ensures ok && !more && old(Healthy()) ==> Refuses(io(calls - 1))
      ensures old(writing.value.Finished()) ==> writing == old(writing) && writeList == old(writeList)
    {
      var current := writing.value;
      ghost var before, list := wrote, writeList;
      writing := None;
      var left, failed;
      left, failed, calls := WriteOne(current, io, start);
      ghost var rest := if left.Some? then left.value.Rest() else [];
      ChunkWritten(current.Rest(), rest, list, io, start, calls, before, wrote);
      PutBack(left);
      return left == None, !failed, calls;
    }

    /** Write queued chunks until the queue is empty or the PTY takes no more; `calls` counts the writes. */
    method PtyWrite(io: nat -> WriteOutcome) returns (ok: bool, calls: nat)
      requires Valid()
      modifies this`writing, this`writeList, this`wrote
      ensures Valid() && wrote + Unwritten() == old(wrote + Unwritten()) && old(wrote) <= wrote
      ensures old(Healthy()) ==> Healthy() && Chunks() == Queue(old(Chunks()), io, 0, calls)
      ensures ok <==> calls == 0 || io(calls - 1) != WriteFails
      ensures ok && old(Healthy()) && NeedsWrite() ==> calls > 0 && Refuses(io(calls - 1))
      ensures old(writing.Some? && writing.value.Finished()) ==> writing == old(writing) && writeList == old(writeList)
    {
      ghost var total, healthy, chunks := wrote + Unwritten(), Healthy(), Chunks();
      ghost var stuck := writing.Some? && writing.value.Finished();
      EnsureNext();
      calls, ok := 0, true;
      var more := true;
      while more && writing.Some?
        invariant Valid() && wrote + Unwritten() == total && old(wrote) <= wrote
        invariant healthy ==> Healthy() && Chunks() == Queue(chunks, io, 0, calls)
        invariant ok <==> calls == 0 || io(calls - 1) != WriteFails
        invariant more ==> ok && (writing == None ==> writeList == [])
        invariant !more && ok && healthy ==> calls > 0 && Refuses(io(calls - 1))
        invariant stuck ==> writing == old(writing) && writeList == old(writeList)
        decreases more, |writeList|, if writing.Some? then 1 else 0
      {
        ghost var middle := calls;
        more, ok, calls := WriteCurrent(io, calls);
        QueueGoesOn(chunks, io, 0, middle, calls);
      }
    }

    // ----- The event loop -----

    /** Handle one polled event; false ends the loop. */
    method HandleEvent(event: PollEvent) returns (alive: bool)
      requires Conserved()
      modifies this`writing, this`writeList, this`wrote
      ensures Conserved() && old(wrote) <= wrote
      ensures old(Healthy()) ==> Healthy()
      ensures EndsLoop(event) ==> !alive
      ensures !LetsWrite(event) ==> Unwritten() == old(Unwritten()) && alive == !EndsLoop(event)
      ensures LetsWrite(event) && old(Healthy()) ==> exists n :: Chunks() == Queue(old(Chunks()), event.io, 0, n)
      ensures !alive ==> MayEnd(event)
      ensures LetsWrite(event) && alive && old(Healthy()) && Unwritten() != [] ==> Refused(event)
    {
      ghost var healthy := Healthy();
      match event
      case ChildExited => return false;
      case OtherEvent => return true;
      case ReadWrite(interrupt, readable, canWrite, io) =>
        if interrupt || readable == Some(ReadHangup) {
          return true;
        }
        if readable == Some(ReadFails) {
          return false;
        }
        if canWrite {
          var calls;
          alive, calls := PtyWrite(io);
          if healthy {
            NeedsWriteIffUnwritten();
          }
          return;
        }
        return true;
    }

    /** Handle the events of a poll; false ends the loop. */
    method HandleEvents(events: seq<PollEvent>) returns (alive: bool)
      requires Conserved()
      modifies this`writing, this`writeList, this`wrote
      ensures Conserved() && old(wrote) <= wrote
      ensures old(Healthy()) ==> Healthy()
      ensures (alive ==> NoneEnds(events)) && (!alive ==> SomeMayEnd(events))
      ensures alive && old(Healthy()) && AnyWrites(events) && Unwritten() != [] ==> AnyRefused(events)
      ensures alive && !AnyWrites(events) ==> Unwritten() == old(Unwritten())
    {
      ghost var healthy, unwritten := Healthy(), Unwritten();
      var i := 0;
      while i < |events|
        invariant 0 <= i <= |events| && Conserved() && old(wrote) <= wrote && (healthy ==> Healthy())
        invariant NoneEnds(events[..i])
        invariant healthy && AnyWrites(events[..i]) && Unwritten() != [] ==> AnyRefused(events[..i])
        invariant !AnyWrites(events[..i]) ==> Unwritten() == unwritten
      {
        OneMoreEvent(events, i);
        alive := HandleEvent(events[i]);
        if !alive {
          return;
        }
        i := i + 1;
      }
      assert events[..i] == events;
      return true;
    }

    /** Ask to be woken for writing when, and only when, there is something to write. */
    method UpdateInterest()
      requires Conserved()
      modifies this`writable
      ensures Conserved() && writable == NeedsWrite()
      ensures old(Healthy()) ==> Healthy()
    {
      var needsWrite := NeedsWrite();
      if needsWrite != writable {
        writable := needsWrite;
      }
    }

    /** Whether a poll brought neither events nor messages; further messages may arrive after the peek. */
    method IsIdle(events: seq<PollEvent>, late: seq<Msg>) returns (idle: bool)
      requires Conserved()
      modifies this`channel, this`peeked, this`sent
      ensures Conserved() && Pending() == old(Pending()) + late && sent == old(sent) + late
      ensures old(Healthy()) && NonEmptyInputs(late) ==> Healthy()
      ensures Open() <==> old(Open()) && NoShutdown(late)
      ensures idle <==> events == [] && old(Pending()) == []
    {
      idle := events == [];
      if idle {
        var first := Peek();
        idle := first == None;
      }
      Send(late);
    }

    /** Receive all messages and handle the events; false ends the loop. */
    method DrainAndHandle(events: seq<PollEvent>) returns (alive: bool)
      requires Conserved()
      modifies this`channel, this`peeked, this`writing, this`writeList, this`wrote
      ensures Conserved() && old(wrote) <= wrote
      ensures old(Healthy()) ==> Healthy()
      ensures alive ==> Pending() == [] && old(Open()) && NoneEnds(events)
      ensures !alive ==> !old(Open()) || SomeMayEnd(events)
      ensures alive && old(Healthy()) && AnyWrites(events) && Unwritten() != [] ==> AnyRefused(events)
    {
      alive := DrainRecvChannel();
      if alive {
        alive := HandleEvents(events);
      }
    }

    /** One pass of the loop after a successful poll; false ends the loop. */
    method HandlePass(events: seq<PollEvent>, late: seq<Msg>) returns (alive: bool)
      requires Conserved() && writable == NeedsWrite()
      modifies this
      ensures Conserved() && old(wrote) <= wrote && sent == old(sent) + late
      ensures old(Healthy()) && NonEmptyInputs(late) ==> Healthy()
      ensures alive ==> writable == NeedsWrite()
      ensures alive && (events != [] || old(Pending()) != []) ==>
        Pending() == [] && old(Open()) && NoShutdown(late) && NoneEnds(events)
      ensures alive ==> (Open() <==> old(Open()) && NoShutdown(late))
      ensures !alive ==> !old(Open()) || !NoShutdown(late) || SomeMayEnd(events)
      ensures alive && old(Healthy()) && NonEmptyInputs(late) && AnyWrites(events) && Unwritten() != [] ==>
        AnyRefused(events)
      ensures events == [] && old(Pending()) == [] ==> alive && Pending() == late && Unwritten() == old(Unwritten())
    {
      var idle := IsIdle(events, late);
      if idle {
        return true;
      }
      alive := DrainAndHandle(events);
      if alive {
        UpdateInterest();
      }
    }

    /** One turn of the loop; false ends it. */
    method HandlePoll(pass: Pass) returns (alive: bool)
      requires Conserved() && writable == NeedsWrite()
      modifies this
      ensures Conserved() && old(wrote) <= wrote && old(sent) <= sent
      ensures alive ==> sent == old(sent) + pass.early + pass.late
      ensures alive ==> GoesOnAfter(pass) && (Open() <==> old(Open()) && StaysOpen(pass))
      ensures !alive ==> !old(Open()) || !StaysOpen(pass) || PassMayEnd(pass)
      ensures old(Healthy()) && NonEmptyInputs(pass.early) && NonEmptyInputs(pass.late) ==> Healthy()
      ensures alive ==> writable == NeedsWrite()
    {
      Send(pass.early);
      match pass.poll
      case PollInterrupted =>
        Send(pass.late);
        return true;
      case PollFails => return false;
      case Ready(events) =>
        alive := HandlePass(events, pass.late);
    }

    /** The loop over any finite run of polls and arriving messages: no byte is lost, repeated or reordered,
        and the PTY is polled for writing exactly while something is left to write. */
    method Run(script: seq<Pass>) returns (alive: bool)
      requires Conserved() && writable == NeedsWrite()
      modifies this
      ensures Conserved() && old(wrote) <= wrote && old(sent) <= sent
      ensures alive ==> sent == old(sent) + Arrivals(script) && AllGoOn(script)
      ensures alive ==> (Open() <==> old(Open()) && AllStayOpen(script))
      ensures !alive && old(Open()) && AllStayOpen(script) ==>
        exists i :: 0 <= i < |script| && PassMayEnd(script[i])
      ensures alive ==> writable == NeedsWrite()
      ensures alive && old(Healthy()) && NoEmptyArrivals(script) ==> (writable <==> Unwritten() != [])
    {
      ghost var lawful := Healthy() && NoEmptyArrivals(script);
      var i := 0;
      while i < |script|
        invariant 0 <= i <= |script| && Conserved() && old(wrote) <= wrote
        invariant sent == old(sent) + Arrivals(script[..i])
        invariant lawful ==> Healthy()
        invariant writable == NeedsWrite()
        invariant AllGoOn(script[..i]) && (Open() <==> old(Open()) && AllStayOpen(script[..i]))
      {
        var pass := script[i];
        OneMorePass(script, i, old(sent));
        i := i + 1;
        alive := HandlePoll(pass);
        if !alive {
          return;
        }
      }
      assert script[..i] == script;
      if Healthy() {
        NeedsWriteIffUnwritten();
      }
      return true;
    }
  }
}
