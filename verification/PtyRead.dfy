/** The reading side of the PTY event loop: bytes are buffered until the terminal can be locked, then parsed. */
module PtyRead {
  import opened Common

  /** Bytes read before a terminal update is forced. */
  const READ_BUFFER_SIZE: nat := 0x10_0000

  /** Bytes parsed while the terminal stays locked. */
  const MAX_LOCKED_READ: nat := 0xFFFF

  /** What one read from the PTY does: deliver up to `count` bytes, or report a condition. */
  datatype ReadOutcome = Delivers(count: nat) | Interrupted | WouldBlock | ReadFails

  /** One turn of the read loop: the read, and whether the terminal is free to lock. */
  datatype Turn = Turn(read: ReadOutcome, terminalFree: bool)

  datatype Ended = Finished | Failed | Unfinished

  /** The PTY's output: the whole byte stream and how much of it has been read. */
  class Pty {
    const stream: Bytes
    var position: nat

    ghost predicate Valid()
      reads this
    {
      position <= |stream|
    }

    constructor (stream: Bytes)
      ensures Valid() && this.stream == stream && position == 0
    {
      this.stream := stream;
      position := 0;
    }

    /** Read into `buf` from index `from` on. */
    method Read(buf: array<byte>, from: nat, count: nat) returns (got: nat)
      requires Valid() && from <= buf.Length
      modifies this`position, buf
      ensures Valid() && got <= buf.Length - from && got <= count && position == old(position) + got
      ensures got == count || from + got == buf.Length || position == |stream|
      ensures buf[..from] == old(buf[..from])
      ensures buf[from..from + got] == stream[old(position)..position]
    {
      got := count;
      if got > buf.Length - from {
        got := buf.Length - from;
      }
      if got > |stream| - position {
        got := |stream| - position;
      }
      forall i | 0 <= i < got {
        buf[from + i] := stream[position + i];
      }
      position := position + got;
    }
  }

  /** Reads that bring nothing although more output may follow. */
  predicate Dry(o: ReadOutcome) {
    o in {Delivers(0), Interrupted, WouldBlock}
  }

  datatype AfterRead = GoOn | Stop | Abort

  /** One read into the buffer, behind the bytes that are still unprocessed. */
  method Fill(pty: Pty, buf: array<byte>, unprocessed: nat, read: ReadOutcome) returns (held: nat, fill: AfterRead)
    requires pty.Valid() && unprocessed <= buf.Length
    modifies pty`position, buf
    ensures pty.Valid() && old(pty.position) <= pty.position && held <= buf.Length
    ensures buf[..held] == old(buf[..unprocessed]) + pty.stream[old(pty.position)..pty.position]
    ensures fill == Abort <==> read == ReadFails
    ensures fill == Stop <==> held == 0 && read != ReadFails
    ensures if read.Delivers? then
        old(pty.position) + read.count == pty.position || held == buf.Length || pty.position == |pty.stream|
      else pty.position == old(pty.position)
  {
    held, fill := unprocessed, GoOn;
    match read {
      case Delivers(count) =>
        var got := pty.Read(buf, unprocessed, count);
        if got == 0 && unprocessed == 0 {
          fill := Stop;
        } else {
          held := unprocessed + got;
          assert buf[..held] == buf[..unprocessed] + buf[unprocessed..held];
        }
      case ReadFails =>
        fill := Abort;
      case _ =>
        if unprocessed == 0 {
          fill := Stop;
        }
    }
  }

  /** Bytes read next belong behind the bytes held so far. */
  lemma StreamGrows(stream: Bytes, start: nat, mid: nat, end: nat, parsed: Bytes, held: Bytes)
    requires start <= mid <= end <= |stream| && parsed + held == stream[start..mid]
    ensures parsed + (held + stream[mid..end]) == stream[start..end]
  {
    assert parsed + (held + stream[mid..end]) == (parsed + held) + stream[mid..end];
  }

  /** Read and parse until the PTY has no more data, enough has been parsed or an error occurs. `parsed` is what
      the parser got and `recorded` what a recording of the session got; `Unfinished` means that the given turns
      ran out while the call was still going on. */
  method ReadAndParse(pty: Pty, buf: array<byte>, turns: seq<Turn>, recording: bool, syncBytes: nat)
    returns (ended: Ended, parsed: Bytes, recorded: Bytes, buffered: nat, wakeup: bool, ghost lockTurn: nat)
    requires pty.Valid() && buf.Length == READ_BUFFER_SIZE
    modifies pty`position, buf
    ensures pty.Valid() && old(pty.position) <= pty.position && buffered <= buf.Length
    ensures parsed + buf[..buffered] == pty.stream[old(pty.position)..pty.position]
    ensures ended == Finished ==> buffered == 0 && parsed == pty.stream[old(pty.position)..pty.position]
    ensures |parsed| < MAX_LOCKED_READ + READ_BUFFER_SIZE
    ensures recorded == if recording then parsed else []
    ensures wakeup <==> ended == Finished && syncBytes < |parsed|
    ensures ended == Finished ==>
      || |parsed| >= MAX_LOCKED_READ || pty.position == |pty.stream|
      || exists k :: 0 <= k < |turns| && Dry(turns[k].read)
    ensures ended == Failed ==> exists k :: 0 <= k < |turns| && turns[k].read == ReadFails
    ensures ended == Unfinished ==> forall k :: 0 <= k < |turns| ==> turns[k].read != ReadFails
    ensures ended == Unfinished && buffered > 0 ==>
      buffered < READ_BUFFER_SIZE && forall k :: 0 <= k < |turns| ==> !turns[k].terminalFree
    ensures lockTurn <= |turns| && forall k :: 0 <= k < lockTurn ==> !turns[k].terminalFree
    ensures parsed != [] ==> lockTurn < |turns|
    ensures parsed != [] && !turns[lockTurn].terminalFree ==> |parsed| >= READ_BUFFER_SIZE
    ensures (forall k :: 0 <= k < |turns| ==> !turns[k].terminalFree) ==> parsed == [] || |parsed| >= READ_BUFFER_SIZE
  {
    var unprocessed: nat, processed: nat, locked, k := 0, 0, false, 0;
    lockTurn := 0;
    ghost var start := pty.position;
    parsed, recorded, wakeup, ended := [], [], false, Finished;
    while true
      invariant 0 <= k <= |turns| && ended == Finished && !wakeup
      invariant forall j :: 0 <= j < k ==> turns[j].read != ReadFails
      invariant unprocessed > 0 ==> !locked && unprocessed < READ_BUFFER_SIZE
      invariant if locked then lockTurn < k else lockTurn == k && parsed == []
      invariant forall j :: 0 <= j < lockTurn ==> !turns[j].terminalFree
      invariant locked && !turns[lockTurn].terminalFree ==> |parsed| >= READ_BUFFER_SIZE
      invariant pty.Valid() && start <= pty.position && unprocessed <= buf.Length
      invariant parsed + buf[..unprocessed] == pty.stream[start..pty.position]
      invariant processed == |parsed| < MAX_LOCKED_READ
      invariant recorded == if recording then parsed else []
      decreases |turns| - k
    {
      if k == |turns| {
        return Unfinished, parsed, recorded, unprocessed, false, lockTurn;
      }
      var turn := turns[k];
      k := k + 1;
      ghost var held, mid := buf[..unprocessed], pty.position;
      var fill;
      unprocessed, fill := Fill(pty, buf, unprocessed, turn.read);
      StreamGrows(pty.stream, start, mid, pty.position, parsed, held);
      if fill == Stop {
        break;
      }
      if fill == Abort {
        return Failed, parsed, recorded, unprocessed, false, lockTurn;
      }
      if !locked {
        if !turn.terminalFree && unprocessed < READ_BUFFER_SIZE {
          lockTurn := k;
          continue;
        }
        locked := true;
      }
      if recording {
        recorded := recorded + buf[..unprocessed];
      }
      parsed := parsed + buf[..unprocessed];
      processed := processed + unprocessed;
      unprocessed := 0;
      assert parsed + buf[..0] == parsed;
      if processed >= MAX_LOCKED_READ {
        break;
      }
    }
    buffered := unprocessed;
    wakeup := syncBytes < processed && processed > 0;
  }
}
