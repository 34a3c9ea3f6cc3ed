/** The backend primitives the blocking loops of src/tbox/platform/pipe.c
    call: a non-blocking read or write that may move only part of the
    request, and a readiness wait. The real implementations (windows/pipe.c,
    posix/pipe.c) are not part of this model; a `PipeFile` stands for a
    handle of either one, and what the operating system answers is a script
    of integers, one per call, read in call order.
 */
module PipeBackend {
  import opened Platform

  type Byte = bv8

  /** The readiness events `tb_pipe_file_wait` is asked for. */
  datatype Event = EventRead | EventWrit

  /** One backend call and what it returned. */
  datatype Call =
    | TransferCall(family: Family, offset: nat, len: nat, result: int)
    | WaitCall(family: Family, event: Event, timeout: int, result: int)

  /** The script entry answering the `k`-th backend call; once the script
      is used up every call fails with -1. */
  function Entry(script: seq<int>, k: nat): int
  {
    if k < |script| then script[k] else -1
  }

  /** What a partial-transfer primitive returns for a request of `len` bytes
      when the operating system answers `entry` and the other end of the pipe
      can supply (or accept) `limit` more bytes: an error or zero passes
      through, a positive count never exceeds the request or the limit. */
  function Reply(entry: int, len: nat, limit: nat): (n: int)
    ensures n <= len && n <= limit
    ensures entry <= 0 ==> n == entry
    ensures entry > 0 ==> 0 <= n <= entry
    ensures entry > 0 && len > 0 && limit > 0 ==> n > 0
  {
    if entry <= 0 then entry
    else if entry <= len && entry <= limit then entry
    else if len <= limit then len
    else limit
  }

  /** A pipe handle. On the reading side `pending` holds the bytes the peer
      wrote before it closed; on the writing side `room` is how many more
      bytes the peer will drain and `sent` what has gone out, in order. */
  class PipeFile {
    const script: seq<int>
    var pos: nat
    var pending: seq<Byte>
    var room: nat
    var sent: seq<Byte>
    /** Every backend call made on this handle, in order. */
    ghost var log: seq<Call>

    constructor (script: seq<int>, pending: seq<Byte>, room: nat)
      ensures this.script == script && pos == 0
      ensures this.pending == pending && this.room == room
      ensures sent == [] && log == []
    {
      this.script := script;
      pos := 0;
      this.pending := pending;
      this.room := room;
      sent := [];
      log := [];
    }

    /** `read_func(file, data + offset, len)`: copies up to `len` pending
        bytes to `data[offset..]` and returns how many, 0 for "nothing now",
        or a negative error. */
    method ReadNow(family: Family, data: array<Byte>, offset: nat, len: nat) returns (n: int)
      requires offset + len <= data.Length
      modifies this, data
      ensures n == Reply(Entry(script, old(pos)), len, |old(pending)|)
      ensures pos == old(pos) + 1 && log == old(log) + [TransferCall(family, offset, len, n)]
      ensures room == old(room) && sent == old(sent)
      ensures n > 0 ==> pending == old(pending)[n..]
      ensures n <= 0 ==> pending == old(pending)
      ensures forall i | 0 <= i < data.Length ::
                data[i] == if offset <= i < offset + n then old(pending)[i - offset] else old(data[i])
    {
      n := Reply(Entry(script, pos), len, |pending|);
      if n > 0 {
        forall i | offset <= i < offset + n {
          data[i] := pending[i - offset];
        }
        pending := pending[n..];
      }
      pos := pos + 1;
      log := log + [TransferCall(family, offset, len, n)];
    }

    /** `write_func(file, data + offset, len)`: the peer accepts up to `len`
        bytes of `data[offset..]`; returns how many, 0 for "no room now", or
        a negative error. */
    method WriteNow(family: Family, data: array<Byte>, offset: nat, len: nat) returns (n: int)
      requires offset + len <= data.Length
      modifies this
      ensures n == Reply(Entry(script, old(pos)), len, old(room))
      ensures pos == old(pos) + 1 && log == old(log) + [TransferCall(family, offset, len, n)]
      ensures pending == old(pending)
      ensures n > 0 ==> sent == old(sent) + data[offset..offset + n] && room == old(room) - n
      ensures n <= 0 ==> sent == old(sent) && room == old(room)
    {
      n := Reply(Entry(script, pos), len, room);
      if n > 0 {
        sent := sent + data[offset..offset + n];
        room := room - n;
      }
      pos := pos + 1;
      log := log + [TransferCall(family, offset, len, n)];
    }

    /** `tb_pipe_file_wait(file, event, timeout)`: positive when ready, zero
        when timed out, negative on error. */
    method WaitFor(family: Family, event: Event, timeout: int) returns (r: int)
      modifies this
      ensures r == Entry(script, old(pos))
      ensures pos == old(pos) + 1 && log == old(log) + [WaitCall(family, event, timeout, r)]
      ensures pending == old(pending) && room == old(room) && sent == old(sent)
    {
      r := Entry(script, pos);
      pos := pos + 1;
      log := log + [WaitCall(family, event, timeout, r)];
    }
  }
}
