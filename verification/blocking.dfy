/** `tb_pipe_file_bread` and `tb_pipe_file_bwrit` (src/tbox/platform/pipe.c:113-185):
    move exactly `size` bytes through a handle whose primitives may move
    only part of a request, waiting for readiness when a primitive reports
    nothing. Each function first binds its primitive by the system name and
    then runs its loop; each loop is proved to make exactly the backend
    calls `PipeEngine.Run` lists and to return true exactly when they moved
    `size` bytes; the lemmas of PipeEngine then say what those calls are.
 */
module PipeBlocking {
  import opened Platform
  import opened PipeBackend
  import opened PipeEngine

  /** Reads exactly `size` bytes of `file` into `data[..size]`, or fails,
      through the primitive `Platform.ReadFunc` selects. */
  method BRead(uname: Option<string>, file: PipeFile, data: array<Byte>, size: nat) returns (ok: bool)
    requires size <= data.Length
    modifies file, data
    ensures var o := Run(ReadFunc(uname), Reading, size, file.script, old(file.pos), |old(file.pending)|, 0, 0);
      ok == (o.moved == size) &&
      file.log == old(file.log) + o.trace &&
      file.pos == old(file.pos) + |o.trace| &&
      file.pending == old(file.pending)[o.moved..] &&
      (forall i | 0 <= i < o.moved :: data[i] == old(file.pending)[i]) &&
      (forall i | o.moved <= i < data.Length :: data[i] == old(data[i]))
    ensures file.room == old(file.room) && file.sent == old(file.sent)
    ensures ok ==> forall i | 0 <= i < size :: data[i] == old(file.pending)[i]
    ensures size == 0 ==> ok && file.log == old(file.log)
  {
    var readFunc := ReadFunc(uname);
    ok := ReadLoop(readFunc, file, data, size);
  }

  /** The loop of `tb_pipe_file_bread` once `read_func` is bound to `family`.
      The bytes land in the order the peer wrote them, whatever the
      chunking; on failure the bytes read so far are in place and nothing
      beyond them is touched. */
  method ReadLoop(family: Family, file: PipeFile, data: array<Byte>, size: nat) returns (ok: bool)
    requires size <= data.Length
    modifies file, data
    ensures var o := Run(family, Reading, size, file.script, old(file.pos), |old(file.pending)|, 0, 0);
      ok == (o.moved == size) &&
      file.log == old(file.log) + o.trace &&
      file.pos == old(file.pos) + |o.trace| &&
      file.pending == old(file.pending)[o.moved..] &&
      (forall i | 0 <= i < o.moved :: data[i] == old(file.pending)[i]) &&
      (forall i | o.moved <= i < data.Length :: data[i] == old(data[i]))
    ensures file.room == old(file.room) && file.sent == old(file.sent)
    ensures ok ==> forall i | 0 <= i < size :: data[i] == old(file.pending)[i]
    ensures size == 0 ==> ok && file.log == old(file.log)
  {
    ghost var o := Run(family, Reading, size, file.script, file.pos, |file.pending|, 0, 0);
    SpinMatchesRun(family, Reading, size, file.script, file.pos, |file.pending|, 0, 0, file.log);
    ghost var goal := Outcome(o.moved, old(file.log) + o.trace);
    ghost var d0, p0 := data[..], file.pending;
    var read: nat := 0;
    var wait: int := 0;
    var stop := false;
    while read < size && !stop
      invariant read <= size
      invariant read <= |p0| && file.pending == p0[read..]
      invariant stop ==> goal == Outcome(read, file.log)
      invariant !stop ==> SpinsTo(family, Reading, size, file.script, file.pos, |file.pending|, read, wait, file.log, goal)
      invariant file.pos - old(file.pos) == |file.log| - |old(file.log)|
      invariant forall i | 0 <= i < read :: data[i] == p0[i]
      invariant forall i | read <= i < data.Length :: data[i] == d0[i]
      invariant file.room == old(file.room) && file.sent == old(file.sent)
      decreases size - read, if stop then 0 else if wait > 0 then 1 else 2
    {
      ghost var r0 := read;
      read, wait, stop := ReadTurn(family, file, data, size, read, wait);
      assert p0[r0..][read - r0..] == p0[read..];
    }
    if !stop {
      assert goal == Outcome(read, file.log);
    }
    ok := read == size;
  }

  /** One turn of the loop of `tb_pipe_file_bread` with `read` of `size`
      bytes done and the wait flag `wait`: one read, and after a zero with
      the flag clear one wait. `stop` is the `break`; otherwise the loop
      goes on from `read'` and `wait'`. */
  method ReadTurn(family: Family, file: PipeFile, data: array<Byte>, size: nat, read: nat, wait: int)
    returns (read': nat, wait': int, stop: bool)
    requires read < size <= data.Length
    modifies file, data
    ensures read <= read' <= size
    ensures var s := Spin(family, Reading, size, file.script, old(file.pos), |old(file.pending)|,
                          read, wait, old(file.log));
      if stop then s == Outcome(read', file.log)
      else s == Spin(family, Reading, size, file.script, file.pos, |file.pending|, read', wait', file.log)
    ensures !stop ==> read' > read || (wait == 0 && wait' > 0)
    ensures read' - read <= |old(file.pending)| && file.pending == old(file.pending)[read' - read..]
    ensures file.pos - old(file.pos) == |file.log| - |old(file.log)|
    ensures forall i | 0 <= i < data.Length ::
              data[i] == if read <= i < read' then old(file.pending)[i - read] else old(data[i])
    ensures file.room == old(file.room) && file.sent == old(file.sent)
  {
    var len := Want(size, read);
    var n := file.ReadNow(family, data, read, len);
    read', wait', stop := read, wait, false;
    if n > 0 {
      read' := read + n;
      wait' := 0;
    } else if n == 0 && wait == 0 {
      // `tb_pipe_file_wait` dispatches by the same rule as `read_func`
      wait' := file.WaitFor(family, EventOf(Reading), INFINITE);
      if !(wait' > 0) {
        stop := true;
      }
    } else {
      stop := true;
    }
  }

  /** Writes exactly `data[..size]` to `file`, or fails, through the
      primitive `Platform.WriteFunc` selects: `write_func` is bound as on
      both branches `tb_pipe_file_write` would bind it (see
      `Platform.WriteFuncAsWritten` for the binding as the source spells it). */
  method BWrit(uname: Option<string>, file: PipeFile, data: array<Byte>, size: nat) returns (ok: bool)
    requires size <= data.Length
    modifies file
    ensures var o := Run(WriteFunc(uname), Writing, size, file.script, old(file.pos), old(file.room), 0, 0);
      ok == (o.moved == size) &&
      file.log == old(file.log) + o.trace &&
      file.pos == old(file.pos) + |o.trace| &&
      file.sent == old(file.sent) + data[..o.moved] &&
      file.room == old(file.room) - o.moved
    ensures file.pending == old(file.pending)
    ensures ok ==> file.sent == old(file.sent) + data[..size]
    ensures size == 0 ==> ok && file.log == old(file.log)
  {
    var writeFunc := WriteFunc(uname);
    ok := WritLoop(writeFunc, file, data, size);
  }

  /** The loop of `tb_pipe_file_bwrit` once `write_func` is bound to
      `family`. The peer receives the bytes in order, whatever the
      chunking; on failure it has received a prefix of them. */
  method WritLoop(family: Family, file: PipeFile, data: array<Byte>, size: nat) returns (ok: bool)
    requires size <= data.Length
    modifies file
    ensures var o := Run(family, Writing, size, file.script, old(file.pos), old(file.room), 0, 0);
      ok == (o.moved == size) &&
      file.log == old(file.log) + o.trace &&
      file.pos == old(file.pos) + |o.trace| &&
      file.sent == old(file.sent) + data[..o.moved] &&
      file.room == old(file.room) - o.moved
    ensures file.pending == old(file.pending)
    ensures ok ==> file.sent == old(file.sent) + data[..size]
    ensures size == 0 ==> ok && file.log == old(file.log)
  {
    ghost var o := Run(family, Writing, size, file.script, file.pos, file.room, 0, 0);
    SpinMatchesRun(family, Writing, size, file.script, file.pos, file.room, 0, 0, file.log);
    ghost var goal := Outcome(o.moved, old(file.log) + o.trace);
    var writ: nat := 0;
    var wait: int := 0;
    var stop := false;
    while writ < size && !stop
      invariant writ <= size
      invariant writ <= old(file.room) && file.room == old(file.room) - writ
      invariant stop ==> goal == Outcome(writ, file.log)
      invariant !stop ==> SpinsTo(family, Writing, size, file.script, file.pos, file.room, writ, wait, file.log, goal)
      invariant file.pos - old(file.pos) == |file.log| - |old(file.log)|
      invariant file.sent == old(file.sent) + data[..writ]
      invariant file.pending == old(file.pending)
      decreases size - writ, if stop then 0 else if wait > 0 then 1 else 2
    {
      ghost var w0 := writ;
      writ, wait, stop := WritTurn(family, file, data, size, writ, wait);
      assert data[..writ] == data[..w0] + data[w0..writ];
    }
    if !stop {
      assert goal == Outcome(writ, file.log);
    }
    ok := writ == size;
  }

  /** One turn of the loop of `tb_pipe_file_bwrit` with `writ` of `size`
      bytes done and the wait flag `wait`: one write, and after a zero with
      the flag clear one wait. `stop` is the `break`; otherwise the loop
      goes on from `writ'` and `wait'`. */
  method WritTurn(family: Family, file: PipeFile, data: array<Byte>, size: nat, writ: nat, wait: int)
    returns (writ': nat, wait': int, stop: bool)
    requires writ < size <= data.Length
    modifies file
    ensures writ <= writ' <= size
    ensures var s := Spin(family, Writing, size, file.script, old(file.pos), old(file.room),
                          writ, wait, old(file.log));
      if stop then s == Outcome(writ', file.log)
      else s == Spin(family, Writing, size, file.script, file.pos, file.room, writ', wait', file.log)
    ensures !stop ==> writ' > writ || (wait == 0 && wait' > 0)
    ensures writ' - writ <= old(file.room) && file.room == old(file.room) - (writ' - writ)
    ensures file.pos - old(file.pos) == |file.log| - |old(file.log)|
    ensures file.sent == old(file.sent) + data[writ..writ']
    ensures file.pending == old(file.pending)
  {
    var len := Want(size, writ);
    var n := file.WriteNow(family, data, writ, len);
    writ', wait', stop := writ, wait, false;
    if n > 0 {
      writ' := writ + n;
      wait' := 0;
    } else if n == 0 && wait == 0 {
      // `tb_pipe_file_wait` dispatches by the same rule as `write_func`
      wait' := file.WaitFor(family, EventOf(Writing), INFINITE);
      if !(wait' > 0) {
        stop := true;
      }
    } else {
      stop := true;
    }
  }
}
