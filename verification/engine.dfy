/** The retry loop shared by `tb_pipe_file_bread` and `tb_pipe_file_bwrit`
    (src/tbox/platform/pipe.c:113-185), as a function of the backend's
    script: which calls it makes, what they return, and how many bytes it
    moves in all. The loops themselves, over a real buffer and handle, are
    in PipeBlocking and are proved to make exactly the calls `Run` lists.
 */
module PipeEngine {
  import opened Platform
  import opened PipeBackend

  /** The ceiling on one request, `tb_min(size - read, 8192)`. */
  const CHUNK_MAX: nat := 8192

  /** The timeout both loops wait with: block until ready. */
  const INFINITE: int := -1

  /** `tb_pipe_file_bread` reads, `tb_pipe_file_bwrit` writes. */
  datatype Direction = Reading | Writing

  /** The event each loop waits for. */
  function EventOf(dir: Direction): (e: Event)
    ensures e == EventRead <==> dir == Reading
    ensures e == EventWrit <==> dir == Writing
  {
    match dir
    case Reading => EventRead
    case Writing => EventWrit
  }

  /** The size of the next request once `moved` of `size` bytes are done. */
  function Want(size: nat, moved: nat): (len: nat)
    requires moved < size
    ensures 0 < len <= CHUNK_MAX && moved + len <= size
    ensures len == CHUNK_MAX || moved + len == size
  {
    if size - moved < CHUNK_MAX then size - moved else CHUNK_MAX
  }

  /** How many bytes the loop moved and every backend call it made. */
  datatype Outcome = Outcome(moved: nat, trace: seq<Call>)

  /** The loop from the state where `moved` bytes are done, the last wait
      returned `wait` (0 after progress) and the next backend call is
      answered by script entry `k`; `limit` bytes is all the peer still
      supplies or accepts. It never moves more than `size`, nor more than
      the peer allows. */
  function Run(family: Family, dir: Direction, size: nat, script: seq<int>, k: nat,
               limit: nat, moved: nat, wait: int): (o: Outcome)
    requires moved <= size
    ensures moved <= o.moved <= size
    ensures o.moved <= moved + limit
    decreases size - moved, if wait > 0 then 0 else 1
  {
    if moved == size then Outcome(moved, [])
    else
      var len := Want(size, moved);
      var n := Reply(Entry(script, k), len, limit);
      var call := TransferCall(family, moved, len, n);
      if n > 0 then
        var rest := Run(family, dir, size, script, k + 1, limit - n, moved + n, 0);
        Outcome(rest.moved, [call] + rest.trace)
      else if n == 0 && wait == 0 then
        var w := Entry(script, k + 1);
        var waited := WaitCall(family, EventOf(dir), INFINITE, w);
        if w > 0 then
          var rest := Run(family, dir, size, script, k + 2, limit, moved, w);
          Outcome(rest.moved, [call, waited] + rest.trace)
        else
          Outcome(moved, [call, waited])
      else
        Outcome(moved, [call])
  }

  /** One step of `Run` from an unfinished state whose transfer made progress. */
  lemma RunStepMoves(family: Family, dir: Direction, size: nat, script: seq<int>, k: nat,
                     limit: nat, moved: nat, wait: int)
    requires moved < size && Reply(Entry(script, k), Want(size, moved), limit) > 0
    ensures var len := Want(size, moved);
      var n := Reply(Entry(script, k), len, limit);
      var r := Run(family, dir, size, script, k + 1, limit - n, moved + n, 0);
      Run(family, dir, size, script, k, limit, moved, wait) == Outcome(r.moved, [TransferCall(family, moved, len, n)] + r.trace)
  {
  }

  /** One step of `Run` from an unfinished state whose transfer returned
      zero with the flag clear, and whose wait succeeded. */
  lemma RunStepWaits(family: Family, dir: Direction, size: nat, script: seq<int>, k: nat,
                     limit: nat, moved: nat)
    requires moved < size && Reply(Entry(script, k), Want(size, moved), limit) == 0
    requires Entry(script, k + 1) > 0
    ensures var w := Entry(script, k + 1);
      var r := Run(family, dir, size, script, k + 2, limit, moved, w);
      Run(family, dir, size, script, k, limit, moved, 0) ==
        Outcome(r.moved, [TransferCall(family, moved, Want(size, moved), 0), WaitCall(family, EventOf(dir), INFINITE, w)] + r.trace)
  {
  }

  /** One step of `Run` that is also the last: the transfer failed, or
      returned zero right after a wait, or returned zero and the wait
      failed. */
  lemma RunStepEnds(family: Family, dir: Direction, size: nat, script: seq<int>, k: nat,
                    limit: nat, moved: nat, wait: int)
    requires moved < size
    requires var n := Reply(Entry(script, k), Want(size, moved), limit);
      n < 0 || (n == 0 && (wait != 0 || Entry(script, k + 1) <= 0))
    ensures var len := Want(size, moved);
      var n := Reply(Entry(script, k), len, limit);
      var call := TransferCall(family, moved, len, n);
      Run(family, dir, size, script, k, limit, moved, wait) ==
        if n == 0 && wait == 0 then Outcome(moved, [call, WaitCall(family, EventOf(dir), INFINITE, Entry(script, k + 1))])
        else Outcome(moved, [call])
  {
  }

  /** The loop as it runs, one backend call at a time: `log` is every call
      made so far, and each call is appended as it is made. */
  function Spin(family: Family, dir: Direction, size: nat, script: seq<int>, k: nat,
                limit: nat, moved: nat, wait: int, log: seq<Call>): (o: Outcome)
    requires moved <= size
    decreases size - moved, if wait > 0 then 0 else 1
  {
    if moved == size then Outcome(moved, log)
    else
      var len := Want(size, moved);
      var n := Reply(Entry(script, k), len, limit);
      var call := TransferCall(family, moved, len, n);
      if n > 0 then
        Spin(family, dir, size, script, k + 1, limit - n, moved + n, 0, log + [call])
      else if n == 0 && wait == 0 then
        var w := Entry(script, k + 1);
        var waited := WaitCall(family, EventOf(dir), INFINITE, w);
        if w > 0 then Spin(family, dir, size, script, k + 2, limit, moved, w, log + [call] + [waited])
        else Outcome(moved, log + [call] + [waited])
      else
        Outcome(moved, log + [call])
  }

  /** The loop, from the given state with the calls `log` already made,
      ends in `goal`. */
  predicate SpinsTo(family: Family, dir: Direction, size: nat, script: seq<int>, k: nat,
                   limit: nat, moved: nat, wait: int, log: seq<Call>, goal: Outcome)
    requires moved <= size
  {
    Spin(family, dir, size, script, k, limit, moved, wait, log) == goal
  }

  /** Running the loop after the calls `log` appends to `log` the calls `Run`
      lists, and moves what `Run` moves. */
  lemma {:induction false} SpinRun(family: Family, dir: Direction, size: nat, script: seq<int>, k: nat,
                                   limit: nat, moved: nat, wait: int, log: seq<Call>, o: Outcome)
    requires moved <= size && o == Run(family, dir, size, script, k, limit, moved, wait)
    ensures SpinsTo(family, dir, size, script, k, limit, moved, wait, log, Outcome(o.moved, log + o.trace))
    decreases size - moved, if wait > 0 then 0 else 1
  {
    if moved < size {
      var len := Want(size, moved);
      var n := Reply(Entry(script, k), len, limit);
      var call := TransferCall(family, moved, len, n);
      if n > 0 {
        var r := Run(family, dir, size, script, k + 1, limit - n, moved + n, 0);
        SpinRun(family, dir, size, script, k + 1, limit - n, moved + n, 0, log + [call], r);
        assert log + [call] + r.trace == log + ([call] + r.trace);
      } else if n == 0 && wait == 0 {
        var w := Entry(script, k + 1);
        var waited := WaitCall(family, EventOf(dir), INFINITE, w);
        if w > 0 {
          var r := Run(family, dir, size, script, k + 2, limit, moved, w);
          SpinRun(family, dir, size, script, k + 2, limit, moved, w, log + [call] + [waited], r);
          assert log + [call] + [waited] + r.trace == log + ([call, waited] + r.trace);
        } else {
          assert log + [call] + [waited] == log + [call, waited];
        }
      }
    } else {
      assert log + [] == log;
    }
  }

  /** `SpinRun` from any state, as the loops use it. */
  lemma SpinMatchesRun(family: Family, dir: Direction, size: nat, script: seq<int>, k: nat,
                       limit: nat, moved: nat, wait: int, log: seq<Call>)
    requires moved <= size
    ensures var o := Run(family, dir, size, script, k, limit, moved, wait);
      Spin(family, dir, size, script, k, limit, moved, wait, log) == Outcome(o.moved, log + o.trace)
  {
    SpinRun(family, dir, size, script, k, limit, moved, wait, log,
            Run(family, dir, size, script, k, limit, moved, wait));
  }

  /** Bytes a call moved: its result when it is a transfer that made progress. */
  function Gain(c: Call): nat
  {
    if c.TransferCall? && c.result > 0 then c.result else 0
  }

  /** Bytes moved by the calls of a trace. */
  function Progress(t: seq<Call>): nat
  {
    if t == [] then 0 else Gain(t[0]) + Progress(t[1..])
  }

  /** Progress of a trace with one call in front. */
  lemma ProgressCons(c: Call, t: seq<Call>)
    ensures Progress([c] + t) == Gain(c) + Progress(t)
  {
    assert ([c] + t)[1..] == t;
  }

  /** Call `c`, made when `at` bytes are done, goes to `family`; a transfer
      asks for the next chunk at offset `at`; a wait is for the loop's own
      event with no timeout. */
  predicate CallAsked(c: Call, family: Family, dir: Direction, size: nat, at: nat)
  {
    c.family == family &&
    (c.TransferCall? ==> at < size && c.offset == at && c.len == Want(size, at)) &&
    (c.WaitCall? ==> c.event == EventOf(dir) && c.timeout == INFINITE)
  }

  /** Every call of `t` is asked as `CallAsked` says, counting from `moved`
      and adding what each call moved. */
  predicate TraceAsked(t: seq<Call>, family: Family, dir: Direction, size: nat, moved: nat)
    decreases |t|
  {
    t == [] ||
    (CallAsked(t[0], family, dir, size, moved) && TraceAsked(t[1..], family, dir, size, moved + Gain(t[0])))
  }

  /** Call `i` of `t` is asked as `CallAsked` says at `moved` plus what the
      calls before it moved. */
  predicate AskedAt(t: seq<Call>, family: Family, dir: Direction, size: nat, moved: nat)
  {
    forall i | 0 <= i < |t| :: CallAsked(t[i], family, dir, size, moved + Progress(t[..i]))
  }

  /** Call `i` of a trace asked as `TraceAsked` says is asked at `moved`
      plus what the calls before it moved. */
  lemma {:induction false} TraceAskedIndex(t: seq<Call>, family: Family, dir: Direction, size: nat,
                                           moved: nat, i: nat)
    requires TraceAsked(t, family, dir, size, moved) && i < |t|
    ensures CallAsked(t[i], family, dir, size, moved + Progress(t[..i]))
    decreases i
  {
    if i == 0 {
      assert t[..0] == [];
    } else {
      TraceAskedIndex(t[1..], family, dir, size, moved + Gain(t[0]), i - 1);
      assert t[..i][1..] == t[1..][..i - 1];
    }
  }

  /** `TraceAsked`, read call by call. */
  lemma TraceAskedAt(t: seq<Call>, family: Family, dir: Direction, size: nat, moved: nat)
    requires TraceAsked(t, family, dir, size, moved)
    ensures AskedAt(t, family, dir, size, moved)
  {
    forall i | 0 <= i < |t|
      ensures CallAsked(t[i], family, dir, size, moved + Progress(t[..i]))
    {
      TraceAskedIndex(t, family, dir, size, moved, i);
    }
  }

  /** The loop moved what its calls moved and asked every call as
      `TraceAsked` says. */
  predicate AskedFrom(o: Outcome, family: Family, dir: Direction, size: nat, moved: nat)
  {
    o.moved == moved + Progress(o.trace) && TraceAsked(o.trace, family, dir, size, moved)
  }

  /** One more call in front of a trace asked as `AskedFrom` says. */
  lemma AskedCons(c: Call, o: Outcome, family: Family, dir: Direction, size: nat, moved: nat)
    requires CallAsked(c, family, dir, size, moved)
    requires AskedFrom(o, family, dir, size, moved + Gain(c))
    ensures AskedFrom(Outcome(o.moved, [c] + o.trace), family, dir, size, moved)
  {
    ProgressCons(c, o.trace);
    assert ([c] + o.trace)[1..] == o.trace;
  }

  /** `AskedFrom` for the loop's first call when it made progress, given
      `AskedFrom` for the rest. */
  lemma AskedAfterMove(family: Family, dir: Direction, size: nat, script: seq<int>,
                       k: nat, limit: nat, moved: nat, wait: int, r: Outcome)
    requires moved < size
    requires var n := Reply(Entry(script, k), Want(size, moved), limit);
      n > 0 && r == Run(family, dir, size, script, k + 1, limit - n, moved + n, 0) &&
      AskedFrom(r, family, dir, size, moved + n)
    ensures AskedFrom(Run(family, dir, size, script, k, limit, moved, wait), family, dir, size, moved)
  {
    var len := Want(size, moved);
    var n := Reply(Entry(script, k), len, limit);
    AskedCons(TransferCall(family, moved, len, n), r, family, dir, size, moved);
    RunStepMoves(family, dir, size, script, k, limit, moved, wait);
  }

  /** `AskedFrom` for the loop's first call when it returned zero with the
      flag clear: the wait, then, if the wait succeeded, the rest. */
  lemma AskedAfterWait(family: Family, dir: Direction, size: nat, script: seq<int>,
                       k: nat, limit: nat, moved: nat, r: Outcome)
    requires moved < size && Reply(Entry(script, k), Want(size, moved), limit) == 0
    requires var w := Entry(script, k + 1);
      w > 0 ==> r == Run(family, dir, size, script, k + 2, limit, moved, w) && AskedFrom(r, family, dir, size, moved)
    ensures AskedFrom(Run(family, dir, size, script, k, limit, moved, 0), family, dir, size, moved)
  {
    var len := Want(size, moved);
    var w := Entry(script, k + 1);
    var call := TransferCall(family, moved, len, 0);
    var waited := WaitCall(family, EventOf(dir), INFINITE, w);
    var tail := if w > 0 then r else Outcome(moved, []);
    AskedCons(waited, tail, family, dir, size, moved);
    AskedCons(call, Outcome(tail.moved, [waited] + tail.trace), family, dir, size, moved);
    assert Run(family, dir, size, script, k, limit, moved, 0) == Outcome(tail.moved, [call] + ([waited] + tail.trace));
  }

  /** `AskedFrom` for the loop's first call when it is also its last. */
  lemma AskedAtStop(family: Family, dir: Direction, size: nat, script: seq<int>,
                    k: nat, limit: nat, moved: nat, wait: int)
    requires moved < size
    requires var n := Reply(Entry(script, k), Want(size, moved), limit);
      n < 0 || (n == 0 && wait != 0)
    ensures AskedFrom(Run(family, dir, size, script, k, limit, moved, wait), family, dir, size, moved)
  {
    var len := Want(size, moved);
    var n := Reply(Entry(script, k), len, limit);
    var call := TransferCall(family, moved, len, n);
    AskedCons(call, Outcome(moved, []), family, dir, size, moved);
    assert Run(family, dir, size, script, k, limit, moved, wait) == Outcome(moved, [call] + []);
  }

  /** Every transfer asks for `min(size - moved, 8192)` bytes at offset
      `moved`, the bytes all earlier calls moved: the chunks land one after
      another with no gap and no overlap, and their sum is the total. Every
      call goes to the selected backend; every wait is for the loop's own
      event with no timeout. */
  lemma {:induction false} RunAsked(family: Family, dir: Direction, size: nat, script: seq<int>,
                                    k: nat, limit: nat, moved: nat, wait: int, o: Outcome)
    requires moved <= size && o == Run(family, dir, size, script, k, limit, moved, wait)
    ensures AskedFrom(o, family, dir, size, moved)
    decreases size - moved, if wait > 0 then 0 else 1
  {
    if moved < size {
      var n := Reply(Entry(script, k), Want(size, moved), limit);
      if n > 0 {
        var r := Run(family, dir, size, script, k + 1, limit - n, moved + n, 0);
        RunAsked(family, dir, size, script, k + 1, limit - n, moved + n, 0, r);
        AskedAfterMove(family, dir, size, script, k, limit, moved, wait, r);
      } else if n == 0 && wait == 0 {
        var w := Entry(script, k + 1);
        var r := Run(family, dir, size, script, k + 2, limit, moved, w);
        if w > 0 {
          RunAsked(family, dir, size, script, k + 2, limit, moved, w, r);
        }
        AskedAfterWait(family, dir, size, script, k, limit, moved, r);
      } else {
        AskedAtStop(family, dir, size, script, k, limit, moved, wait);
      }
    }
  }

  /** The public form of `RunAsked`: call `i` of the loop is asked at the
      offset the calls before it reached. */
  lemma RunChunks(family: Family, dir: Direction, size: nat, script: seq<int>,
                  k: nat, limit: nat, moved: nat, wait: int, o: Outcome)
    requires moved <= size && o == Run(family, dir, size, script, k, limit, moved, wait)
    ensures o.moved == moved + Progress(o.trace) && AskedAt(o.trace, family, dir, size, moved)
  {
    RunAsked(family, dir, size, script, k, limit, moved, wait, o);
    TraceAskedAt(o.trace, family, dir, size, moved);
  }

  /** The order of results the guard rules allow, from a state whose last
      wait returned `wait`: progress goes on with the flag cleared; a zero
      with the flag clear is followed by one wait, and the loop goes on only
      if that wait succeeded; anything else is the last call. */
  predicate Guarded(t: seq<Call>, wait: int)
    decreases |t|
  {
    t == [] ||
    (t[0].TransferCall? &&
     if t[0].result > 0 then Guarded(t[1..], 0)
     else if t[0].result == 0 && wait == 0 then
       |t| >= 2 && t[1].WaitCall? &&
       (if t[1].result > 0 then |t| > 2 && Guarded(t[2..], t[1].result) else |t| == 2)
     else |t| == 1)
  }

  lemma {:induction false} RunGuarded(family: Family, dir: Direction, size: nat, script: seq<int>,
                                      k: nat, limit: nat, moved: nat, wait: int, o: Outcome)
    requires moved <= size && o == Run(family, dir, size, script, k, limit, moved, wait)
    ensures Guarded(o.trace, wait) && (moved < size ==> |o.trace| > 0)
    decreases size - moved, if wait > 0 then 0 else 1
  {
    if moved < size {
      var len := Want(size, moved);
      var n := Reply(Entry(script, k), len, limit);
      var call := TransferCall(family, moved, len, n);
      if n > 0 {
        var r := Run(family, dir, size, script, k + 1, limit - n, moved + n, 0);
        RunGuarded(family, dir, size, script, k + 1, limit - n, moved + n, 0, r);
        assert o.trace == [call] + r.trace;
        assert o.trace[1..] == r.trace;
      } else if n == 0 && wait == 0 {
        var w := Entry(script, k + 1);
        var waited := WaitCall(family, EventOf(dir), INFINITE, w);
        if w > 0 {
          var r := Run(family, dir, size, script, k + 2, limit, moved, w);
          RunGuarded(family, dir, size, script, k + 2, limit, moved, w, r);
          assert o.trace == [call, waited] + r.trace;
          assert o.trace[2..] == r.trace;
        }
      }
    }
  }

  /** The guard rules call by call, for a trace that starts with the wait
      flag `wait`:
      - every wait directly follows a transfer that returned zero;
      - a call that returned zero or less and is not the last one is a
        zero transfer followed by a wait, so a negative transfer and a
        failed wait end the loop;
      - a zero transfer is followed by a wait exactly when the call before
        it is not a wait (for the first call: when the flag is clear), so a
        zero right after a successful wait ends the loop;
      - a successful wait is never the last call. */
  lemma {:induction false} GuardedRules(t: seq<Call>, wait: int)
    requires Guarded(t, wait)
    ensures forall i | 0 <= i < |t| && t[i].WaitCall? :: 0 < i && t[i - 1].TransferCall? && t[i - 1].result == 0
    ensures forall i | 0 <= i < |t| - 1 && t[i].result <= 0 ::
              t[i].TransferCall? && t[i].result == 0 && t[i + 1].WaitCall?
    ensures forall i | 0 <= i < |t| && t[i].TransferCall? && t[i].result == 0 ::
              i < |t| - 1 <==> (if i == 0 then wait == 0 else t[i - 1].TransferCall?)
    ensures forall i | 0 <= i < |t| && t[i].WaitCall? && t[i].result > 0 :: i < |t| - 1
    decreases |t|
  {
    if t != [] {
      if t[0].result > 0 {
        var r := t[1..];
        GuardedRules(r, 0);
        forall i | 1 <= i < |t| ensures t[i] == r[i - 1] { }
      } else if t[0].result == 0 && wait == 0 && t[1].result > 0 {
        var r := t[2..];
        GuardedRules(r, t[1].result);
        forall i | 2 <= i < |t| ensures t[i] == r[i - 2] { }
      }
    }
  }

  /** No busy loop: between two waits the loop always made progress; the
      call right after the earlier wait moved bytes. */
  lemma WaitsSeparated(t: seq<Call>, wait: int)
    requires Guarded(t, wait)
    ensures forall i, j | 0 <= i < j < |t| && t[i].WaitCall? && t[j].WaitCall? ::
              t[i + 1].TransferCall? && t[i + 1].result > 0
  {
    GuardedRules(t, wait);
    forall i, j | 0 <= i < j < |t| && t[i].WaitCall? && t[j].WaitCall?
      ensures t[i + 1].TransferCall? && t[i + 1].result > 0
    {
      assert t[j - 1].TransferCall?;
      assert t[i + 1].TransferCall?;
    }
  }

  /** Every backend call the loop makes obeys the guard rules. */
  lemma RunGuards(family: Family, dir: Direction, size: nat, script: seq<int>,
                  k: nat, limit: nat, moved: nat, wait: int, o: Outcome)
    requires moved <= size && o == Run(family, dir, size, script, k, limit, moved, wait)
    ensures var t := o.trace;
      (forall i | 0 <= i < |t| && t[i].WaitCall? :: 0 < i && t[i - 1].TransferCall? && t[i - 1].result == 0) &&
      (forall i | 0 <= i < |t| - 1 && t[i].result <= 0 ::
         t[i].TransferCall? && t[i].result == 0 && t[i + 1].WaitCall?) &&
      (forall i | 0 <= i < |t| && t[i].TransferCall? && t[i].result == 0 ::
         i < |t| - 1 <==> (if i == 0 then wait == 0 else t[i - 1].TransferCall?)) &&
      (forall i | 0 <= i < |t| && t[i].WaitCall? && t[i].result > 0 :: i < |t| - 1)
  {
    RunGuarded(family, dir, size, script, k, limit, moved, wait, o);
    GuardedRules(o.trace, wait);
  }

  /** The loop never waits twice without progress in between. */
  lemma RunWaitsSeparated(family: Family, dir: Direction, size: nat, script: seq<int>,
                          k: nat, limit: nat, moved: nat, wait: int, o: Outcome)
    requires moved <= size && o == Run(family, dir, size, script, k, limit, moved, wait)
    ensures forall i, j | 0 <= i < j < |o.trace| && o.trace[i].WaitCall? && o.trace[j].WaitCall? ::
              o.trace[i + 1].TransferCall? && o.trace[i + 1].result > 0
  {
    RunGuarded(family, dir, size, script, k, limit, moved, wait, o);
    WaitsSeparated(o.trace, wait);
  }

  /** The verdict can be read off the last call: there is one, and all
      `size` bytes were moved exactly when it made progress. */
  predicate Decided(o: Outcome, size: nat)
  {
    |o.trace| > 0 && (o.moved == size <==> o.trace[|o.trace| - 1].result > 0)
  }

  /** `Decided` for a loop whose first call made progress, given `Decided`
      for the rest when bytes are still missing. */
  lemma DecidedAfterMove(family: Family, dir: Direction, size: nat, script: seq<int>,
                         k: nat, limit: nat, moved: nat, wait: int, r: Outcome)
    requires moved < size
    requires var n := Reply(Entry(script, k), Want(size, moved), limit);
      n > 0 && r == Run(family, dir, size, script, k + 1, limit - n, moved + n, 0) &&
      (moved + n < size ==> Decided(r, size))
    ensures Decided(Run(family, dir, size, script, k, limit, moved, wait), size)
  {
    var len := Want(size, moved);
    var n := Reply(Entry(script, k), len, limit);
    var call := TransferCall(family, moved, len, n);
    RunStepMoves(family, dir, size, script, k, limit, moved, wait);
    if moved + n == size {
      assert r == Outcome(size, []);
      assert [call] + r.trace == [call];
    } else {
      assert ([call] + r.trace)[|r.trace|] == r.trace[|r.trace| - 1];
    }
  }

  /** `Decided` for a loop whose first call returned zero and whose wait
      succeeded, given `Decided` for the rest. */
  lemma DecidedAfterWait(family: Family, dir: Direction, size: nat, script: seq<int>,
                         k: nat, limit: nat, moved: nat, r: Outcome)
    requires moved < size && Reply(Entry(script, k), Want(size, moved), limit) == 0
    requires Entry(script, k + 1) > 0
    requires r == Run(family, dir, size, script, k + 2, limit, moved, Entry(script, k + 1)) && Decided(r, size)
    ensures Decided(Run(family, dir, size, script, k, limit, moved, 0), size)
  {
    var head := [TransferCall(family, moved, Want(size, moved), 0),
                 WaitCall(family, EventOf(dir), INFINITE, Entry(script, k + 1))];
    RunStepWaits(family, dir, size, script, k, limit, moved);
    assert (head + r.trace)[|r.trace| + 1] == r.trace[|r.trace| - 1];
  }

  /** The verdict: from an unfinished state the loop makes at least one
      call, and it reaches `size` exactly when its last call made progress;
      every other way out (a negative transfer, a failed wait, a zero after
      a wait) falls short. */
  lemma {:induction false} RunVerdict(family: Family, dir: Direction, size: nat, script: seq<int>,
                                      k: nat, limit: nat, moved: nat, wait: int, o: Outcome)
    requires moved < size && o == Run(family, dir, size, script, k, limit, moved, wait)
    ensures Decided(o, size)
    decreases size - moved, if wait > 0 then 0 else 1
  {
    var n := Reply(Entry(script, k), Want(size, moved), limit);
    var w := Entry(script, k + 1);
    if n > 0 {
      var r := Run(family, dir, size, script, k + 1, limit - n, moved + n, 0);
      if moved + n < size {
        RunVerdict(family, dir, size, script, k + 1, limit - n, moved + n, 0, r);
      }
      DecidedAfterMove(family, dir, size, script, k, limit, moved, wait, r);
    } else if n == 0 && wait == 0 && w > 0 {
      var r := Run(family, dir, size, script, k + 2, limit, moved, w);
      RunVerdict(family, dir, size, script, k + 2, limit, moved, w, r);
      DecidedAfterWait(family, dir, size, script, k, limit, moved, r);
    } else {
      RunStepEnds(family, dir, size, script, k, limit, moved, wait);
    }
  }

  /** Termination for every script, counted in backend calls: at most three
      calls (zero, wait, progress) per byte moved, plus three for the way
      out (one when the flag is already set). */
  lemma {:induction false} RunCallBound(family: Family, dir: Direction, size: nat, script: seq<int>,
                                        k: nat, limit: nat, moved: nat, wait: int, o: Outcome)
    requires moved <= size && o == Run(family, dir, size, script, k, limit, moved, wait)
    ensures |o.trace| <= 3 * (o.moved - moved) + (if wait > 0 then 1 else 3)
    decreases size - moved, if wait > 0 then 0 else 1
  {
    if moved < size {
      var n := Reply(Entry(script, k), Want(size, moved), limit);
      var w := Entry(script, k + 1);
      if n > 0 {
        var r := Run(family, dir, size, script, k + 1, limit - n, moved + n, 0);
        RunCallBound(family, dir, size, script, k + 1, limit - n, moved + n, 0, r);
        RunStepMoves(family, dir, size, script, k, limit, moved, wait);
        assert |o.trace| == |r.trace| + 1 && o.moved == r.moved;
      } else if n == 0 && wait == 0 && w > 0 {
        var r := Run(family, dir, size, script, k + 2, limit, moved, w);
        RunCallBound(family, dir, size, script, k + 2, limit, moved, w, r);
        RunStepWaits(family, dir, size, script, k, limit, moved);
        assert |o.trace| == |r.trace| + 2 && o.moved == r.moved;
      } else {
        RunStepEnds(family, dir, size, script, k, limit, moved, wait);
        assert |o.trace| <= 2 && o.moved == moved;
      }
    }
  }

  /** Exactness whatever the chunking: when the peer can supply (or accept)
      every missing byte and each of the next `size - moved` script entries
      is positive, whether it grants one byte or a whole chunk, the loop
      moves all `size` bytes without ever waiting. */
  lemma {:induction false} RunDelivers(family: Family, dir: Direction, size: nat, script: seq<int>,
                                       k: nat, limit: nat, moved: nat, wait: int, o: Outcome)
    requires moved <= size && size - moved <= limit
    requires forall j | k <= j < k + (size - moved) :: Entry(script, j) > 0
    requires o == Run(family, dir, size, script, k, limit, moved, wait)
    ensures o.moved == size && forall c | c in o.trace :: c.TransferCall? && c.result > 0
    decreases size - moved
  {
    if moved < size {
      var len := Want(size, moved);
      var n := Reply(Entry(script, k), len, limit);
      assert n > 0;
      RunDelivers(family, dir, size, script, k + 1, limit - n, moved + n, 0,
                  Run(family, dir, size, script, k + 1, limit - n, moved + n, 0));
    }
  }

  /** A fair backend answer at script position `j`: no error, and a zero
      (nothing ready yet) is followed by a successful wait and then by a
      transfer that makes progress. */
  predicate Fair(script: seq<int>, j: nat)
  {
    Entry(script, j) >= 0 &&
    (Entry(script, j) == 0 ==> Entry(script, j + 1) > 0 && Entry(script, j + 2) > 0)
  }

  /** Exactness through readiness races: when the peer can supply (or
      accept) every missing byte and the backend answers fairly up to script
      position `end`, zeros included, and that leaves room for three calls
      per missing byte, the loop moves all `size` bytes; each zero costs one
      wait and the retry after it makes progress. */
  lemma {:induction false} RunDeliversThroughWaits(family: Family, dir: Direction, size: nat, script: seq<int>,
                                                   k: nat, limit: nat, moved: nat, end: nat)
    requires moved <= size && size - moved <= limit
    requires k + 3 * (size - moved) <= end && forall j | k <= j < end :: Fair(script, j)
    ensures Run(family, dir, size, script, k, limit, moved, 0).moved == size
    decreases size - moved, 1
  {
    if moved < size {
      assert Fair(script, k);
      if Reply(Entry(script, k), Want(size, moved), limit) > 0 {
        DeliveredAfterMove(family, dir, size, script, k, limit, moved, end);
      } else {
        DeliveredAfterWait(family, dir, size, script, k, limit, moved, end);
      }
    }
  }

  /** `RunDeliversThroughWaits` when the first transfer makes progress. */
  lemma {:induction false} DeliveredAfterMove(family: Family, dir: Direction, size: nat, script: seq<int>,
                                              k: nat, limit: nat, moved: nat, end: nat)
    requires moved < size && size - moved <= limit
    requires k + 3 * (size - moved) <= end && forall j | k <= j < end :: Fair(script, j)
    requires Reply(Entry(script, k), Want(size, moved), limit) > 0
    ensures Run(family, dir, size, script, k, limit, moved, 0).moved == size
    decreases size - moved, 0
  {
    var n := Reply(Entry(script, k), Want(size, moved), limit);
    RunDeliversThroughWaits(family, dir, size, script, k + 1, limit - n, moved + n, end);
    RunStepMoves(family, dir, size, script, k, limit, moved, 0);
  }

  /** `RunDeliversThroughWaits` when the first transfer returns zero: the
      wait succeeds and the retry makes progress. */
  lemma {:induction false} DeliveredAfterWait(family: Family, dir: Direction, size: nat, script: seq<int>,
                                              k: nat, limit: nat, moved: nat, end: nat)
    requires moved < size && size - moved <= limit
    requires k + 3 * (size - moved) <= end && forall j | k <= j < end :: Fair(script, j)
    requires Reply(Entry(script, k), Want(size, moved), limit) <= 0
    ensures Run(family, dir, size, script, k, limit, moved, 0).moved == size
    decreases size - moved, 0
  {
    assert Fair(script, k) && Fair(script, k + 2);
    var w := Entry(script, k + 1);
    var n := Reply(Entry(script, k + 2), Want(size, moved), limit);
    RunDeliversThroughWaits(family, dir, size, script, k + 3, limit - n, moved + n, end);
    RunStepWaits(family, dir, size, script, k, limit, moved);
    RunStepMoves(family, dir, size, script, k + 2, limit, moved, w);
  }

  /** The loop reads only the script entries its own calls use: two
      scripts that agree on those entries give the same calls and the same
      total. */
  lemma {:induction false} RunReadsOnlyTrace(family: Family, dir: Direction, size: nat, s1: seq<int>, s2: seq<int>,
                                             k: nat, limit: nat, moved: nat, wait: int)
    requires moved <= size
    requires forall j | k <= j < k + |Run(family, dir, size, s1, k, limit, moved, wait).trace| ::
               Entry(s1, j) == Entry(s2, j)
    ensures Run(family, dir, size, s1, k, limit, moved, wait) == Run(family, dir, size, s2, k, limit, moved, wait)
    decreases size - moved, if wait > 0 then 2 else 4
  {
    if moved < size {
      var n := Reply(Entry(s1, k), Want(size, moved), limit);
      if n > 0 {
        SameAfterMove(family, dir, size, s1, s2, k, limit, moved, wait);
      } else if n == 0 && wait == 0 {
        SameAfterZero(family, dir, size, s1, s2, k, limit, moved);
      } else {
        SameAtEnd(family, dir, size, s1, s2, k, limit, moved, wait);
      }
    }
  }

  /** `RunReadsOnlyTrace` when the first transfer makes progress. */
  lemma {:induction false} SameAfterMove(family: Family, dir: Direction, size: nat, s1: seq<int>, s2: seq<int>,
                                         k: nat, limit: nat, moved: nat, wait: int)
    requires moved < size && Reply(Entry(s1, k), Want(size, moved), limit) > 0
    requires forall j | k <= j < k + |Run(family, dir, size, s1, k, limit, moved, wait).trace| ::
               Entry(s1, j) == Entry(s2, j)
    ensures Run(family, dir, size, s1, k, limit, moved, wait) == Run(family, dir, size, s2, k, limit, moved, wait)
    decreases size - moved, 1
  {
    var n := Reply(Entry(s1, k), Want(size, moved), limit);
    var r := Run(family, dir, size, s1, k + 1, limit - n, moved + n, 0);
    RunStepMoves(family, dir, size, s1, k, limit, moved, wait);
    assert |Run(family, dir, size, s1, k, limit, moved, wait).trace| == 1 + |r.trace|;
    assert Entry(s1, k) == Entry(s2, k);
    RunStepMoves(family, dir, size, s2, k, limit, moved, wait);
    RunReadsOnlyTrace(family, dir, size, s1, s2, k + 1, limit - n, moved + n, 0);
  }

  /** `RunReadsOnlyTrace` when the first transfer returns zero with the
      flag clear: the wait reads the next entry too. */
  lemma {:induction false} SameAfterZero(family: Family, dir: Direction, size: nat, s1: seq<int>, s2: seq<int>,
                                         k: nat, limit: nat, moved: nat)
    requires moved < size && Reply(Entry(s1, k), Want(size, moved), limit) == 0
    requires forall j | k <= j < k + |Run(family, dir, size, s1, k, limit, moved, 0).trace| ::
               Entry(s1, j) == Entry(s2, j)
    ensures Run(family, dir, size, s1, k, limit, moved, 0) == Run(family, dir, size, s2, k, limit, moved, 0)
    decreases size - moved, 3
  {
    var w := Entry(s1, k + 1);
    if w > 0 {
      var r := Run(family, dir, size, s1, k + 2, limit, moved, w);
      RunStepWaits(family, dir, size, s1, k, limit, moved);
      assert |Run(family, dir, size, s1, k, limit, moved, 0).trace| == 2 + |r.trace|;
      assert Entry(s1, k) == Entry(s2, k) && Entry(s1, k + 1) == Entry(s2, k + 1);
      RunStepWaits(family, dir, size, s2, k, limit, moved);
      RunReadsOnlyTrace(family, dir, size, s1, s2, k + 2, limit, moved, w);
    } else {
      RunStepEnds(family, dir, size, s1, k, limit, moved, 0);
      assert Entry(s1, k) == Entry(s2, k) && Entry(s1, k + 1) == Entry(s2, k + 1);
      RunStepEnds(family, dir, size, s2, k, limit, moved, 0);
    }
  }

  /** `RunReadsOnlyTrace` when the first transfer is also the last call. */
  lemma SameAtEnd(family: Family, dir: Direction, size: nat, s1: seq<int>, s2: seq<int>,
                  k: nat, limit: nat, moved: nat, wait: int)
    requires moved < size
    requires var n := Reply(Entry(s1, k), Want(size, moved), limit); n < 0 || (n == 0 && wait != 0)
    requires forall j | k <= j < k + |Run(family, dir, size, s1, k, limit, moved, wait).trace| ::
               Entry(s1, j) == Entry(s2, j)
    ensures Run(family, dir, size, s1, k, limit, moved, wait) == Run(family, dir, size, s2, k, limit, moved, wait)
  {
    RunStepEnds(family, dir, size, s1, k, limit, moved, wait);
    assert Entry(s1, k) == Entry(s2, k);
    RunStepEnds(family, dir, size, s2, k, limit, moved, wait);
  }

  /** Exactness for any script that agrees with a fair one on the entries
      the loop reads, such as a script that ends as soon as the last byte
      is moved: the loop moves all `size` bytes. */
  lemma RunDeliversAgreeing(family: Family, dir: Direction, size: nat, script: seq<int>, fair: seq<int>,
                            k: nat, limit: nat, moved: nat, end: nat)
    requires moved <= size && size - moved <= limit
    requires k + 3 * (size - moved) <= end && forall j | k <= j < end :: Fair(fair, j)
    requires forall j | k <= j < k + |Run(family, dir, size, fair, k, limit, moved, 0).trace| ::
               Entry(fair, j) == Entry(script, j)
    ensures Run(family, dir, size, script, k, limit, moved, 0).moved == size
  {
    RunDeliversThroughWaits(family, dir, size, fair, k, limit, moved, end);
    RunReadsOnlyTrace(family, dir, size, fair, script, k, limit, moved, 0);
  }

  /** A read of 100 bytes whose backend first reports nothing, then a
      successful wait, then all 100 bytes, and whose script ends there,
      succeeds: it agrees with a fair script on every entry the loop reads. */
  lemma ShortScriptDelivers()
    ensures Run(Posix, Reading, 100, [0, 1, 100], 0, 100, 0, 0).moved == 100
  {
    var script := [0, 1, 100];
    var fair := script + seq(300, j => 1);
    forall j | 0 <= j < 300
      ensures Fair(fair, j)
    {
      if j >= 3 { assert Entry(fair, j) == 1; }
    }
    RunStepWaits(Posix, Reading, 100, fair, 0, 100, 0);
    RunStepMoves(Posix, Reading, 100, fair, 2, 100, 0, 1);
    assert |Run(Posix, Reading, 100, fair, 0, 100, 0, 0).trace| == 3;
    RunDeliversAgreeing(Posix, Reading, 100, script, fair, 0, 100, 0, 300);
  }

  /** A write of 10000 bytes whose script holds just the two chunk results
      8192 and 1808 succeeds. */
  lemma TwoChunkScriptDelivers()
    ensures Run(Posix, Writing, 10000, [8192, 1808], 0, 10000, 0, 0).moved == 10000
  {
    var script := [8192, 1808];
    var fair := script + seq(30000, j => 1);
    forall j | 0 <= j < 30000
      ensures Fair(fair, j)
    {
      if j >= 2 { assert Entry(fair, j) == 1; }
    }
    RunStepMoves(Posix, Writing, 10000, fair, 0, 10000, 0, 0);
    RunStepMoves(Posix, Writing, 10000, fair, 1, 1808, 8192, 0);
    assert |Run(Posix, Writing, 10000, fair, 0, 10000, 0, 0).trace| == 2;
    RunDeliversAgreeing(Posix, Writing, 10000, script, fair, 0, 10000, 0, 30000);
  }
}

