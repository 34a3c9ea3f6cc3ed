# tbox pipe dispatch and blocking transfer, in Dafny

This project models `src/tbox/platform/pipe.c` of tbox. That file has two jobs:

- **Platform selection and dispatch.** `_get_sys_name` turns the `uname` system
  name into a tag ("macosx", "linux" or "windows"). Each public pipe operation
  (`init`, `init_pair`, `exit`, `read`, `write`, `wait`, `connect`) forwards its
  arguments to the `_win` backend when the tag is "windows", and to the
  `_posix` backend otherwise.
- **Blocking transfer.** `tb_pipe_file_bread` and `tb_pipe_file_bwrit` move
  exactly `size` bytes through a non-blocking primitive that may move only part
  of a request. Each request asks for at most 8192 bytes. When the primitive
  reports nothing and the loop has not just waited, it waits once for
  readiness with an infinite timeout. A second zero, a negative result or a
  failed wait ends the loop. The function returns true exactly when all `size`
  bytes were moved.

Files:

- `platform.dfy`, module `Platform`: the system-name tag, the routing rule,
  dispatch, and the binding of `read_func`/`write_func`.
- `backend.dfy`, module `PipeBackend`: a pipe handle (`PipeFile`, a class).
  Its primitives answer from a script of integers, one per backend call, and
  copy real bytes.
- `engine.dfy`, module `PipeEngine`: `Run`, a function that lists every
  backend call the loop makes and how many bytes it moves. The lemmas about
  `Run` state what the source promises.
- `blocking.dfy`, module `PipeBlocking`: the two loops as imperative methods
  over an `array` and a `PipeFile`. Each is proved to make exactly the calls
  `Run` lists and to move the bytes in order.

## Model

| member | source | states |
|---|---|---|
| Platform.Contains | src/tbox/platform/pipe.c:48-52 | `tb_strstr` finds the pattern exactly when it occurs at some offset of the system name |
| Platform.SysName | src/tbox/platform/pipe.c:44-55 | the tag is left unwritten or is one of "macosx", "linux", "windows"; it is written only when `uname` succeeded |
| Platform.SysNameFirstMatch | src/tbox/platform/pipe.c:46-54 | the checks run in the order Darwin, Linux, Windows, each stated as an if-and-only-if: "macosx" exactly when the name contains Darwin; "linux" exactly when it contains Linux but not Darwin; "windows" exactly when only Windows matches; the tag is left unwritten exactly when none of the three matches |
| Platform.SysNameDarwin | src/tbox/platform/pipe.c:48-49 | "Darwin" is tagged "macosx" |
| Platform.SysNameLinux | src/tbox/platform/pipe.c:50-51 | "Linux" is tagged "linux" |
| Platform.SysNameWindows | src/tbox/platform/pipe.c:52-53 | an example name containing "Windows" ("Windows_NT") is tagged "windows" |
| Platform.SysNameUnknownSystem | src/tbox/platform/pipe.c:44-55 | an unknown system ("FreeBSD") or a failed `uname` leaves the tag unwritten |
| Platform.Route | src/tbox/platform/pipe.c:62 | the test `tb_strcmp(sysname, "windows") == 0` that every dispatcher and both blocking functions make (also lines 73, 80, 87, 94, 101, 108, 118, 155): a failed `uname` routes to POSIX, and the Windows route needs a system name that mentions Windows |
| Platform.RouteWindowsExactly | src/tbox/platform/pipe.c:60-67 | the Windows backend is chosen exactly when `uname` succeeded and the name mentions Windows but neither Darwin nor Linux |
| Platform.Dispatch | src/tbox/platform/pipe.c:58-110 | every public operation is forwarded with unchanged arguments; it goes to `_win` exactly when the tag is "windows", and to `_posix` when `uname` failed |
| Platform.ReadFunc | src/tbox/platform/pipe.c:115-121 | `read_func` in `bread` is the backend the `tb_pipe_file_read` dispatcher would pick, for every handle and size |
| Platform.WriteFuncAsWritten | src/tbox/platform/pipe.c:152-158 | as written, `write_func` can only ever be bound to the Windows primitive |
| Platform.WriteFuncAsWrittenUnbound | src/tbox/platform/pipe.c:155-158 | as written, `write_func` is left unbound on exactly the systems the dispatchers send to POSIX, "Linux" among them |
| Platform.WriteFunc | src/tbox/platform/pipe.c:152-158 | the corrected `write_func` is the backend the `tb_pipe_file_write` dispatcher would pick, for every handle and size |
| PipeEngine.Want | src/tbox/platform/pipe.c:130 | a request is positive and at most 8192 bytes, never runs past `size`, and is short of 8192 only for the remainder |
| PipeEngine.EventOf | src/tbox/platform/pipe.c:142 | the read loop waits for `TB_PIPE_EVENT_READ` and only it, the write loop (line 178) for `TB_PIPE_EVENT_WRIT` and only it |
| PipeEngine.Run | src/tbox/platform/pipe.c:123-148 | the loop never moves more than `size` bytes, nor more than the peer can supply or accept; a peer short of the missing bytes always makes it fall short |
| PipeEngine.SpinMatchesRun | src/tbox/platform/pipe.c:126-147 | running the loop one call at a time, appending each call to a log, ends with the log extended by exactly the calls `Run` lists |
| PipeEngine.RunChunks | src/tbox/platform/pipe.c:126-137 | call `i` asks for `min(size - done, 8192)` bytes at offset `done`, where `done` is what the earlier calls moved; so chunks are contiguous and in order, and the total moved is the sum of the positive results. Every call goes to the selected backend; every wait is for the loop's event with timeout -1 (the same rule at lines 162-173) |
| PipeEngine.RunGuards | src/tbox/platform/pipe.c:133-146 | each wait follows a zero transfer. A result ≤ 0 that is not last is a zero transfer followed by a wait, so a negative result or a failed wait ends the loop. A zero transfer is followed by a wait exactly when the call before it is not a wait (the flag is clear), so a zero right after a successful wait ends the loop. A successful wait is never last |
| PipeEngine.RunWaitsSeparated | src/tbox/platform/pipe.c:138-144 | the loop never waits twice without progress: the call after any wait that is not the last wait moved bytes |
| PipeEngine.RunVerdict | src/tbox/platform/pipe.c:126-148 | from an unfinished state the loop makes at least one call, and it moves all `size` bytes exactly when its last call made progress |
| PipeEngine.RunCallBound | src/tbox/platform/pipe.c:126-147 | termination for every script: at most 3 calls per byte moved, plus 3 more, or plus only 1 more when the flag is already set |
| PipeEngine.RunDelivers | src/tbox/platform/pipe.c:126-137 | when the peer can supply or accept every missing byte and the backend keeps returning positive counts, the loop moves all `size` bytes without ever waiting, however small the chunks |
| PipeEngine.RunDeliversThroughWaits | src/tbox/platform/pipe.c:126-147 | exactness through readiness races: when the peer can supply or accept every missing byte and the backend answers fairly (never an error, and every zero is followed by a successful wait and a retry that makes progress) for three calls per missing byte, the loop moves all `size` bytes; each zero costs one wait (lines 139-143) and the retry makes progress (lines 133-137) |
| PipeEngine.RunReadsOnlyTrace | src/tbox/platform/pipe.c:126-147 | the loop reads only the script entries its own calls use (one per transfer, one per wait): two scripts that agree on those entries give the same calls and the same total, whatever follows |
| PipeEngine.RunDeliversAgreeing | src/tbox/platform/pipe.c:126-147 | exactness for any script that agrees with a fair one on the entries the loop reads, such as one that ends right after the last chunk: the loop moves all `size` bytes |
| PipeEngine.ShortScriptDelivers | src/tbox/platform/pipe.c:133-143 | a 100-byte read answered by a zero, a successful wait and then 100 bytes, with nothing after, moves all 100 bytes |
| PipeEngine.TwoChunkScriptDelivers | src/tbox/platform/pipe.c:130-137 | a 10000-byte write answered by 8192 and then 1808, with nothing after, moves all 10000 bytes |
| PipeBlocking.BRead | src/tbox/platform/pipe.c:113-149 | binds `read_func` by the system name, then makes exactly the calls `Run` lists. It returns true exactly when they moved `size` bytes. `data[..moved]` holds the peer's bytes in order and the rest of `data` is untouched. For `size == 0` it returns true without any call |
| PipeBlocking.ReadLoop | src/tbox/platform/pipe.c:123-148 | the read loop for a bound primitive has the effects `BRead` states |
| PipeBlocking.ReadTurn | src/tbox/platform/pipe.c:128-146 | one pass of the read loop: one read, and, after a zero with the flag clear, one wait; it takes the same step `Run` takes and copies the bytes read to their offset |
| PipeBlocking.BWrit | src/tbox/platform/pipe.c:150-185 | binds the (corrected) `write_func`, then makes exactly the calls `Run` lists. It returns true exactly when they moved `size` bytes, and the peer has received `data[..moved]` in order. For `size == 0` it returns true without any call |
| PipeBlocking.WritLoop | src/tbox/platform/pipe.c:160-184 | the write loop for a bound primitive has the effects `BWrit` states |
| PipeBlocking.WritTurn | src/tbox/platform/pipe.c:164-182 | one pass of the write loop: one write, and, after a zero with the flag clear, one wait; it takes the same step `Run` takes and hands the peer the bytes written |

## Left out

- The real backends (`windows/pipe.c`, `posix/pipe.c`) are not part of this model. A `PipeFile` answers each call from a script of integers. A transfer's result is clamped to the request and to what the peer can supply or accept, so a backend that claims more than it was asked for is not modelled.
- `PipeFile` returns -1 for every call once its script is used up. This stands for a backend that keeps failing.
- `uname` is a parameter (`None` when it fails). The source re-reads it on every call, including the `tb_pipe_file_wait` made inside the loops. The model reads it once, so the wait goes to the same backend as the transfers.
- When `uname` fails or names an unknown system, the source compares a buffer that was never written against "windows". The model treats that buffer as holding something other than "windows", so the call goes to POSIX.
- `init`, `init_pair`, `exit` and `connect` are modelled only as far as their routing (`Platform.Dispatch`); what the backends do with them is not.
- Handles and buffers are not memory addresses in the model. A handle is an object or an opaque number, and `data + read` is an offset into an `array`.
- Concurrency, and the readiness semantics of a real wait (a wait result is a script entry), are left out.

## Findings

| source | as written | input that shows it | evidently intended | confidence | as-written member | corrected member |
|---|---|---|---|---|---|---|
| src/tbox/platform/pipe.c:158 | the non-Windows branch of `tb_pipe_file_bwrit` assigns `read_func`, which that function does not declare. Unless some `read_func` is visible at file scope (pipe.h and the included backend file are not part of this model), the function does not compile. If one is visible, it compiles, but `write_func` is never bound on that branch and the call at line 166 goes through an uninitialised function variable | system name "Linux" (any system the dispatchers send to POSIX) | `write_func = tb_pipe_file_write_posix`, the same rule as `tb_pipe_file_write` | high; not executed | Platform.WriteFuncAsWrittenUnbound | Platform.WriteFunc |
