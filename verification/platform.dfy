/** Platform selection and dispatch of the pipe operations (src/tbox/platform/pipe.c).

    The system name comes from `uname`, which is outside the model: it is a
    parameter, `None` when `uname` fails. Every public pipe operation re-reads
    it and forwards its arguments unchanged to the `_win` or the `_posix`
    implementation.
 */
module Platform {

  datatype Option<T> = None | Some(value: T)

  /** The backend implementation an operation is forwarded to. */
  datatype Family = Win | Posix

  /** `sub` stands in `s` starting at offset `i`. */
  predicate OccursAt(s: string, sub: string, i: nat)
  {
    i + |sub| <= |s| && s[i..i + |sub|] == sub
  }

  /** `tb_strstr(s, sub)` finds something: `sub` occurs in `s` at some offset. */
  function Contains(s: string, sub: string): (r: bool)
    ensures r <==> exists i: nat :: OccursAt(s, sub, i)
    decreases |s|
  {
    if |s| < |sub| then false
    else if s[..|sub|] == sub then
      assert OccursAt(s, sub, 0);
      true
    else
      var found := Contains(s[1..], sub);
      if found then
        var i: nat :| OccursAt(s[1..], sub, i);
        assert s[i + 1..i + 1 + |sub|] == s[1..][i..i + |sub|];
        assert OccursAt(s, sub, i + 1);
        true
      else
        forall i: nat | OccursAt(s, sub, i) ensures false {
          if i > 0 {
            assert s[1..][i - 1..i - 1 + |sub|] == s[i..i + |sub|];
            assert OccursAt(s[1..], sub, i - 1);
          }
        }
        false
  }

  /** What `_get_sys_name` leaves in the caller's buffer for the `uname`
      system name `uname`: the first of "Darwin", "Linux", "Windows" that
      occurs in it picks the tag; `None` when `uname` failed or nothing
      matched (the buffer is then left unwritten). */
  function SysName(uname: Option<string>): (tag: Option<string>)
    ensures tag.None? || tag.value in {"macosx", "linux", "windows"}
    ensures tag.Some? ==> uname.Some?
  {
    if uname.None? then None
    else if Contains(uname.value, "Darwin") then Some("macosx")
    else if Contains(uname.value, "Linux") then Some("linux")
    else if Contains(uname.value, "Windows") then Some("windows")
    else None
  }

  /** The earlier substring wins: a system name naming both Darwin and
      Windows is tagged "macosx", one naming Linux and Windows "linux"; a
      name naming none of the three leaves the tag unwritten. */
  lemma SysNameFirstMatch(u: string)
    ensures SysName(Some(u)) == Some("macosx") <==> Contains(u, "Darwin")
    ensures SysName(Some(u)) == Some("linux") <==> !Contains(u, "Darwin") && Contains(u, "Linux")
    ensures SysName(Some(u)) == Some("windows")
            <==> !Contains(u, "Darwin") && !Contains(u, "Linux") && Contains(u, "Windows")
    ensures SysName(Some(u)) == None
            <==> !Contains(u, "Darwin") && !Contains(u, "Linux") && !Contains(u, "Windows")
  {
  }

  /** The name `uname` reports on macOS is tagged "macosx". */
  lemma SysNameDarwin()
    ensures SysName(Some("Darwin")) == Some("macosx")
  {
    assert OccursAt("Darwin", "Darwin", 0);
  }

  /** The name `uname` reports on Linux is tagged "linux". */
  lemma SysNameLinux()
    ensures SysName(Some("Linux")) == Some("linux")
  {
    assert OccursAt("Linux", "Linux", 0);
    Absent("Linux", "Darwin");
  }

  /** An example system name that contains "Windows", and neither "Darwin"
      nor "Linux", is tagged "windows". */
  lemma SysNameWindows()
    ensures SysName(Some("Windows_NT")) == Some("windows")
  {
    assert OccursAt("Windows_NT", "Windows", 0);
    Absent("Windows_NT", "Darwin");
    Absent("Windows_NT", "Linux");
  }

  /** A system `_get_sys_name` does not know, or a failed `uname`, leaves
      the tag unwritten. */
  lemma SysNameUnknownSystem()
    ensures SysName(Some("FreeBSD")) == None
    ensures SysName(None) == None
  {
    Absent("FreeBSD", "Darwin");
    Absent("FreeBSD", "Linux");
    Absent("FreeBSD", "Windows");
  }

  /** `sub` is not in `s` when no place it could start holds its first letter. */
  lemma Absent(s: string, sub: string)
    requires |sub| > 0 && forall i | 0 <= i && i + |sub| <= |s| :: s[i] != sub[0]
    ensures !Contains(s, sub)
  {
  }

  /** The test every dispatcher makes on the tag, `tb_strcmp(sysname, "windows") == 0`.
      An unwritten buffer is taken to hold something other than "windows". */
  function Route(uname: Option<string>): (f: Family)
    ensures uname.None? ==> f == Posix
    ensures f == Win ==> uname.Some? && Contains(uname.value, "Windows")
  {
    if SysName(uname) == Some("windows") then Win else Posix
  }

  /** The Windows backend serves a call exactly when `uname` succeeded and its
      system name mentions Windows but neither Darwin nor Linux. */
  lemma RouteWindowsExactly(uname: Option<string>)
    ensures Route(uname) == Win
            <==> uname.Some? && Contains(uname.value, "Windows")
                 && !Contains(uname.value, "Darwin") && !Contains(uname.value, "Linux")
  {
  }

  /** The public pipe operations with the arguments they forward; handles are
      opaque numbers and buffers are left out. */
  datatype Op =
    | Init(name: string, mode: nat, bufferSize: nat)
    | InitPair(modes: (nat, nat), bufferSize: nat)
    | Exit(file: nat)
    | Read(file: nat, size: nat)
    | Write(file: nat, size: nat)
    | Wait(file: nat, events: nat, timeout: int)
    | Connect(file: nat)

  /** A call of one backend's implementation of `op`. */
  datatype Forwarded = Forwarded(family: Family, op: Op)

  /** `tb_pipe_file_init` ... `tb_pipe_file_connect`: every operation goes,
      with the same arguments, to `_win` when the tag is "windows" and to
      `_posix` otherwise. */
  function Dispatch(uname: Option<string>, op: Op): (c: Forwarded)
    ensures c.op == op
    ensures c.family == Win <==> SysName(uname) == Some("windows")
    ensures uname.None? ==> c.family == Posix
  {
    Forwarded(Route(uname), op)
  }

  /** The primitive `tb_pipe_file_bread` binds to `read_func`: the same rule
      as the `tb_pipe_file_read` dispatcher. */
  function ReadFunc(uname: Option<string>): (f: Family)
    ensures forall file, size :: f == Dispatch(uname, Read(file, size)).family
  {
    Route(uname)
  }

  /** `write_func` as `tb_pipe_file_bwrit` binds it: only the Windows branch
      assigns it; the other branch assigns `read_func`, which is not declared
      in that function, so off Windows nothing is bound (`None`). */
  function WriteFuncAsWritten(uname: Option<string>): (f: Option<Family>)
    ensures f.Some? ==> f.value == Win
  {
    if SysName(uname) == Some("windows") then Some(Win) else None
  }

  /** Every system the dispatchers send to POSIX leaves `write_func` unbound,
      Linux among them. */
  lemma WriteFuncAsWrittenUnbound(uname: Option<string>)
    ensures WriteFuncAsWritten(uname).None? <==> Dispatch(uname, Write(0, 0)).family == Posix
    ensures WriteFuncAsWritten(Some("Linux")).None?
  {
    assert "Linux"[0..5] == "Linux";
  }

  /** The intended binding of `write_func`: the same rule as the
      `tb_pipe_file_write` dispatcher, on both branches. */
  function WriteFunc(uname: Option<string>): (f: Family)
    ensures forall file, size :: f == Dispatch(uname, Write(file, size)).family
  {
    Route(uname)
  }
}
