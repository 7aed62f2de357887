/** The file-descriptor pool as a value, and what each system call makes of it. */
module FdTable {
  import opened Words

  const MAX_FD: nat := 32

  const EXCL: bv32 := 0x8000_0000
  const DEV: bv32 := 0x4000_0000
  const FLAGS_MASK: bv32 := 0xC000_0000
  /** O_APPEND | O_NONBLOCK */
  const FCNTL_MASK: bv32 := 0x0000_4008

  const EACCES := 13
  const ENODEV := 19
  const EINVAL := 22
  const EMFILE := 24
  const ENOTTY := 25
  const EBADFD := 81

  /** Devices are found by their exact name; anything else found is a filesystem. */
  datatype Dev = Device(id: nat) | FileSystem(id: nat)

  const NULL_DEVICE := Device(0)

  /** A descriptor. One whose `dev` is None is free. */
  datatype Fd = Fd(dev: Option<Dev>, flags: bv32)

  /** `alt_fd_list` and its high-water mark `alt_max_fd`. */
  datatype Pool = Pool(fds: seq<Fd>, maxFd: int)

  predicate Shaped(p: Pool) {
    |p.fds| == MAX_FD && -1 <= p.maxFd < MAX_FD
  }

  function Boot(): Pool {
    Pool(seq(MAX_FD, i => if i < 3 then Fd(Some(NULL_DEVICE), 0) else Fd(None, 0)), -1)
  }

  predicate IsFd(i: int) {
    0 <= i < MAX_FD
  }

  /** Descriptor `i` refers to `d`. */
  predicate On(p: Pool, i: int, d: Dev)
    requires Shaped(p)
  {
    IsFd(i) && p.fds[i].dev == Some(d)
  }

  /** Descriptor `i` holds the exclusive lock on `d`. */
  predicate Holds(p: Pool, i: int, d: Dev)
    requires Shaped(p)
  {
    On(p, i, d) && p.fds[i].flags & EXCL != 0
  }

  ghost predicate Locked(p: Pool, d: Dev)
    requires Shaped(p)
  {
    exists i :: Holds(p, i, d)
  }

  // ---------------------------------------------------------------- the building blocks

  /** The lowest free descriptor from `i` on, or MAX_FD. */
  function FirstFree(fds: seq<Fd>, i: nat): (k: nat)
    requires i <= |fds|
    ensures i <= k <= |fds|
    ensures k < |fds| ==> fds[k].dev == None
    ensures forall j | i <= j < k :: fds[j].dev != None
    decreases |fds| - i
  {
    if i == |fds| || fds[i].dev == None then i else FirstFree(fds, i + 1)
  }

  function WithFd(p: Pool, i: int, fd: Fd): (p': Pool)
    requires Shaped(p) && IsFd(i)
    ensures Shaped(p')
  {
    p.(fds := p.fds[i := fd])
  }

  /** `alt_release_fd` */
  function Release(p: Pool, i: int): (p': Pool)
    requires Shaped(p) && i < MAX_FD
    ensures Shaped(p')
  {
    if i > 2 then WithFd(p, i, Fd(None, 0)) else p
  }

  /** Some descriptor but `i`, up to `last`, refers to the same device and is locked. */
  predicate LockedElsewhere(p: Pool, i: int, last: int)
    requires Shaped(p) && IsFd(i) && last < MAX_FD
  {
    exists j :: 0 <= j <= last && j != i && p.fds[j].dev == p.fds[i].dev && p.fds[j].flags & EXCL != 0
  }

  /** Some descriptor but `i`, below `end`, refers to the same device. */
  predicate UsedElsewhere(p: Pool, i: int, end: int)
    requires Shaped(p) && IsFd(i) && end <= MAX_FD
  {
    exists j :: 0 <= j < end && j != i && p.fds[j].dev == p.fds[i].dev
  }

  // ---------------------------------------------------------------- the system calls

  /** A call's effect: the pool it leaves, what it returns, and errno if that is set. */
  datatype Effect = Effect(pool: Pool, rc: int, errno: Option<int>)

  /** What looking the name up found, the flags, and what the device's own open returns. */
  datatype OpenCall = OpenCall(found: Option<Dev>, flags: bv32, status: int)

  /** The caller's flags, without the bits that belong to the pool. */
  function Bare(flags: bv32): bv32 {
    flags & !FLAGS_MASK
  }

  /** Flags with the mark of a device. */
  function Marked(flags: bv32): bv32 {
    flags | DEV
  }

  /** The descriptor taken by open, with its flags before and after the lock test. */
  function Taken(p: Pool, k: nat, d: Dev, flags: bv32): (p': Pool)
    requires Shaped(p) && k < MAX_FD
    ensures Shaped(p')
  {
    var fd := Fd(Some(d), if d.Device? then Marked(Bare(flags)) else Bare(flags));
    WithFd(p, k, fd).(maxFd := if k > p.maxFd then k else p.maxFd)
  }

  /** `ALT_OPEN` */
  function Open(p: Pool, c: OpenCall): (e: Effect)
    requires Shaped(p)
    ensures Shaped(e.pool) && e.rc < MAX_FD
  {
    if c.found == None then Effect(p, -1, Some(ENODEV))
    else
      var d, k := c.found.value, FirstFree(p.fds, 0);
      if k == MAX_FD then Effect(p, -1, Some(EMFILE))
      else
        var p1 := Taken(p, k, d, c.flags);
        if d.Device? && LockedElsewhere(p1, k, p1.maxFd) then Effect(Release(p1, k), -1, Some(EACCES))
        else if c.status < 0 then Effect(Release(p1, k), -1, Some(-c.status))
        else Effect(p1, k, None)
  }

  /** `ALT_CLOSE`, with what the device's own close returns. */
  function Close(p: Pool, fd: int, status: int): (e: Effect)
    requires Shaped(p) && fd < MAX_FD
    ensures Shaped(e.pool)
  {
    if fd < 0 then Effect(p, -1, Some(EBADFD))
    else if status < 0 then Effect(Release(p, fd), -1, Some(-status))
    else Effect(Release(p, fd), 0, None)
  }

  datatype Request = Tiocexcl | Tiocnxcl | OtherRequest

  /** `alt_fd_lock` */
  function Lock(p: Pool, fd: nat): (e: Effect)
    requires Shaped(p) && IsFd(fd)
    ensures Shaped(e.pool) && e.errno == if e.rc < 0 then Some(-e.rc) else None
  {
    if UsedElsewhere(p, fd, p.maxFd) then Effect(p, -EACCES, Some(EACCES))
    else Effect(WithFd(p, fd, p.fds[fd].(flags := p.fds[fd].flags | EXCL)), 0, None)
  }

  /** `alt_fd_unlock` */
  function Unlock(p: Pool, fd: nat): (e: Effect)
    requires Shaped(p) && IsFd(fd)
    ensures Shaped(e.pool) && e.errno == if e.rc < 0 then Some(-e.rc) else None
  {
    Effect(WithFd(p, fd, p.fds[fd].(flags := p.fds[fd].flags & !EXCL)), 0, None)
  }

  /** `ALT_IOCTL`, with what the device's own ioctl returns (None if it has none). */
  function Ioctl(p: Pool, fd: int, req: Request, driver: Option<int>): (e: Effect)
    requires Shaped(p) && fd < MAX_FD
    ensures Shaped(e.pool) && e.errno == if e.rc < 0 then Some(-e.rc) else None
  {
    if fd < 0 then Effect(p, -EBADFD, Some(EBADFD))
    else if p.fds[fd].flags & DEV != 0 && req == Tiocexcl then Lock(p, fd)
    else if p.fds[fd].flags & DEV != 0 && req == Tiocnxcl then Unlock(p, fd)
    else
      var rc := if driver == None then -ENOTTY else driver.value;
      Effect(p, rc, if rc < 0 then Some(-rc) else None)
  }

  datatype Command = GetFlags | SetFlags(arg: bv32) | OtherCommand

  /** What F_SETFL leaves of the flags: only O_APPEND and O_NONBLOCK are the caller's. */
  function SetFlagsOf(flags: bv32, arg: bv32): bv32 {
    (flags & !FCNTL_MASK) | (arg & FCNTL_MASK)
  }

  /** `ALT_FCNTL`; what F_GETFL returns is `VisibleFlags`. */
  function Fcntl(p: Pool, fd: int, cmd: Command): (e: Effect)
    requires Shaped(p) && fd < MAX_FD
    ensures Shaped(e.pool)
  {
    if fd < 0 then Effect(p, -1, Some(EBADFD))
    else
      match cmd
      case GetFlags => Effect(p, VisibleFlags(p.fds[fd].flags), None)
      case SetFlags(arg) =>
        Effect(WithFd(p, fd, p.fds[fd].(flags := SetFlagsOf(p.fds[fd].flags, arg))), 0, None)
      case OtherCommand => Effect(p, -1, Some(EINVAL))
  }

  function VisibleFlags(flags: bv32): int {
    (flags & !FLAGS_MASK) as int
  }

  /** `alt_open_fd`: open, and move the new descriptor onto `target`. */
  function Redirect(p: Pool, target: nat, c: OpenCall): (p': Pool)
    requires Shaped(p) && target <= 2
    ensures Shaped(p')
  {
    var e := Open(p, c);
    if e.rc >= 0 then Release(WithFd(e.pool, target, e.pool.fds[e.rc]), e.rc) else e.pool
  }

  // ---------------------------------------------------------------- runs

  datatype Call =
    | DoOpen(c: OpenCall)
    | DoClose(fd: int, status: int)
    | DoIoctl(fd: int, req: Request, driver: Option<int>)
    | DoFcntl(fd: int, cmd: Command)
    | DoRedirect(target: nat, c: OpenCall)

  /** What the calls demand of their callers: a number below MAX_FD, and for close and
      ioctl one that is open, for they follow its device pointer. */
  predicate Callable(p: Pool, a: Call)
    requires Shaped(p)
  {
    match a
    case DoOpen(_) => true
    case DoClose(fd, _) => fd < MAX_FD && (fd >= 0 ==> p.fds[fd].dev != None)
    case DoIoctl(fd, _, _) => fd < MAX_FD && (fd >= 0 ==> p.fds[fd].dev != None)
    case DoFcntl(fd, _) => fd < MAX_FD
    case DoRedirect(target, _) => target <= 2
  }

  function Apply(p: Pool, a: Call): (p': Pool)
    requires Shaped(p) && Callable(p, a)
    ensures Shaped(p')
  {
    match a
    case DoOpen(c) => Open(p, c).pool
    case DoClose(fd, status) => Close(p, fd, status).pool
    case DoIoctl(fd, req, driver) => Ioctl(p, fd, req, driver).pool
    case DoFcntl(fd, cmd) => Fcntl(p, fd, cmd).pool
    case DoRedirect(target, c) => Redirect(p, target, c)
  }

  predicate CanRun(p: Pool, calls: seq<Call>)
    requires Shaped(p)
    decreases |calls|
  {
    calls == [] || (Callable(p, calls[0]) && CanRun(Apply(p, calls[0]), calls[1..]))
  }

  function Run(p: Pool, calls: seq<Call>): (p': Pool)
    requires Shaped(p) && CanRun(p, calls)
    ensures Shaped(p')
    decreases |calls|
  {
    if calls == [] then p else Run(Apply(p, calls[0]), calls[1..])
  }
}
