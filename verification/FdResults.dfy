/** What the callers of the system calls get back and what is left in the table, bit for bit. */
module FdResults {
  import opened Words
  import opened FdTable
  import opened FdTheorems

  /** Only descriptor `i` of the pool may have changed, and only in its flags. */
  predicate OnlyFlagsOf(p: Pool, p': Pool, i: nat)
    requires Shaped(p) && Shaped(p') && IsFd(i)
  {
    p'.maxFd == p.maxFd && p'.fds[i].dev == p.fds[i].dev && OnlyOne(p, p', i)
  }

  predicate OnlyOne(p: Pool, p': Pool, i: nat)
    requires Shaped(p) && Shaped(p')
  {
    forall j | 0 <= j < MAX_FD && j != i :: p'.fds[j] == p.fds[j]
  }

  /** All but the two top bits, which belong to the pool. */
  function Lower(flags: bv32): bv32 {
    flags & 0x3FFF_FFFF
  }

  /** The top bit is set, or clear, and the others are as they were. */
  predicate TopBitSet(flags: bv32, flags': bv32) {
    flags' & 0x8000_0000 != 0 && flags' & 0x7FFF_FFFF == flags & 0x7FFF_FFFF
  }

  predicate TopBitClear(flags: bv32, flags': bv32) {
    flags' & 0x8000_0000 == 0 && flags' & 0x7FFF_FFFF == flags & 0x7FFF_FFFF
  }

  // ---------------------------------------------------------------- open

  lemma BareKeeps(flags: bv32)
    ensures Lower(Bare(flags)) == Lower(flags)
  {
  }

  lemma MarkedKeeps(flags: bv32)
    ensures Lower(Marked(flags)) == Lower(flags)
  {
  }

  lemma TakenKeeps(p: Pool, k: nat, d: Dev, flags: bv32)
    requires Shaped(p) && k < MAX_FD
    ensures Lower(Taken(p, k, d, flags).fds[k].flags) == Lower(flags)
  {
    hide Bare, Marked, Lower;
    BareKeeps(flags);
    MarkedKeeps(Bare(flags));
  }

  lemma OpenGivesTaken(p: Pool, c: OpenCall)
    requires Shaped(p) && Open(p, c).rc >= 0
    ensures var e := Open(p, c); c.found.Some? && e.pool == Taken(p, e.rc, c.found.value, c.flags)
  {
    hide Taken, LockedElsewhere, Release;
  }

  /** A new descriptor has all of the caller's flags but the two top bits, and that is the
      number F_GETFL gives back for it. */
  lemma OpenKeepsTheFlags(p: Pool, c: OpenCall)
    requires Shaped(p) && Open(p, c).rc >= 0
    ensures var e := Open(p, c);
            && Lower(e.pool.fds[e.rc].flags) == Lower(c.flags)
            && Fcntl(e.pool, e.rc, GetFlags) == Effect(e.pool, Lower(c.flags) as int, None)
  {
    hide Open, Taken, Lower, Fcntl;
    var e := Open(p, c);
    OpenGivesTaken(p, c);
    TakenKeeps(p, e.rc, c.found.value, c.flags);
    GetFlagsTells(e.pool, e.rc);
  }

  /** So has a standard descriptor that was redirected. */
  lemma RedirectKeepsTheFlags(p: Pool, target: nat, c: OpenCall)
    requires Shaped(p) && Inv(p) && target <= 2 && Open(p, c).rc >= 0
    ensures Lower(Redirect(p, target, c).fds[target].flags) == Lower(c.flags)
    ensures IsDev(Redirect(p, target, c).fds[target]) <==> c.found.value.Device?
  {
    hide Inv, Open, IsDev, Lower, Fcntl;
    OpenTakesTheLowest(p, c);
    OpenKeepsTheFlags(p, c);
  }

  /** What a failing open reports, the first that applies: nothing of that name, no free
      descriptor, a locked device, or what the device's own open returned. */
  lemma OpenErrors(p: Pool, c: OpenCall)
    requires Shaped(p) && Inv(p) && Open(p, c).rc < 0
    ensures Open(p, c).rc == -1
    ensures Open(p, c).errno
            == Some(if c.found == None then 19
                    else if forall k | 0 <= k < MAX_FD :: p.fds[k].dev != None then 24
                    else if c.found.value.Device? && Locked(p, c.found.value) then 13
                    else -c.status)
  {
    hide LockedElsewhere, Locked, Inv;
    var k := FirstFree(p.fds, 0);
    if c.found.Some? && k < MAX_FD {
      ShortScanSeesAll(p, k, c.found.value, c.flags);
    }
  }

  // ---------------------------------------------------------------- fcntl

  lemma VisibleAre(flags: bv32)
    ensures VisibleFlags(flags) == Lower(flags) as int
  {
    assert flags & !FLAGS_MASK == flags & 0x3FFF_FFFF;
  }

  /** F_GETFL returns the flags without the two top bits and changes nothing. */
  lemma GetFlagsTells(p: Pool, fd: nat)
    requires Shaped(p) && IsFd(fd)
    ensures Fcntl(p, fd, GetFlags) == Effect(p, Lower(p.fds[fd].flags) as int, None)
  {
    hide VisibleFlags, Lower;
    VisibleAre(p.fds[fd].flags);
  }

  lemma SetFlagsOfIs(flags: bv32, arg: bv32)
    ensures SetFlagsOf(flags, arg) & 0x0000_4008 == arg & 0x0000_4008
    ensures SetFlagsOf(flags, arg) & 0xFFFF_BFF7 == flags & 0xFFFF_BFF7
  {
  }

  /** F_SETFL takes O_APPEND and O_NONBLOCK from the caller and leaves every other bit. */
  lemma SetFlagsIsExact(p: Pool, fd: nat, arg: bv32)
    requires Shaped(p) && IsFd(fd)
    ensures var e := Fcntl(p, fd, SetFlags(arg));
            && e.rc == 0 && e.errno == None && OnlyFlagsOf(p, e.pool, fd)
            && e.pool.fds[fd].flags & 0x0000_4008 == arg & 0x0000_4008
            && e.pool.fds[fd].flags & 0xFFFF_BFF7 == p.fds[fd].flags & 0xFFFF_BFF7
  {
    hide SetFlagsOf;
    SetFlagsOfIs(p.fds[fd].flags, arg);
  }

  /** Any other command, and any command on a bad descriptor, is refused. */
  lemma FcntlRefuses(p: Pool, fd: int, cmd: Command)
    requires Shaped(p) && fd < MAX_FD
    ensures fd < 0 ==> Fcntl(p, fd, cmd) == Effect(p, -1, Some(81))
    ensures fd >= 0 ==> (Fcntl(p, fd, cmd) == Effect(p, -1, Some(22)) <==> cmd == OtherCommand)
  {
    hide SetFlagsOf;
  }

  // ---------------------------------------------------------------- ioctl

  lemma LockBit(flags: bv32)
    ensures TopBitSet(flags, flags | EXCL)
  {
  }

  lemma UnlockBit(flags: bv32)
    ensures TopBitClear(flags, flags & !EXCL)
  {
  }

  lemma LockRequests(p: Pool, fd: nat, driver: Option<int>)
    requires Shaped(p) && IsFd(fd) && IsDev(p.fds[fd])
    ensures Ioctl(p, fd, Tiocexcl, driver) == Lock(p, fd) && Ioctl(p, fd, Tiocnxcl, driver) == Unlock(p, fd)
  {
    hide Lock, Unlock;
  }

  /** TIOCEXCL of a device either sets the top bit of its flags and nothing else, or is
      refused with EACCES and changes nothing. */
  lemma LockIsOneBit(p: Pool, fd: nat, driver: Option<int>)
    requires Shaped(p) && IsFd(fd) && IsDev(p.fds[fd])
    ensures var e := Ioctl(p, fd, Tiocexcl, driver);
            if e.rc != 0 then e == Effect(p, -13, Some(13))
            else e.errno == None && OnlyFlagsOf(p, e.pool, fd) && TopBitSet(p.fds[fd].flags, e.pool.fds[fd].flags)
  {
    hide UsedElsewhere, TopBitSet, Ioctl, IsDev;
    LockRequests(p, fd, driver);
    LockBit(p.fds[fd].flags);
  }

  /** TIOCNXCL of a device clears that bit and nothing else. */
  lemma UnlockIsOneBit(p: Pool, fd: nat, driver: Option<int>)
    requires Shaped(p) && IsFd(fd) && IsDev(p.fds[fd])
    ensures var e := Ioctl(p, fd, Tiocnxcl, driver);
            && e.rc == 0 && e.errno == None && OnlyFlagsOf(p, e.pool, fd)
            && TopBitClear(p.fds[fd].flags, e.pool.fds[fd].flags)
  {
    hide TopBitClear, Ioctl, IsDev;
    LockRequests(p, fd, driver);
    UnlockBit(p.fds[fd].flags);
  }

  /** Every other request goes to the driver: its result is the caller's, ENOTTY if it has no
      ioctl, and the table is not touched. A bad descriptor is refused. */
  lemma OthersGoToTheDriver(p: Pool, fd: int, req: Request, driver: Option<int>)
    requires Shaped(p) && fd < MAX_FD && (fd >= 0 ==> req == OtherRequest || !IsDev(p.fds[fd]))
    ensures var rc := if fd < 0 then -81 else if driver == None then -25 else driver.value;
            Ioctl(p, fd, req, driver) == Effect(p, rc, if rc < 0 then Some(-rc) else None)
  {
    hide UsedElsewhere, Lock, Unlock;
  }

  // ---------------------------------------------------------------- close

  /** Close frees the descriptor unless it is a standard one, whatever the device's close
      returns; a failure there is the caller's error all the same. */
  lemma CloseFrees(p: Pool, fd: int, status: int)
    requires Shaped(p) && fd < MAX_FD
    ensures fd < 0 ==> Close(p, fd, status) == Effect(p, -1, Some(81))
    ensures fd >= 0 ==> var e := Close(p, fd, status);
                        && (if status < 0 then e.rc == -1 && e.errno == Some(-status) else e.rc == 0 && e.errno == None)
                        && (if fd <= 2 then e.pool == p
                            else e.pool.fds[fd] == Fd(None, 0) && OnlyOne(p, e.pool, fd) && e.pool.maxFd == p.maxFd)
  {
  }
}
