/** Exclusive locks, the high-water mark and rollback, over every run of system calls. */
module FdTheorems {
  import opened Words
  import opened FdTable

  /** What the masks do to the two bits that belong to the pool. */
  lemma Masks(f: bv32, a: bv32)
    ensures (f & !FLAGS_MASK) & EXCL == 0 && (f & !FLAGS_MASK) & DEV == 0 && (f & !FLAGS_MASK) & FLAGS_MASK == 0
    ensures ((f & !FLAGS_MASK) | DEV) & EXCL == 0 && ((f & !FLAGS_MASK) | DEV) & DEV != 0
    ensures (f | EXCL) & DEV == f & DEV && (f | EXCL) & EXCL != 0
    ensures (f & !EXCL) & DEV == f & DEV && (f & !EXCL) & EXCL == 0
    ensures SetFlagsOf(f, a) & EXCL == f & EXCL && SetFlagsOf(f, a) & DEV == f & DEV
    ensures f & FLAGS_MASK == 0 <==> f & EXCL == 0 && f & DEV == 0
  {
  }

  predicate IsExcl(fd: Fd) {
    fd.flags & EXCL != 0
  }

  predicate IsDev(fd: Fd) {
    fd.flags & DEV != 0
  }

  /** A descriptor on its own: only a device descriptor is marked as one, and only one so
      marked is ever locked. */
  predicate FdOk(fd: Fd) {
    && (IsDev(fd) ==> fd.dev.Some? && fd.dev.value.Device?)
    && (IsExcl(fd) ==> IsDev(fd))
  }

  /** Every descriptor above 2 that is allocated is at or below the high-water mark, and
      one on a device is marked as such. */
  predicate Bounded(p: Pool)
    requires Shaped(p)
  {
    && (p.maxFd == -1 || p.maxFd >= 3)
    && (forall i | 3 <= i < MAX_FD :: i > p.maxFd ==> p.fds[i].dev == None)
    && (forall i | 3 <= i < MAX_FD :: p.fds[i].dev.Some? && p.fds[i].dev.value.Device? ==> IsDev(p.fds[i]))
    && (forall i | 0 <= i < 3 :: p.fds[i].dev.Some? && (p.maxFd == -1 ==> !IsDev(p.fds[i])))
  }

  /** No device has two lock holders, and a holder at the high-water mark, the one
      descriptor the lock test does not look at, is alone on its device. */
  predicate OneHolder(p: Pool)
    requires Shaped(p)
  {
    && (forall i, j | 0 <= i < j < MAX_FD :: IsExcl(p.fds[i]) && IsExcl(p.fds[j]) ==> p.fds[i].dev != p.fds[j].dev)
    && (p.maxFd >= 0 && IsExcl(p.fds[p.maxFd]) ==>
          forall j | 0 <= j < MAX_FD && j != p.maxFd :: p.fds[j].dev != p.fds[p.maxFd].dev)
  }

  predicate Inv(p: Pool) {
    Shaped(p) && (forall i | 0 <= i < MAX_FD :: FdOk(p.fds[i])) && Bounded(p) && OneHolder(p)
  }

  lemma BootHolds()
    ensures Inv(Boot())
  {
    forall i | 0 <= i < MAX_FD ensures Boot().fds[i].flags == 0 {}
  }

  // ---------------------------------------------------------------- each call keeps it

  lemma ReleaseKeeps(p: Pool, i: int)
    requires Inv(p) && i < MAX_FD
    ensures Inv(Release(p, i))
  {
    var free := Fd(None, 0);
    assert FdOk(free) && !IsExcl(free);
  }

  /** A new descriptor has the mark of its kind and no lock, whatever flags were asked for. */
  lemma TakenIsPlain(p: Pool, k: nat, d: Dev, flags: bv32)
    requires Shaped(p) && k < MAX_FD
    ensures var fd := Taken(p, k, d, flags).fds[k];
            FdOk(fd) && !IsExcl(fd) && (d.Device? <==> IsDev(fd)) && fd.dev == Some(d)
  {
    hide Bare, Marked, IsExcl, IsDev;
    var fd := Taken(p, k, d, flags).fds[k];
    if d.Device? {
      assert fd == Fd(Some(d), Marked(Bare(flags)));
      MarkedIsPlain(d, flags);
    } else {
      assert fd == Fd(Some(d), Bare(flags));
      BareIsPlain(d, flags);
    }
  }

  lemma BareIsPlain(d: Dev, flags: bv32)
    ensures !IsExcl(Fd(Some(d), Bare(flags))) && !IsDev(Fd(Some(d), Bare(flags)))
  {
  }

  lemma MarkedIsPlain(d: Dev, flags: bv32)
    ensures !IsExcl(Fd(Some(d), Marked(Bare(flags)))) && IsDev(Fd(Some(d), Marked(Bare(flags))))
  {
  }

  /** If the lock test passes, nobody in the whole table holds the device: the scan that
      stops at the high-water mark misses nothing. */
  lemma ShortScanSeesAll(p: Pool, k: nat, d: Dev, flags: bv32)
    requires Inv(p) && k == FirstFree(p.fds, 0) < MAX_FD
    ensures var p1 := Taken(p, k, d, flags);
            && 3 <= p1.maxFd && k <= p1.maxFd
            && (LockedElsewhere(p1, k, p1.maxFd) <==> Locked(p, d))
  {
    TakenIsPlain(p, k, d, flags);
    var p1 := Taken(p, k, d, flags);
    assert k >= 3;
    if LockedElsewhere(p1, k, p1.maxFd) {
      var j :| 0 <= j <= p1.maxFd && j != k && p1.fds[j].dev == p1.fds[k].dev && p1.fds[j].flags & EXCL != 0;
      assert Holds(p, j, d);
    }
    if Locked(p, d) {
      var j :| Holds(p, j, d);
      assert IsExcl(p.fds[j]) && p1.fds[j] == p.fds[j] && j <= p1.maxFd;
    }
  }

  lemma OpenKeeps(p: Pool, c: OpenCall)
    requires Inv(p)
    ensures Inv(Open(p, c).pool)
  {
    if c.found.Some? && FirstFree(p.fds, 0) < MAX_FD {
      var d, k := c.found.value, FirstFree(p.fds, 0);
      var p1 := Taken(p, k, d, c.flags);
      TakenIsPlain(p, k, d, c.flags);
      ShortScanSeesAll(p, k, d, c.flags);
      if (d.Device? && LockedElsewhere(p1, k, p1.maxFd)) || c.status < 0 {
        UndoneKeeps(p, k, d, c.flags);
      } else {
        GrantedKeeps(p, k, d, c.flags);
      }
    }
  }

  lemma UndoneKeeps(p: Pool, k: nat, d: Dev, flags: bv32)
    requires Inv(p) && k == FirstFree(p.fds, 0) < MAX_FD
    ensures Inv(Release(Taken(p, k, d, flags), k))
  {
    var p2 := Release(Taken(p, k, d, flags), k);
    assert forall i | 0 <= i < MAX_FD && i != k :: p2.fds[i] == p.fds[i];
    assert p2.fds[k] == Fd(None, 0) && !IsExcl(p2.fds[k]) && !IsDev(p2.fds[k]);
    assert p2.maxFd == p.maxFd || p2.maxFd == k;
  }

  lemma GrantedKeeps(p: Pool, k: nat, d: Dev, flags: bv32)
    requires Inv(p) && k == FirstFree(p.fds, 0) < MAX_FD
    requires d.Device? ==> !LockedElsewhere(Taken(p, k, d, flags), k, Taken(p, k, d, flags).maxFd)
    ensures Inv(Taken(p, k, d, flags))
  {
    var p1 := Taken(p, k, d, flags);
    TakenIsPlain(p, k, d, flags);
    ShortScanSeesAll(p, k, d, flags);
    assert forall i | 0 <= i < MAX_FD && i != k :: p1.fds[i] == p.fds[i];
    if p1.maxFd >= 0 && IsExcl(p1.fds[p1.maxFd]) {
      assert p1.maxFd == p.maxFd && Holds(p, p.maxFd, p.fds[p.maxFd].dev.value);
      assert p1.fds[k].dev != p1.fds[p1.maxFd].dev;
    }
  }

  /** A call that changes one descriptor's flags only, and not its marks. */
  lemma FlagsKeep(p: Pool, i: int, flags: bv32)
    requires Inv(p) && IsFd(i) && flags & DEV == p.fds[i].flags & DEV
    requires flags & EXCL != 0 ==> p.fds[i].flags & EXCL != 0
    ensures Inv(WithFd(p, i, p.fds[i].(flags := flags)))
  {
    var p' := WithFd(p, i, p.fds[i].(flags := flags));
    assert forall j | 0 <= j < MAX_FD :: p'.fds[j].dev == p.fds[j].dev;
    assert forall j | 0 <= j < MAX_FD :: IsExcl(p'.fds[j]) ==> IsExcl(p.fds[j]);
    assert forall j | 0 <= j < MAX_FD :: IsDev(p'.fds[j]) == IsDev(p.fds[j]);
  }

  lemma LockKeeps(p: Pool, i: int)
    requires Inv(p) && IsFd(i) && IsDev(p.fds[i]) && !UsedElsewhere(p, i, p.maxFd)
    ensures Inv(WithFd(p, i, p.fds[i].(flags := p.fds[i].flags | EXCL)))
  {
    var p' := WithFd(p, i, p.fds[i].(flags := p.fds[i].flags | EXCL));
    Masks(p.fds[i].flags, 0);
    assert p.maxFd >= 3;
    forall j | 0 <= j < MAX_FD && j != i && p.fds[j].dev == p.fds[i].dev ensures !IsExcl(p.fds[j]) && j == p.maxFd {
      if j < p.maxFd { assert false; }
    }
    assert forall j | 0 <= j < MAX_FD && j != i :: p'.fds[j] == p.fds[j];
  }

  lemma RedirectKeeps(p: Pool, target: nat, c: OpenCall)
    requires Inv(p) && target <= 2
    ensures Inv(Redirect(p, target, c))
  {
    OpenKeeps(p, c);
    var e := Open(p, c);
    if e.rc >= 0 {
      TakenIsPlain(p, e.rc, c.found.value, c.flags);
      ShortScanSeesAll(p, e.rc, c.found.value, c.flags);
      var moved := e.pool.fds[e.rc];
      var p1 := WithFd(e.pool, target, moved);
      MoveKeeps(e.pool, target, e.rc);
      ReleaseKeeps(p1, e.rc);
    }
  }

  lemma MoveKeeps(p: Pool, target: nat, from: nat)
    requires Inv(p) && target <= 2 && from < MAX_FD && p.maxFd >= 3
    requires p.fds[from].dev.Some? && !IsExcl(p.fds[from])
    ensures Inv(WithFd(p, target, p.fds[from]))
  {
    var p1 := WithFd(p, target, p.fds[from]);
    assert forall j | 0 <= j < MAX_FD && j != target :: p1.fds[j] == p.fds[j];
    if IsExcl(p1.fds[p.maxFd]) {
      assert p1.fds[target].dev == p.fds[from].dev != p.fds[p.maxFd].dev;
    }
  }

  lemma IoctlKeeps(p: Pool, fd: int, req: Request, driver: Option<int>)
    requires Shaped(p) && Inv(p) && fd < MAX_FD
    ensures Inv(Ioctl(p, fd, req, driver).pool)
  {
    hide Inv, UsedElsewhere;
    if fd >= 0 {
      if IsDev(p.fds[fd]) && req == Tiocexcl {
        if !UsedElsewhere(p, fd, p.maxFd) { LockKeeps(p, fd); }
      } else if IsDev(p.fds[fd]) && req == Tiocnxcl {
        Masks(p.fds[fd].flags, 0);
        FlagsKeep(p, fd, p.fds[fd].flags & !EXCL);
      }
    }
  }

  lemma FcntlKeeps(p: Pool, fd: int, cmd: Command)
    requires Inv(p) && fd < MAX_FD
    ensures Inv(Fcntl(p, fd, cmd).pool)
  {
    if fd >= 0 && cmd.SetFlags? {
      Masks(p.fds[fd].flags, cmd.arg);
      FlagsKeep(p, fd, SetFlagsOf(p.fds[fd].flags, cmd.arg));
    }
  }

  lemma ApplyKeeps(p: Pool, a: Call)
    requires Inv(p) && Callable(p, a)
    ensures Inv(Apply(p, a))
  {
    match a
    case DoOpen(c) => OpenKeeps(p, c);
    case DoClose(fd, _) => ReleaseKeeps(p, fd);
    case DoIoctl(fd, req, driver) => IoctlKeeps(p, fd, req, driver);
    case DoFcntl(fd, cmd) => FcntlKeeps(p, fd, cmd);
    case DoRedirect(target, c) => RedirectKeeps(p, target, c);
  }

  lemma {:induction false} RunKeeps(p: Pool, calls: seq<Call>)
    requires Inv(p) && CanRun(p, calls)
    ensures Inv(Run(p, calls))
    decreases |calls|
  {
    if calls != [] {
      ApplyKeeps(p, calls[0]);
      RunKeeps(Apply(p, calls[0]), calls[1..]);
    }
  }

  // ---------------------------------------------------------------- exclusive access

  /** Over every run from start-up: each device has at most one lock holder, a lock is
      only ever on a device, and the mark bounds every allocated descriptor. */
  lemma AtMostOneHolder(calls: seq<Call>, i: int, j: int, d: Dev)
    requires CanRun(Boot(), calls)
    requires Holds(Run(Boot(), calls), i, d) && Holds(Run(Boot(), calls), j, d)
    ensures i == j && d.Device?
  {
    BootHolds();
    RunKeeps(Boot(), calls);
    var p := Run(Boot(), calls);
    assert IsExcl(p.fds[i]) && IsExcl(p.fds[j]) && FdOk(p.fds[i]);
  }

  lemma OnlyHolder(p: Pool, i: int, j: int, d: Dev)
    requires Inv(p) && Holds(p, i, d) && Holds(p, j, d)
    ensures i == j
  {
    assert IsExcl(p.fds[i]) && IsExcl(p.fds[j]);
  }

  /** While a device is locked no open of it succeeds. */
  lemma NoOpenWhileLocked(p: Pool, c: OpenCall)
    requires Inv(p) && c.found.Some? && Locked(p, c.found.value)
    ensures Open(p, c).rc == -1
    ensures Open(p, c).errno == Some(if FirstFree(p.fds, 0) == MAX_FD then EMFILE else EACCES)
  {
    var i :| Holds(p, i, c.found.value);
    assert FdOk(p.fds[i]) && IsExcl(p.fds[i]);
    if FirstFree(p.fds, 0) < MAX_FD {
      ShortScanSeesAll(p, FirstFree(p.fds, 0), c.found.value, c.flags);
    }
  }

  lemma OpenAddsNone(p: Pool, c: OpenCall, d: Dev, i: int)
    requires Inv(p) && Locked(p, d) && On(Open(p, c).pool, i, d)
    ensures On(p, i, d)
  {
    hide Locked, LockedElsewhere;
    if c.found == Some(d) { NoOpenWhileLocked(p, c); }
  }

  lemma IoctlMovesNone(p: Pool, fd: int, req: Request, driver: Option<int>, i: int)
    requires Shaped(p) && fd < MAX_FD && IsFd(i)
    ensures Ioctl(p, fd, req, driver).pool.fds[i].dev == p.fds[i].dev
  {
    hide UsedElsewhere;
  }

  lemma RedirectAddsNone(p: Pool, target: nat, c: OpenCall, d: Dev, i: int)
    requires Shaped(p) && Inv(p) && target <= 2 && Locked(p, d) && On(Redirect(p, target, c), i, d)
    ensures On(p, i, d)
  {
    hide Inv, Locked, Open;
    var e := Open(p, c);
    if e.rc >= 0 {
      OpenAddsNone(p, c, d, if i == target then e.rc else i);
      if i == target { OpenTakesTheLowest(p, c); }
    } else {
      OpenAddsNone(p, c, d, i);
    }
  }

  /** So no call whatever adds a descriptor to a locked device. */
  lemma NoneJoinsLocked(p: Pool, a: Call, d: Dev, i: int)
    requires Shaped(p) && Inv(p) && Callable(p, a) && Locked(p, d) && On(Apply(p, a), i, d)
    ensures On(p, i, d)
  {
    hide Inv, Locked, Open, Redirect, Ioctl, Fcntl;
    match a
    case DoOpen(c) => OpenAddsNone(p, c, d, i);
    case DoClose(_, _) =>
    case DoIoctl(fd, req, driver) => IoctlMovesNone(p, fd, req, driver, i);
    case DoFcntl(fd, cmd) => FcntlSparesTheLock(p, fd, cmd);
    case DoRedirect(target, c) => RedirectAddsNone(p, target, c, d, i);
  }

  /** `d` is locked before every call of the run. */
  ghost predicate LockedThroughout(p: Pool, calls: seq<Call>, d: Dev)
    requires Shaped(p) && CanRun(p, calls)
    decreases |calls|
  {
    calls != [] ==> Locked(p, d) && LockedThroughout(Apply(p, calls[0]), calls[1..], d)
  }

  /** For as long as a device stays locked the descriptors on it never become more. */
  lemma {:induction false} SharersNeverGrow(p: Pool, calls: seq<Call>, d: Dev, i: int)
    requires Inv(p) && CanRun(p, calls) && LockedThroughout(p, calls, d)
    requires On(Run(p, calls), i, d)
    ensures On(p, i, d)
    decreases |calls|
  {
    if calls != [] {
      ApplyKeeps(p, calls[0]);
      SharersNeverGrow(Apply(p, calls[0]), calls[1..], d, i);
      NoneJoinsLocked(p, calls[0], d, i);
    }
  }

  /** A lock ends only when its holder is unlocked, when its holder is closed and is not
      one of the three standard descriptors, or when it is one of those and is redirected
      elsewhere. */
  lemma HowALockEnds(p: Pool, a: Call, i: int, d: Dev)
    requires Inv(p) && Callable(p, a) && Holds(p, i, d)
    ensures Holds(Apply(p, a), i, d) <==>
            !(|| (a.DoIoctl? && a.fd == i && a.req == Tiocnxcl)
              || (a.DoClose? && a.fd == i && i > 2)
              || (a.DoRedirect? && a.target == i && Open(p, a.c).rc >= 0))
  {
    match a
    case DoOpen(c) => Unmoved(p, c, i);
    case DoIoctl(fd, req, driver) => IoctlOnLocks(p, fd, req, driver, i, d);
    case DoFcntl(fd, cmd) => FcntlSparesTheLock(p, fd, cmd);
    case DoRedirect(target, c) => RedirectOnLocks(p, target, c, i, d);
    case _ =>
  }

  /** fcntl never touches a lock, a mark or where a descriptor refers to. */
  lemma FcntlSparesTheLock(p: Pool, fd: int, cmd: Command)
    requires Inv(p) && fd < MAX_FD
    ensures var p' := Fcntl(p, fd, cmd).pool;
            forall i | 0 <= i < MAX_FD ::
              && p'.fds[i].dev == p.fds[i].dev
              && IsExcl(p'.fds[i]) == IsExcl(p.fds[i]) && IsDev(p'.fds[i]) == IsDev(p.fds[i])
  {
    if fd >= 0 && cmd.SetFlags? {
      Masks(p.fds[fd].flags, cmd.arg);
    }
  }

  lemma IoctlOnLocks(p: Pool, fd: int, req: Request, driver: Option<int>, i: int, d: Dev)
    requires Inv(p) && fd < MAX_FD && Holds(p, i, d)
    ensures Holds(Ioctl(p, fd, req, driver).pool, i, d) <==> !(fd == i && req == Tiocnxcl)
  {
    HolderIsMarked(p, i, d);
    if fd == i {
      IoctlHere(p, fd, req, driver);
    } else {
      IoctlElsewhere(p, fd, req, driver, i);
    }
  }

  lemma IoctlElsewhere(p: Pool, fd: int, req: Request, driver: Option<int>, i: int)
    requires Shaped(p) && fd < MAX_FD && IsFd(i) && fd != i
    ensures Ioctl(p, fd, req, driver).pool.fds[i] == p.fds[i]
  {
    hide UsedElsewhere;
  }

  lemma HolderIsMarked(p: Pool, i: int, d: Dev)
    requires Inv(p) && Holds(p, i, d)
    ensures IsDev(p.fds[i])
  {
    assert FdOk(p.fds[i]);
  }

  lemma IoctlHere(p: Pool, fd: int, req: Request, driver: Option<int>)
    requires Shaped(p) && IsFd(fd) && IsDev(p.fds[fd]) && IsExcl(p.fds[fd])
    ensures var q := Ioctl(p, fd, req, driver).pool.fds[fd];
            q.dev == p.fds[fd].dev && (IsExcl(q) <==> req != Tiocnxcl)
  {
    hide IsExcl, Lock, Unlock;
    LockHere(p, fd);
    UnlockHere(p, fd);
  }

  lemma LockHere(p: Pool, fd: int)
    requires Shaped(p) && IsFd(fd) && IsExcl(p.fds[fd])
    ensures var q := Lock(p, fd).pool.fds[fd];
            q.dev == p.fds[fd].dev && IsExcl(q)
  {
    hide UsedElsewhere, IsExcl;
    LockSets(p.fds[fd]);
    if UsedElsewhere(p, fd, p.maxFd) {
      assert Lock(p, fd).pool == p;
    }
  }

  lemma UnlockHere(p: Pool, fd: int)
    requires Shaped(p) && IsFd(fd)
    ensures var q := Unlock(p, fd).pool.fds[fd];
            q.dev == p.fds[fd].dev && !IsExcl(q)
  {
    hide IsExcl;
    UnlockClears(p.fds[fd]);
  }

  lemma LockSets(fd: Fd)
    ensures IsExcl(fd.(flags := fd.flags | EXCL))
  {
  }

  lemma UnlockClears(fd: Fd)
    ensures !IsExcl(fd.(flags := fd.flags & !EXCL))
  {
  }

  lemma RedirectOnLocks(p: Pool, target: nat, c: OpenCall, i: int, d: Dev)
    requires Inv(p) && target <= 2 && Holds(p, i, d)
    ensures Holds(Redirect(p, target, c), i, d) <==> !(target == i && Open(p, c).rc >= 0)
  {
    Unmoved(p, c, i);
    if Open(p, c).rc >= 0 { TakenIsPlain(p, Open(p, c).rc, c.found.value, c.flags); }
  }

  /** Open leaves every allocated descriptor as it was. */
  lemma Unmoved(p: Pool, c: OpenCall, i: int)
    requires Inv(p) && IsFd(i) && p.fds[i].dev != None
    ensures Open(p, c).pool.fds[i] == p.fds[i] && Open(p, c).rc != i
  {
  }

  // ---------------------------------------------------------------- granting the lock

  /** No other descriptor in the whole table refers to the same device. */
  predicate AloneOnDevice(p: Pool, fd: int)
    requires Shaped(p) && IsFd(fd)
  {
    !UsedElsewhere(p, fd, MAX_FD)
  }

  /** The one sharer the lock test overlooks: the descriptor at the high-water mark. */
  predicate OnlyTheTopShares(p: Pool, fd: int)
    requires Shaped(p) && IsFd(fd)
  {
    p.maxFd >= 0 && p.maxFd != fd && p.fds[p.maxFd].dev == p.fds[fd].dev && !UsedElsewhere(p, fd, p.maxFd)
  }

  /** TIOCEXCL is meant to be granted exactly when no other descriptor refers to the
      device. It is, if and only if the only other one is not the one at the mark. */
  lemma GrantIsExactUnlessTheTopShares(p: Pool, fd: int, driver: Option<int>)
    requires Inv(p) && IsFd(fd) && IsDev(p.fds[fd])
    ensures (Ioctl(p, fd, Tiocexcl, driver).rc == 0 <==> AloneOnDevice(p, fd)) <==> !OnlyTheTopShares(p, fd)
  {
    assert FdOk(p.fds[fd]) && p.maxFd >= 3;
    if UsedElsewhere(p, fd, MAX_FD) && !UsedElsewhere(p, fd, p.maxFd) {
      var j :| 0 <= j < MAX_FD && j != fd && p.fds[j].dev == p.fds[fd].dev;
      assert j == p.maxFd;
    }
    if OnlyTheTopShares(p, fd) {
      assert UsedElsewhere(p, fd, MAX_FD);
    }
  }

  /** It happens: open a device twice and lock the first descriptor. */
  lemma ALockCanBeShared()
    ensures var d := Device(1);
            var open := DoOpen(OpenCall(Some(d), 0, 0));
            var calls := [open, open, DoIoctl(3, Tiocexcl, None)];
            && CanRun(Boot(), calls)
            && Holds(Run(Boot(), calls), 3, d) && On(Run(Boot(), calls), 4, d)
  {
    var d := Device(1);
    var c := OpenCall(Some(d), 0, 0);
    var p0 := Boot();
    FirstFreeIs(p0.fds, 3);
    var p1 := Apply(p0, DoOpen(c));
    FirstFreeIs(p1.fds, 4);
    var p2 := Apply(p1, DoOpen(c));
    var lock := DoIoctl(3, Tiocexcl, None);
    var p3 := Apply(p2, lock);
    assert p1 == Taken(p0, 3, d, 0) && p2 == Taken(p1, 4, d, 0);
    Masks(0, 0);
    Masks(p2.fds[3].flags, 0);
    Three(p0, DoOpen(c), DoOpen(c), lock);
  }

  lemma FirstFreeIs(fds: seq<Fd>, k: nat)
    requires k < |fds| && fds[k].dev == None && forall j | 0 <= j < k :: fds[j].dev != None
    ensures FirstFree(fds, 0) == k
  {
    if FirstFree(fds, 0) < k { assert false; }
  }

  /** Closing a lock holder releases the lock if and only if it is not one of the three
      standard descriptors, which close leaves allocated and locked. */
  lemma CloseReleasesTheLockExactlyWhen(p: Pool, fd: int, status: int, d: Dev)
    requires Inv(p) && Holds(p, fd, d)
    ensures !Locked(Close(p, fd, status).pool, d) <==> fd > 2
  {
    var p' := Close(p, fd, status).pool;
    assert IsExcl(p.fds[fd]);
    if fd <= 2 {
      assert Holds(p', fd, d);
    } else if Locked(p', d) {
      var j :| Holds(p', j, d);
      assert p'.fds[j] == p.fds[j] && j != fd;
      OnlyHolder(p, fd, j, d);
    }
  }

  /** It happens: redirect standard output to a device, lock it, and close it. */
  lemma ACloseCanKeepTheLock()
    ensures var d := Device(1);
            var calls := [DoRedirect(1, OpenCall(Some(d), 0, 0)), DoIoctl(1, Tiocexcl, None), DoClose(1, 0)];
            && CanRun(Boot(), calls)
            && Holds(Run(Boot(), calls), 1, d) && Locked(Run(Boot(), calls), d)
  {
    var d := Device(1);
    var c := OpenCall(Some(d), 0, 0);
    var redirect, lock, close := DoRedirect(1, c), DoIoctl(1, Tiocexcl, None), DoClose(1, 0);
    var p0 := Boot();
    BootHolds();
    FirstFreeIs(p0.fds, 3);
    RedirectMovesOnlyTheTarget(p0, 1, c);
    var p1 := Apply(p0, redirect);
    assert Taken(p0, 3, d, 0).fds[3] == Fd(Some(d), DEV) by { Masks(0, 0); }
    assert p1.fds[1] == Fd(Some(d), DEV) && p1.fds[0].dev != Some(d) && p1.fds[2].dev != Some(d);
    Masks(DEV, 0);
    var p2 := Apply(p1, lock);
    assert p2.fds[1] == Fd(Some(d), DEV | EXCL);
    Three(p0, redirect, lock, close);
    assert Holds(p2, 1, d);
  }

  lemma Three(p: Pool, a: Call, b: Call, c: Call)
    requires Shaped(p) && Callable(p, a) && Callable(Apply(p, a), b) && Callable(Apply(Apply(p, a), b), c)
    ensures CanRun(p, [a, b, c]) && Run(p, [a, b, c]) == Apply(Apply(Apply(p, a), b), c)
  {
    var p1 := Apply(p, a);
    var p2 := Apply(p1, b);
    RunFirst(p2, c, []);
    RunFirst(p1, b, [c]);
    RunFirst(p, a, [b, c]);
    assert [b] + [c] == [b, c] && [a] + [b, c] == [a, b, c] && [c] + [] == [c];
  }

  lemma RunFirst(p: Pool, a: Call, rest: seq<Call>)
    requires Shaped(p) && Callable(p, a) && CanRun(Apply(p, a), rest)
    ensures CanRun(p, [a] + rest) && Run(p, [a] + rest) == Run(Apply(p, a), rest)
  {
    hide Apply, Callable;
    assert ([a] + rest)[1..] == rest;
  }

  // ---------------------------------------------------------------- open

  /** A successful open takes the lowest free descriptor for the device that was found,
      unlocked and marked, and changes no other. */
  lemma OpenTakesTheLowest(p: Pool, c: OpenCall)
    requires Inv(p) && Open(p, c).rc >= 0
    ensures var e := Open(p, c);
            && c.found.Some? && On(e.pool, e.rc, c.found.value)
            && p.fds[e.rc].dev == None && e.rc >= 3
            && (forall i | 0 <= i < e.rc :: p.fds[i].dev != None)
            && (forall i | 0 <= i < MAX_FD && i != e.rc :: e.pool.fds[i] == p.fds[i])
            && !IsExcl(e.pool.fds[e.rc]) && (IsDev(e.pool.fds[e.rc]) <==> c.found.value.Device?)
            && e.pool.maxFd == (if e.rc > p.maxFd then e.rc else p.maxFd)
  {
    TakenIsPlain(p, Open(p, c).rc, c.found.value, c.flags);
  }

  /** Open succeeds exactly when something was found, there is a free descriptor, a device
      is not locked, and the device's own open did not fail. */
  lemma OpenSucceedsExactlyWhen(p: Pool, c: OpenCall)
    requires Inv(p)
    ensures Open(p, c).rc >= 0 <==>
            && c.found.Some? && (exists k :: 0 <= k < MAX_FD && p.fds[k].dev == None)
            && !(c.found.value.Device? && Locked(p, c.found.value)) && c.status >= 0
  {
    var k := FirstFree(p.fds, 0);
    if c.found.Some? && k < MAX_FD {
      ShortScanSeesAll(p, k, c.found.value, c.flags);
      assert p.fds[k].dev == None;
    }
  }

  /** A failed open puts everything back, the device and flags of every descriptor, if and
      only if it never took a descriptor or the one it took had clear flags: fcntl can set
      flags on a free descriptor, and giving it back clears them. */
  lemma RollbackIsExactWhen(p: Pool, c: OpenCall)
    requires Inv(p) && Open(p, c).rc < 0
    ensures var k := FirstFree(p.fds, 0);
            Open(p, c).pool.fds == p.fds <==> c.found == None || k == MAX_FD || p.fds[k].flags == 0
  {
    hide LockedElsewhere, OneHolder;
    var k := FirstFree(p.fds, 0);
    if c.found.Some? && k < MAX_FD {
      var p' := Open(p, c).pool;
      assert k >= 3 && p'.fds[k] == Fd(None, 0) && p.fds[k].dev == None;
      assert forall i | 0 <= i < MAX_FD && i != k :: p'.fds[i] == p.fds[i];
      if p.fds[k].flags == 0 {
        assert p'.fds[k] == p.fds[k];
        assert p'.fds == p.fds;
      }
    }
  }

  /** It happens: fcntl sets a flag on the free descriptor 3, and a failing open clears it. */
  lemma AFailedOpenCanChangeFlags()
    ensures var fcntl := DoFcntl(3, SetFlags(0x8));
            var c := OpenCall(Some(Device(1)), 0, -1);
            && Callable(Boot(), fcntl) && Inv(Apply(Boot(), fcntl))
            && var p := Apply(Boot(), fcntl);
            && Open(p, c).rc < 0 && Open(p, c).pool.fds[3] != p.fds[3]
  {
    BootHolds();
    FcntlKeeps(Boot(), 3, SetFlags(0x8));
    var p := Apply(Boot(), DoFcntl(3, SetFlags(0x8)));
    assert SetFlagsOf(0, 0x8) == 0x8;
    FirstFreeIs(p.fds, 3);
  }

  /** Opening and then closing a descriptor leaves the pool as it was, whatever the device's
      close returns, if and only if the descriptor had clear flags and was not above the
      high-water mark, which never comes down. */
  lemma CloseUndoesOpenExactlyWhen(p: Pool, c: OpenCall, status: int)
    requires Inv(p) && Open(p, c).rc >= 0
    ensures var e := Open(p, c);
            var p' := Close(e.pool, e.rc, status).pool;
            && (p'.fds == p.fds <==> p.fds[e.rc].flags == 0)
            && (p'.maxFd == p.maxFd <==> e.rc <= p.maxFd)
            && p'.maxFd == (if e.rc > p.maxFd then e.rc else p.maxFd)
  {
    OpenTakesTheLowest(p, c);
    var e := Open(p, c);
    var p' := Close(e.pool, e.rc, status).pool;
    assert forall i | 0 <= i < MAX_FD && i != e.rc :: p'.fds[i] == p.fds[i];
    assert p'.fds[e.rc] == Fd(None, 0);
    if p.fds[e.rc].flags == 0 {
      assert p'.fds[e.rc] == p.fds[e.rc];
      assert p'.fds == p.fds;
    }
  }

  /** A redirection moves the standard descriptor onto the device exactly when open could
      have opened it; of the others it only clears, at most, the free descriptor that open
      tried. */
  lemma RedirectMovesOnlyTheTarget(p: Pool, target: nat, c: OpenCall)
    requires Inv(p) && target <= 2
    ensures var p', k := Redirect(p, target, c), FirstFree(p.fds, 0);
            && (forall i | 0 <= i < MAX_FD && i != target ::
                  p'.fds[i] == if c.found.Some? && i == k then Fd(None, 0) else p.fds[i])
            && (c.found.Some? && k < MAX_FD ==> k >= 3 && p.fds[k].dev == None)
            && (Open(p, c).rc < 0 ==> p'.fds[target] == p.fds[target])
            && (Open(p, c).rc >= 0 ==> On(p', target, c.found.value) && !IsExcl(p'.fds[target]))
  {
    hide LockedElsewhere, OneHolder;
    if Open(p, c).rc >= 0 {
      OpenTakesTheLowest(p, c);
    }
  }
}
