/** The system calls' own code over the mutable descriptor table, each proved to do to it
    what FdTable says. */
module FdPool {
  import opened Words
  import opened FdTable
  import opened FdResults

  /** `alt_32` compared with an `alt_u32`: the sign is lost. */
  function Unsigned(i: int): nat
    requires -1 <= i < 0x8000_0000
  {
    if i < 0 then i + 0x1_0000_0000 else i
  }

  class DescriptorPool {
    const fdList: array<Fd>
    var maxFd: int
    var errno: int

    function View(): Pool
      reads this, fdList
    {
      Pool(fdList[..], maxFd)
    }

    constructor ()
      ensures fresh(fdList) && View() == FdTable.Boot()
    {
      fdList := new Fd[MAX_FD](i => if i < 3 then Fd(Some(NULL_DEVICE), 0) else Fd(None, 0));
      maxFd, errno := -1, 0;
      new;
      assert fdList[..] == FdTable.Boot().fds;
    }

    /** `alt_get_fd`: the first free descriptor is made to refer to `d`, and the mark raised. */
    method GetFd(d: Dev) returns (rc: int)
      requires Shaped(View())
      modifies fdList, `maxFd
      ensures Shaped(View())
      ensures var k := FirstFree(old(View()).fds, 0);
              if k == MAX_FD then rc == -EMFILE && View() == old(View())
              else rc == k && fdList[..] == old(fdList[..])[k := Fd(Some(d), old(fdList[k].flags))]
                   && maxFd == if k > old(maxFd) then k else old(maxFd)
    {
      rc := -EMFILE;
      var i := 0;
      while i < MAX_FD
        invariant i <= MAX_FD && View() == old(View()) && rc == -EMFILE
        invariant FirstFree(old(View()).fds, 0) >= i
      {
        if fdList[i].dev == None {
          fdList[i] := Fd(Some(d), fdList[i].flags);
          if i > maxFd {
            maxFd := i;
          }
          return i;
        }
        i := i + 1;
      }
    }

    /** `alt_release_fd` */
    method ReleaseFd(fd: int)
      requires Shaped(View()) && fd < MAX_FD
      modifies fdList
      ensures View() == Release(old(View()), fd)
    {
      if fd > 2 {
        fdList[fd] := fdList[fd].(flags := 0);
        fdList[fd] := fdList[fd].(dev := None);
      }
    }

    /** `alt_file_locked`: marks the descriptor, then looks for a lock up to the mark. With
        the mark still at -1 the unsigned comparison would run off the table. */
    method FileLocked(fd: nat) returns (rc: int)
      requires Shaped(View()) && fd < MAX_FD && maxFd >= 0
      modifies fdList
      ensures maxFd == old(maxFd)
      ensures fdList[..] == old(fdList[..])[fd := old(fdList[fd]).(flags := Marked(old(fdList[fd].flags)))]
      ensures rc == if LockedElsewhere(View(), fd, maxFd) then -EACCES else 0
    {
      fdList[fd] := fdList[fd].(flags := Marked(fdList[fd].flags));
      var i := 0;
      while i <= Unsigned(maxFd)
        invariant i <= maxFd + 1
        invariant forall j | 0 <= j < i ::
                    !(fdList[j].dev == fdList[fd].dev && fdList[j].flags & EXCL != 0 && j != fd)
      {
        if fdList[i].dev == fdList[fd].dev && fdList[i].flags & EXCL != 0 && i != fd {
          return -EACCES;
        }
        i := i + 1;
      }
      rc := 0;
    }

    /** Take a descriptor for `d` and give it the caller's flags; test the lock of a device. */
    method TakeFd(d: Dev, flags: bv32) returns (index: int, status: int)
      requires Shaped(View())
      modifies fdList, `maxFd
      ensures Shaped(View())
      ensures var k := FirstFree(old(View()).fds, 0);
              if k == MAX_FD then index == status == -EMFILE && View() == old(View())
              else index == k && View() == Taken(old(View()), k, d, flags)
                   && status == if d.Device? && LockedElsewhere(View(), k, maxFd) then -EACCES else 0
    {
      hide LockedElsewhere, FirstFree, Bare, Marked;
      index := GetFd(d);
      status := index;
      if index >= 0 {
        fdList[index] := fdList[index].(flags := Bare(flags));
        status := 0;
        if d.Device? {
          status := FileLocked(index);
        }
        assert fdList[..] == Taken(old(View()), index, d, flags).fds;
      }
    }

    /** `ALT_OPEN` */
    method Open(c: OpenCall) returns (index: int)
      requires Shaped(View())
      modifies fdList, `maxFd, `errno
      ensures var e := FdTable.Open(old(View()), c);
              && View() == e.pool && index == e.rc
              && errno == (if e.errno.Some? then e.errno.value else old(errno))
      ensures index >= 0 ==> index < MAX_FD && Lower(fdList[index].flags) == Lower(c.flags)
    {
      hide Lower;
      if FdTable.Open(View(), c).rc >= 0 { OpenKeepsTheFlags(View(), c); }
      index := -1;
      var status := -ENODEV;
      if c.found != None {
        index, status := TakeFd(c.found.value, c.flags);
        if status >= 0 {
          status := c.status;
        }
      }
      if status < 0 {
        ReleaseFd(index);
        errno := -status;
        return -1;
      }
    }

    /** `alt_fd_lock` */
    method FdLock(fd: nat) returns (rc: int)
      requires Shaped(View()) && fd < MAX_FD
      modifies fdList
      ensures var e := Lock(old(View()), fd);
              View() == e.pool && rc == e.rc
    {
      var i := 0;
      while i < maxFd
        invariant 0 <= i && (i <= maxFd || i == 0) && View() == old(View())
        invariant forall j | 0 <= j < i :: !(j != fd && fdList[j].dev == fdList[fd].dev)
      {
        if i != fd && fdList[i].dev == fdList[fd].dev {
          return -EACCES;
        }
        i := i + 1;
      }
      rc := 0;
      fdList[fd] := fdList[fd].(flags := fdList[fd].flags | EXCL);
    }

    /** `alt_fd_unlock` */
    method FdUnlock(fd: nat) returns (rc: int)
      requires Shaped(View()) && fd < MAX_FD
      modifies fdList
      ensures var e := Unlock(old(View()), fd);
              View() == e.pool && rc == e.rc
    {
      fdList[fd] := fdList[fd].(flags := fdList[fd].flags & !EXCL);
      rc := 0;
    }

    /** Serve the request, the lock requests of devices here and the rest in the driver. */
    method Serve(fd: nat, req: Request, driver: Option<int>) returns (rc: int)
      requires Shaped(View()) && fd < MAX_FD && fdList[fd].dev != None
      modifies fdList
      ensures var e := FdTable.Ioctl(old(View()), fd, req, driver);
              View() == e.pool && rc == e.rc
    {
      var device := fdList[fd].flags & DEV != 0;
      if device && req == Tiocexcl {
        rc := FdLock(fd);
      } else if device && req == Tiocnxcl {
        rc := FdUnlock(fd);
      } else {
        rc := if driver == None then -ENOTTY else driver.value;
      }
    }

    /** `ALT_IOCTL` */
    method Ioctl(fd: int, req: Request, driver: Option<int>) returns (rc: int)
      requires Shaped(View()) && Callable(View(), DoIoctl(fd, req, driver))
      modifies fdList, `errno
      ensures var e := FdTable.Ioctl(old(View()), fd, req, driver);
              && View() == e.pool && rc == e.rc
              && errno == (if e.errno.Some? then e.errno.value else old(errno))
    {
      if fd >= 0 {
        rc := Serve(fd, req, driver);
      } else {
        rc := -EBADFD;
      }
      if rc < 0 {
        errno := -rc;
      }
    }

    /** `ALT_CLOSE` */
    method Close(fd: int, status: int) returns (rc: int)
      requires Shaped(View()) && Callable(View(), DoClose(fd, status))
      modifies fdList, `errno
      ensures var e := FdTable.Close(old(View()), fd, status);
              && View() == e.pool && rc == e.rc
              && errno == (if e.errno.Some? then e.errno.value else old(errno))
    {
      if fd >= 0 {
        ReleaseFd(fd);
        if status < 0 {
          errno := -status;
          return -1;
        }
        return 0;
      } else {
        errno := EBADFD;
        return -1;
      }
    }

    /** `ALT_FCNTL` */
    method Fcntl(fd: int, cmd: Command) returns (rc: int)
      requires Shaped(View()) && fd < MAX_FD
      modifies fdList, `errno
      ensures var e := FdTable.Fcntl(old(View()), fd, cmd);
              && View() == e.pool && rc == e.rc
              && errno == (if e.errno.Some? then e.errno.value else old(errno))
    {
      if fd >= 0 {
        match cmd
        case GetFlags =>
          return VisibleFlags(fdList[fd].flags);
        case SetFlags(arg) =>
          fdList[fd] := fdList[fd].(flags := fdList[fd].flags & !FCNTL_MASK);
          fdList[fd] := fdList[fd].(flags := fdList[fd].flags | (arg & FCNTL_MASK));
          assert fdList[..] == FdTable.Fcntl(old(View()), fd, cmd).pool.fds;
          return 0;
        case OtherCommand =>
          errno := EINVAL;
          return -1;
      }
      errno := EBADFD;
      return -1;
    }

    /** `alt_open_fd` */
    method OpenFd(target: nat, c: OpenCall)
      requires Shaped(View()) && target <= 2
      modifies fdList, `maxFd, `errno
      ensures View() == Redirect(old(View()), target, c)
    {
      var old' := Open(c);
      if old' >= 0 {
        fdList[target] := fdList[old'];
        ReleaseFd(old');
      }
    }

    /** `alt_io_redirect`: standard output, then input, then error. */
    method IoRedirect(stdout: OpenCall, stdin: OpenCall, stderr: OpenCall)
      requires Shaped(View())
      modifies fdList, `maxFd, `errno
      ensures View() == Redirect(Redirect(Redirect(old(View()), 1, stdout), 0, stdin), 2, stderr)
    {
      OpenFd(1, stdout);
      OpenFd(0, stdin);
      OpenFd(2, stderr);
    }
  }
}
