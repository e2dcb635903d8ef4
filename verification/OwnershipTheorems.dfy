/** At most one daemon owns a state root or a socket, whatever starts, fails or crashes when. */
module OwnershipTheorems {
  import opened Texts
  import opened Steps
  import opened Ownership

  /** A step of `d` that is sound for `d` itself and for the others. */
  ghost predicate Sound(s: System, t: System, d: nat)
    requires d in s.daemons
  {
    && KeepsDaemons(s, t, d) && KeepsLocks(s, t, d) && KeepsFiles(s, t, d)
    && LocksOf(t, d) && SocketOf(t, d) && LockFiles(t)
  }

  lemma MoveIsSound(s: System, d: nat, pc: Pc)
    requires Inv(s) && d in s.daemons && HoldsSocket(s.daemons[d].pc) && HoldsSocket(pc)
    requires SocketOf(Move(s, d, pc), d)
    ensures Sound(s, Move(s, d, pc), d)
  {
    assert LocksOf(s, d);
    assert forall l, e :: Locked(Move(s, d, pc), l, e) <==> Locked(s, l, e);
  }

  lemma LetGoFreesOwn(s: System, d: nat)
    ensures forall lock :: lock in Unlock(s.locks, d) <==> lock in s.locks && s.locks[lock] != d
    ensures forall lock :: lock in Unlock(s.locks, d) ==> Unlock(s.locks, d)[lock] == s.locks[lock]
  {
  }

  /** With its locks let go. */
  lemma LetGoIsSound(s: System, d: nat, pc: Pc)
    requires Inv(s) && d in s.daemons && (pc.Idle? || pc.Dead?)
    ensures Sound(s, LetGo(s, d, pc), d)
  {
    var t := LetGo(s, d, pc);
    LetGoFreesOwn(s, d);
  }

  lemma ReleaseIsSound(s: System, d: nat)
    requires Inv(s) && d in s.daemons
    ensures Sound(s, ReleaseEndpoint(s, d), d)
  {
    var x := s.daemons[d];
    assert SocketOf(s, d) && LocksOf(s, d);
    if Bound(x.pc) {
      var t := ReleaseEndpoint(s, d);
      LetGoFreesOwn(s, d);
    } else {
      LetGoIsSound(s, d, Idle);
    }
  }

  /** Creating a lock file disturbs nothing. */
  lemma TouchKeepsInv(s: System, lock: Text)
    requires Inv(s) && (lock in s.files ==> s.files[lock].Plain?)
    ensures Inv(s.(files := s.files[lock := Plain]))
  {
    var t := s.(files := s.files[lock := Plain]);
    forall e | e in t.daemons ensures LocksOf(t, e) && SocketOf(t, e) {
      assert LocksOf(s, e) && SocketOf(s, e);
      assert forall l :: Locked(t, l, e) <==> Locked(s, l, e);
    }
  }

  lemma SoundThroughTouch(s: System, u: System, t: System, d: nat)
    requires d in s.daemons && u == s.(files := u.files) && Sound(u, t, d)
    requires forall path :: path in s.files ==> path in u.files && u.files[path] == s.files[path]
    ensures Sound(s, t, d)
  {
    assert forall lock, e :: Locked(u, lock, e) <==> Locked(s, lock, e);
  }

  lemma GrantIsSound(s: System, d: nat, lock: Text, pc: Pc)
    requires Inv(s) && d in s.daemons && lock !in s.locks && lock in s.files && s.files[lock].Plain?
    requires (s.daemons[d].pc.Idle? && pc.HasRootLock? && lock == RootLock(s.daemons[d].root))
          || (s.daemons[d].pc.HasRootLock? && pc.HasBothLocks? && lock == SocketLock(s.daemons[d].socket))
    ensures Sound(s, Move(s, d, pc).(locks := s.locks[lock := d]), d)
  {
    var x, t := s.daemons[d], Move(s, d, pc).(locks := s.locks[lock := d]);
    assert LocksOf(s, d) && SocketOf(s, d);
    assert forall l, e :: Locked(t, l, e) <==> if l == lock then e == d else Locked(s, l, e);
    if pc.HasBothLocks? {
      assert Holds(x, RootLock(x.root)) && Locked(s, RootLock(x.root), d);
    }
  }

  lemma TryLockIsSound(s: System, d: nat, lock: Text, pc: Pc)
    requires Inv(s) && d in s.daemons
    requires (s.daemons[d].pc.Idle? && pc.HasRootLock? && lock == RootLock(s.daemons[d].root))
          || (s.daemons[d].pc.HasRootLock? && pc.HasBothLocks? && lock == SocketLock(s.daemons[d].socket))
    ensures Sound(s, TryLock(s, d, lock, pc), d)
  {
    if lock in s.files && !s.files[lock].Plain? {
      ReleaseIsSound(s, d);
    } else {
      var u := s.(files := s.files[lock := Plain]);
      TouchKeepsInv(s, lock);
      if lock in s.locks { ReleaseIsSound(u, d); } else { GrantIsSound(u, d, lock, pc); }
      SoundThroughTouch(s, u, TryLock(s, d, lock, pc), d);
    }
  }

  lemma UnlinkIsSound(s: System, d: nat)
    requires Inv(s) && d in s.daemons && s.daemons[d].pc.Unlinking?
    ensures Sound(s, Step(s, d, Unlink), d)
  {
    var t := Step(s, d, Unlink);
    assert LocksOf(s, d) && SocketOf(s, d);
    assert forall l, e :: Locked(t, l, e) <==> Locked(s, l, e);
  }

  lemma BindIsSound(s: System, d: nat)
    requires Inv(s) && d in s.daemons && s.daemons[d].pc.Binding?
    ensures Sound(s, Step(s, d, Bind), d)
  {
    var x, t := s.daemons[d], Step(s, d, Bind);
    assert LocksOf(s, d) && SocketOf(s, d);
    if x.socket in s.files && s.files[x.socket].Plain? {
      ReleaseIsSound(s, d);
    } else {
      assert forall l, e :: Locked(t, l, e) <==> Locked(s, l, e);
    }
  }

  lemma NothingIsSound(s: System, d: nat)
    requires Inv(s) && d in s.daemons
    ensures Sound(s, s, d)
  {
  }

  lemma StepIsSound(s: System, d: nat, a: Action)
    requires Inv(s) && d in s.daemons
    ensures Sound(s, Step(s, d, a), d)
  {
    var x := s.daemons[d];
    assert SocketOf(s, d);
    NothingIsSound(s, d);
    match a {
      case LockRoot => if x.pc.Idle? { TryLockIsSound(s, d, RootLock(x.root), HasRootLock); }
      case LockSocket => if x.pc.HasRootLock? { TryLockIsSound(s, d, SocketLock(x.socket), HasBothLocks); }
      case Inspect =>
        if x.pc.HasBothLocks? {
          if x.socket !in s.files { MoveIsSound(s, d, Binding); }
          else if !s.files[x.socket].Plain? { MoveIsSound(s, d, Probing); }
          else { ReleaseIsSound(s, d); }
        }
      case Probe(fails) =>
        if x.pc.Probing? {
          if fails || Live(s, x.socket) { ReleaseIsSound(s, d); } else { MoveIsSound(s, d, Unlinking); }
        }
      case Unlink => if x.pc.Unlinking? { UnlinkIsSound(s, d); }
      case Bind => if x.pc.Binding? { BindIsSound(s, d); }
      case Recover(succeeds) =>
        if x.pc.Recovering? {
          if succeeds { MoveIsSound(s, d, Serving); } else { ReleaseIsSound(s, d); }
        }
      case Close => if x.pc.Serving? { MoveIsSound(s, d, Closing); }
      case Release => if x.pc.Closing? { ReleaseIsSound(s, d); }
      case Crash => LetGoIsSound(s, d, Dead);
    }
  }

  lemma OthersKeepTheirs(s: System, t: System, d: nat, e: nat)
    requires Inv(s) && d in s.daemons && e in s.daemons && e != d && Sound(s, t, d)
    ensures e in t.daemons && t.daemons[e] == s.daemons[e] && LocksOf(t, e) && SocketOf(t, e)
  {
    var x, y := s.daemons[d], s.daemons[e];
    assert LocksOf(s, e) && SocketOf(s, e);
    assert forall lock :: Locked(t, lock, e) <==> Locked(s, lock, e);
    if HoldsSocket(y.pc) && HoldsSocket(x.pc) { SocketsDiffer(s, d, e); }
  }

  lemma SocketsDiffer(s: System, d: nat, e: nat)
    requires Inv(s) && d in s.daemons && e in s.daemons && e != d
    requires HoldsSocket(s.daemons[d].pc) && HoldsSocket(s.daemons[e].pc)
    ensures s.daemons[d].socket != s.daemons[e].socket
  {
    var x, y := s.daemons[d], s.daemons[e];
    assert LocksOf(s, d) && LocksOf(s, e);
    assert Holds(x, SocketLock(x.socket)) && Holds(y, SocketLock(y.socket));
    assert Locked(s, SocketLock(x.socket), d) && Locked(s, SocketLock(y.socket), e);
  }

  lemma StepKeepsInv(s: System, ev: Event)
    requires Inv(s)
    ensures Inv(Apply(s, ev))
  {
    match ev {
      case Spawn(id, root, socket) => SpawnKeepsInv(s, id, root, socket);
      case On(id, a) =>
        if id in s.daemons {
          StepIsSound(s, id, a);
          forall e | e in s.daemons && e != id ensures LocksOf(Apply(s, ev), e) && SocketOf(Apply(s, ev), e) {
            OthersKeepTheirs(s, Apply(s, ev), id, e);
          }
        }
      case Elsewhere(path, listening) => ElsewhereKeepsInv(s, path, listening);
    }
  }

  lemma ElsewhereKeepsInv(s: System, path: Text, listening: bool)
    requires Inv(s)
    ensures Inv(Apply(s, Elsewhere(path, listening)))
  {
    var t := Apply(s, Elsewhere(path, listening));
    forall e | e in t.daemons ensures LocksOf(t, e) && SocketOf(t, e) {
      assert LocksOf(s, e) && SocketOf(s, e);
      assert forall l :: Locked(t, l, e) <==> Locked(s, l, e);
    }
  }

  lemma SpawnKeepsInv(s: System, id: nat, root: Text, socket: Text)
    requires Inv(s)
    ensures Inv(Apply(s, Spawn(id, root, socket)))
  {
    var t := Apply(s, Spawn(id, root, socket));
    forall e | e in t.daemons ensures LocksOf(t, e) && SocketOf(t, e) {
      assert forall l :: Locked(t, l, e) <==> Locked(s, l, e);
      if e in s.daemons {
        assert LocksOf(s, e) && SocketOf(s, e);
      }
    }
  }

  lemma Reached(files: map<Text, File>, events: seq<Event>)
    ensures Inv(After(Apply, Initial(files), events))
  {
    forall s, e | Inv(s) ensures Inv(Apply(s, e)) { StepKeepsInv(s, e); }
    KeptForever(Apply, Inv, Initial(files), events);
  }

  /** Two-lock ownership, in every reachable state: a daemon that recovers or serves holds both its
      locks, and no other daemon that does so has its state root or its socket. */
  lemma OneOwner(files: map<Text, File>, events: seq<Event>, d: nat, e: nat)
    ensures
      var s := After(Apply, Initial(files), events);
      d in s.daemons && e in s.daemons && Bound(s.daemons[d].pc) ==>
        && Locked(s, RootLock(s.daemons[d].root), d) && Locked(s, SocketLock(s.daemons[d].socket), d)
        && (HoldsRoot(s.daemons[e].pc) && s.daemons[e].root == s.daemons[d].root ==> e == d)
        && (HoldsSocket(s.daemons[e].pc) && s.daemons[e].socket == s.daemons[d].socket ==> e == d)
  {
    Reached(files, events);
    var s := After(Apply, Initial(files), events);
    if d in s.daemons && e in s.daemons && Bound(s.daemons[d].pc) {
      assert LocksOf(s, d) && LocksOf(s, e);
      assert Holds(s.daemons[d], RootLock(s.daemons[d].root)) && Holds(s.daemons[d], SocketLock(s.daemons[d].socket));
      if HoldsRoot(s.daemons[e].pc) && s.daemons[e].root == s.daemons[d].root {
        assert Holds(s.daemons[e], RootLock(s.daemons[d].root));
      }
      if HoldsSocket(s.daemons[e].pc) && s.daemons[e].socket == s.daemons[d].socket {
        assert Holds(s.daemons[e], SocketLock(s.daemons[d].socket));
      }
    }
  }

  /** After a failed start, a close or a crash a daemon holds no lock. */
  lemma NoLockLeftBehind(files: map<Text, File>, events: seq<Event>, d: nat, lock: Text)
    ensures
      var s := After(Apply, Initial(files), events);
      d in s.daemons && !HoldsRoot(s.daemons[d].pc) ==> !Locked(s, lock, d)
  {
    Reached(files, events);
    var s := After(Apply, Initial(files), events);
    if d in s.daemons {
      assert LocksOf(s, d) && (Holds(s.daemons[d], lock) <==> Locked(s, lock, d));
    }
  }

  /** The socket file of a recovering or serving daemon is its own until it closes, fails or crashes, and
      no step of any daemon removes or replaces a file that is no socket. */
  lemma FilesAreKept(s: System, d: nat, e: nat, a: Action)
    requires Inv(s) && d in s.daemons && e in s.daemons
    ensures Bound(s.daemons[d].pc) && e != d ==>
      s.daemons[d].socket in Step(s, e, a).files && Step(s, e, a).files[s.daemons[d].socket] == Socket(d)
    ensures forall path :: path in s.files && s.files[path].Plain? ==>
      path in Step(s, e, a).files && Step(s, e, a).files[path].Plain?
  {
    StepIsSound(s, e, a);
    if e != d { OthersKeepTheirs(s, Step(s, e, a), e, d); }
  }

  // ---------------------------------------------------------------- who can start

  /** The lock files of a root and a socket are the same file exactly for the socket `daemon` in the root. */
  lemma LockPathsCoincide(root: Text, socket: Text)
    ensures RootLock(root) == SocketLock(socket) <==> socket == root + Ascii("/daemon")
    ensures |SocketLock(socket)| > |socket|
  {
    var a, b := RootLock(root), SocketLock(socket);
    assert Ascii("/daemon.lock") == Ascii("/daemon") + Ascii(".lock");
    assert a == root + Ascii("/daemon") + Ascii(".lock");
    if a == b {
      assert socket == b[..|b| - 5] && root + Ascii("/daemon") == a[..|a| - 5];
    }
  }

  /** No run of any daemons brings one with such a socket beyond its first lock. */
  lemma CoincidingNeverServes(files: map<Text, File>, events: seq<Event>, d: nat)
    ensures
      var s := After(Apply, Initial(files), events);
      d in s.daemons && s.daemons[d].socket == s.daemons[d].root + Ascii("/daemon") ==> !HoldsSocket(s.daemons[d].pc)
  {
    Reached(files, events);
    var s := After(Apply, Initial(files), events);
    if d in s.daemons {
      assert SocketOf(s, d);
      LockPathsCoincide(s.daemons[d].root, s.daemons[d].socket);
    }
  }

  /** A lock that can be taken: its path holds no socket, and nobody has it. */
  predicate Takeable(s: System, lock: Text) { lock !in s.locks && (lock in s.files ==> s.files[lock].Plain?) }

  /** Nobody owns either name, the lock files differ, and at most a stale socket lies in the way. */
  predicate Startable(s: System, x: Daemon) {
    && Takeable(s, RootLock(x.root)) && Takeable(s, SocketLock(x.socket))
    && x.socket != x.root + Ascii("/daemon") && x.socket != RootLock(x.root)
    && Usable(s, x.socket)
  }

  predicate At(s: System, d: nat, pc: Pc) { d in s.daemons && s.daemons[d].pc == pc }

  function Locking(s: System, d: nat): System
    requires d in s.daemons
  {
    Step(Step(s, d, LockRoot), d, LockSocket)
  }

  function Endpoint(s: System, d: nat): System
    requires d in s.daemons
  {
    Step(Step(Step(Step(Step(s, d, Inspect), d, Probe(false)), d, Unlink), d, Bind), d, Recover(true))
  }

  /** One lock: taken exactly when it can be, otherwise the daemon is idle again. */
  lemma TryLockExactly(s: System, d: nat, lock: Text, pc: Pc)
    requires d in s.daemons && HoldsRoot(pc)
    ensures
      var x, t := s.daemons[d], TryLock(s, d, lock, pc);
      if Takeable(s, lock) then
        t == System(s.daemons[d := x.(pc := pc)], s.locks[lock := d], s.files[lock := Plain])
      else At(t, d, Idle)
  {
  }

  lemma LockingSucceedsExactly(s: System, d: nat)
    requires Inv(s) && At(s, d, Idle)
    ensures
      var x, t := s.daemons[d], Locking(s, d);
      && (At(t, d, HasBothLocks) <==>
            && Takeable(s, RootLock(x.root)) && Takeable(s, SocketLock(x.socket))
            && RootLock(x.root) != SocketLock(x.socket))
      && (At(t, d, HasBothLocks) ==>
            && t.daemons == s.daemons[d := x.(pc := HasBothLocks)]
            && t.files == s.files[RootLock(x.root) := Plain][SocketLock(x.socket) := Plain])
      && (!At(t, d, HasBothLocks) ==> At(t, d, Idle))
  {
    var x, u := s.daemons[d], TryLock(s, d, RootLock(s.daemons[d].root), HasRootLock);
    TryLockExactly(s, d, RootLock(x.root), HasRootLock);
    assert Step(s, d, LockRoot) == u;
    if Takeable(s, RootLock(x.root)) {
      TryLockExactly(u, d, SocketLock(x.socket), HasBothLocks);
      assert Locking(s, d) == TryLock(u, d, SocketLock(x.socket), HasBothLocks);
      assert u.daemons[d := u.daemons[d].(pc := HasBothLocks)] == s.daemons[d := x.(pc := HasBothLocks)];
    }
  }

  lemma EndpointSucceedsExactly(s: System, d: nat)
    requires d in s.daemons && (At(s, d, Idle) || At(s, d, HasBothLocks))
    ensures
      var x := s.daemons[d];
      At(Endpoint(s, d), d, Serving) <==>
        x.pc.HasBothLocks? && Usable(s, x.socket)
  {
    var x := s.daemons[d];
    var t := Step(s, d, Inspect);
    if x.pc.HasBothLocks? && x.socket in s.files && !s.files[x.socket].Plain? {
      assert t.daemons[d] == x.(pc := Probing) && Live(t, x.socket) == Live(s, x.socket);
    }
  }

  predicate Usable(s: System, socket: Text) {
    socket in s.files ==> !s.files[socket].Plain? && !Live(s, socket)
  }

  /** Creating the lock files spoils the socket path only if it is one of them. */
  lemma LocksLeaveSocket(s: System, t: System, d: nat)
    requires At(s, d, Idle) && t.daemons == s.daemons[d := s.daemons[d].(pc := HasBothLocks)]
    requires var x := s.daemons[d]; t.files == s.files[RootLock(x.root) := Plain][SocketLock(x.socket) := Plain]
    ensures var x := s.daemons[d];
      Usable(t, x.socket) <==> Usable(s, x.socket) && x.socket != RootLock(x.root)
  {
    var x := s.daemons[d];
    LockPathsCoincide(x.root, x.socket);
    if x.socket != RootLock(x.root) {
      assert x.socket in t.files <==> x.socket in s.files;
      assert Live(t, x.socket) == Live(s, x.socket);
    }
  }

  /** A start that no other process interferes with succeeds exactly when both locks can be taken, the
      socket is not `daemon` or `daemon.lock` in the root, and at most a stale socket lies in the way. */
  lemma StartSucceedsExactly(s: System, d: nat)
    requires Inv(s) && At(s, d, Idle)
    ensures At(Endpoint(Locking(s, d), d), d, Serving) <==> Startable(s, s.daemons[d])
  {
    var x, t := s.daemons[d], Locking(s, d);
    LockingSucceedsExactly(s, d);
    EndpointSucceedsExactly(t, d);
    LockPathsCoincide(x.root, x.socket);
    if At(t, d, HasBothLocks) { LocksLeaveSocket(s, t, d); }
  }

  /** So a crash never bars a restart: the locks of the dead are free, and their socket is stale. */
  lemma CrashLeavesStartable(s: System, d: nat)
    requires Inv(s) && d in s.daemons && Bound(s.daemons[d].pc)
    ensures Startable(Step(s, d, Crash), Daemon(s.daemons[d].root, s.daemons[d].socket, Idle))
  {
    var x := s.daemons[d];
    assert LocksOf(s, d) && SocketOf(s, d);
    assert Holds(x, RootLock(x.root)) && Holds(x, SocketLock(x.socket));
    LockPathsCoincide(x.root, x.socket);
    LetGoFreesOwn(s, d);
  }
}
