/** Starts and closes of one daemon, in terms of what lies at its paths and who is alive. */
module Endpoints {
  import opened Texts
  import opened Ownership
  import opened OwnershipTheorems

  /** No daemon that started has this file locked: not as the lock of its root, nor, once it got there, as
      the lock of its socket. */
  predicate Unlocked(s: System, path: Text) {
    forall e :: e in s.daemons && s.daemons[e].pc != Idle && s.daemons[e].pc != Dead ==>
      && path != s.daemons[e].root + Ascii("/daemon.lock")
      && (s.daemons[e].pc == HasRootLock || path != s.daemons[e].socket + Ascii(".lock"))
  }

  lemma UnlockedExactly(s: System, path: Text)
    requires Inv(s)
    ensures Unlocked(s, path) <==> path !in s.locks
  {
    if path in s.locks {
      var e := s.locks[path];
      assert e in s.daemons && LocksOf(s, e) && Locked(s, path, e);
      assert Holds(s.daemons[e], path);
    } else {
      forall e | e in s.daemons ensures !Holds(s.daemons[e], path) {
        assert LocksOf(s, e) && !Locked(s, path, e);
      }
    }
  }

  /** A lock file can be created or is there. */
  predicate Lockable(s: System, path: Text) { path in s.files ==> s.files[path] == Plain }

  /** Nothing lies at the path but perhaps a socket of a daemon, or one of a program that ceased to listen. */
  predicate Replaceable(s: System, path: Text) {
    path in s.files ==> s.files[path].Socket? || s.files[path] == Alien(false)
  }

  /** A start succeeds if and only if no daemon has either lock file locked, nothing but a lock file lies at
      their paths, the socket is neither `daemon` nor `daemon.lock` in the root, and there is no socket at its
      path that another program listens on, nor any other file. */
  lemma StartExactly(s: System, d: nat)
    requires Inv(s) && At(s, d, Idle)
    ensures
      var x := s.daemons[d];
      var root, socket := x.root + Ascii("/daemon.lock"), x.socket + Ascii(".lock");
      At(Endpoint(Locking(s, d), d), d, Serving) <==>
        (&& Unlocked(s, root) && Unlocked(s, socket) && Lockable(s, root) && Lockable(s, socket)
         && x.socket != x.root + Ascii("/daemon") && x.socket != root && Replaceable(s, x.socket))
  {
    var x := s.daemons[d];
    StartSucceedsExactly(s, d);
    UnlockedExactly(s, RootLock(x.root));
    UnlockedExactly(s, SocketLock(x.socket));
    StaleExactly(s, x.socket);
  }

  /** Behind a socket lock that nobody holds no daemon serves. */
  lemma StaleExactly(s: System, socket: Text)
    requires Inv(s)
    ensures Unlocked(s, socket + Ascii(".lock")) ==> (Usable(s, socket) <==> Replaceable(s, socket))
  {
  }

  lemma StartedFiles(s: System, d: nat)
    requires Inv(s) && At(s, d, Idle) && At(Endpoint(Locking(s, d), d), d, Serving)
    ensures
      var x := s.daemons[d];
      Endpoint(Locking(s, d), d).files ==
        s.files[RootLock(x.root) := Plain][SocketLock(x.socket) := Plain][x.socket := Socket(d)]
  {
    var u := Locking(s, d);
    LockingSucceedsExactly(s, d);
    EndpointSucceedsExactly(u, d);
    BoundFrom(u, d);
  }

  /** A started daemon has its socket at its path, and every other file is as it was. */
  lemma StartedIsBound(s: System, d: nat)
    requires Inv(s) && At(s, d, Idle) && At(Endpoint(Locking(s, d), d), d, Serving)
    ensures
      var socket, files := s.daemons[d].socket, Endpoint(Locking(s, d), d).files;
      && socket in files && files[socket] == Socket(d)
      && forall path :: path in s.files && path != socket ==> path in files && files[path] == s.files[path]
  {
    StartedFiles(s, d);
    StartSucceedsExactly(s, d);
  }

  lemma BoundFrom(s: System, d: nat)
    requires At(s, d, HasBothLocks) && Usable(s, s.daemons[d].socket)
    ensures
      var x := s.daemons[d];
      Endpoint(s, d) == System(s.daemons[d := x.(pc := Serving)], s.locks, s.files[x.socket := Socket(d)])
  {
    var x := s.daemons[d];
    var s1 := Step(s, d, Inspect);
    var s2 := Step(s1, d, Probe(false));
    var s3 := Step(s2, d, Unlink);
    var s4 := Step(s3, d, Bind);
    assert Live(s1, x.socket) == Live(s, x.socket);
    assert s3.daemons == s.daemons[d := x.(pc := Binding)];
    assert s4.files == s.files[x.socket := Socket(d)];
    assert s4.daemons == s.daemons[d := x.(pc := Recovering)];
    assert Step(s4, d, Recover(true)).daemons == s.daemons[d := x.(pc := Serving)];
  }

  /** The socket of a program that listens, and a file that is no socket, survive a start that fails on them. */
  lemma ForeignIsKept(s: System, d: nat, f: File)
    requires Inv(s) && At(s, d, HasBothLocks) && (f == Alien(true) || f == Plain)
    requires s.daemons[d].socket in s.files && s.files[s.daemons[d].socket] == f
    ensures
      var t := Endpoint(s, d);
      && At(t, d, Idle) && t.files == s.files && forall lock :: lock in t.locks ==> t.locks[lock] != d
  {
    var x := s.daemons[d];
    var s1 := Step(s, d, Inspect);
    var s2 := Step(s1, d, Probe(false));
    LetGoFreesOwn(s, d);
    assert Live(s1, x.socket) == Live(s, x.socket);
    assert s2.files == s.files && At(s2, d, Idle);
  }

  /** A closed daemon leaves nothing at its socket and no lock, and can start again. */
  lemma CloseLeavesStartable(s: System, d: nat)
    requires Inv(s) && At(s, d, Serving)
    ensures
      var x, t := s.daemons[d], Step(Step(s, d, Close), d, Release);
      && At(t, d, Idle) && x.socket !in t.files && Startable(t, t.daemons[d])
      && (forall lock :: lock in t.locks ==> t.locks[lock] != d)
  {
    var x, u := s.daemons[d], Step(s, d, Close);
    assert LocksOf(s, d) && SocketOf(s, d);
    assert Holds(x, RootLock(x.root)) && Holds(x, SocketLock(x.socket));
    LockPathsCoincide(x.root, x.socket);
    LetGoFreesOwn(u, d);
  }
}
