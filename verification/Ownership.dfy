/** The two-lock startup of server.py, for any number of daemon processes on one host: one action is a
    system call, or a stretch of calls no other process can observe in parts. */
module Ownership {
  import opened Texts

  /** What lies at a path: the socket a daemon bound there, the socket of some other program, which may
      be listening on it, or a file that is no socket. */
  datatype File = Socket(owner: nat) | Alien(listening: bool) | Plain

  /** How far a daemon is: `Idle` before a start, after a failed one and after a close. */
  datatype Pc =
    | Idle | HasRootLock | HasBothLocks | Probing | Unlinking | Binding | Recovering | Serving | Closing | Dead

  datatype Daemon = Daemon(root: Text, socket: Text, pc: Pc)

  datatype System = System(daemons: map<nat, Daemon>, locks: map<Text, nat>, files: map<Text, File>)

  datatype Action =
    | LockRoot
    | LockSocket
    | Inspect
    | Probe(fails: bool)
    | Unlink
    | Bind
    | Recover(succeeds: bool)
    | Close
    | Release
    | Crash

  /** `Elsewhere`: another program binds a free path, or begins or ceases to listen on its socket. */
  datatype Event =
    | Spawn(newId: nat, root: Text, socket: Text)
    | On(id: nat, action: Action)
    | Elsewhere(path: Text, listening: bool)

  function RootLock(root: Text): Text { root + Ascii("/daemon.lock") }

  function SocketLock(socket: Text): Text { socket + Ascii(".lock") }

  predicate HoldsRoot(pc: Pc) { !pc.Idle? && !pc.Dead? }

  predicate HoldsSocket(pc: Pc) { HoldsRoot(pc) && !pc.HasRootLock? }

  /** The daemon has bound its socket. */
  predicate Bound(pc: Pc) { pc.Recovering? || pc.Serving? || pc.Closing? }

  predicate Holds(x: Daemon, lock: Text) {
    (HoldsRoot(x.pc) && lock == RootLock(x.root)) || (HoldsSocket(x.pc) && lock == SocketLock(x.socket))
  }

  // ---------------------------------------------------------------- steps

  function Move(s: System, d: nat, pc: Pc): System
    requires d in s.daemons
  {
    s.(daemons := s.daemons[d := s.daemons[d].(pc := pc)])
  }

  function Unlock(locks: map<Text, nat>, d: nat): map<Text, nat> { map l | l in locks && locks[l] != d :: locks[l] }

  /** Close every lock descriptor; the lock files stay. */
  function LetGo(s: System, d: nat, pc: Pc): System
    requires d in s.daemons
  {
    Move(s, d, pc).(locks := Unlock(s.locks, d))
  }

  /** `_release_endpoint`: a bound socket is unlinked, then the locks go. */
  function ReleaseEndpoint(s: System, d: nat): System
    requires d in s.daemons
  {
    var x := s.daemons[d];
    LetGo(if Bound(x.pc) then s.(files := s.files - {x.socket}) else s, d, Idle)
  }

  /** Open a lock file, creating it if need be, and lock it; a second descriptor of the same process
      conflicts like any other. */
  function TryLock(s: System, d: nat, lock: Text, pc: Pc): System
    requires d in s.daemons
  {
    if lock in s.files && !s.files[lock].Plain? then ReleaseEndpoint(s, d)
    else
      var touched := s.(files := s.files[lock := Plain]);
      if lock in s.locks then ReleaseEndpoint(touched, d)
      else Move(touched, d, pc).(locks := s.locks[lock := d])
  }

  /** A connection is accepted by another program that listens, and by a daemon only once it serves: a
      socket being recovered behind refuses. */
  predicate Live(s: System, path: Text) {
    path in s.files &&
    match s.files[path]
    case Socket(owner) => owner in s.daemons && s.daemons[owner].pc.Serving? && s.daemons[owner].socket == path
    case Alien(listening) => listening
    case Plain => false
  }

  function Step(s: System, d: nat, a: Action): (t: System)
    requires d in s.daemons
    ensures t.daemons.Keys == s.daemons.Keys
  {
    var x := s.daemons[d];
    match a
    case LockRoot => if x.pc.Idle? then TryLock(s, d, RootLock(x.root), HasRootLock) else s
    case LockSocket => if x.pc.HasRootLock? then TryLock(s, d, SocketLock(x.socket), HasBothLocks) else s
    case Inspect =>
      if !x.pc.HasBothLocks? then s
      else if x.socket !in s.files then Move(s, d, Binding)
      else if !s.files[x.socket].Plain? then Move(s, d, Probing)
      else ReleaseEndpoint(s, d)
    case Probe(fails) =>
      if !x.pc.Probing? then s
      else if fails || Live(s, x.socket) then ReleaseEndpoint(s, d)
      else Move(s, d, Unlinking)
    case Unlink => if x.pc.Unlinking? then Move(s.(files := s.files - {x.socket}), d, Binding) else s
    case Bind =>
      if !x.pc.Binding? then s
      else if x.socket in s.files && s.files[x.socket].Plain? then ReleaseEndpoint(s, d)
      else Move(s.(files := s.files[x.socket := Socket(d)]), d, Recovering)
    case Recover(succeeds) =>
      if !x.pc.Recovering? then s else if succeeds then Move(s, d, Serving) else ReleaseEndpoint(s, d)
    case Close => if x.pc.Serving? then Move(s, d, Closing) else s
    case Release => if x.pc.Closing? then ReleaseEndpoint(s, d) else s
    case Crash => LetGo(s, d, Dead)
  }

  function Apply(s: System, e: Event): System {
    match e
    case Spawn(id, root, socket) =>
      if id in s.daemons then s else s.(daemons := s.daemons[id := Daemon(root, socket, Idle)])
    case On(id, a) => if id in s.daemons then Step(s, id, a) else s
    case Elsewhere(path, listening) =>
      if path in s.files && !s.files[path].Alien? then s else s.(files := s.files[path := Alien(listening)])
  }

  /** No process yet, on a file system with whatever files. */
  function Initial(files: map<Text, File>): System { System(map[], map[], files) }

  // ---------------------------------------------------------------- invariants

  predicate Locked(s: System, lock: Text, d: nat) { lock in s.locks && s.locks[lock] == d }

  /** The lock table and the program counters agree. */
  ghost predicate LocksOf(s: System, d: nat)
    requires d in s.daemons
  {
    forall lock :: Holds(s.daemons[d], lock) <==> Locked(s, lock, d)
  }

  ghost predicate LockFiles(s: System) {
    forall lock :: lock in s.locks ==> s.locks[lock] in s.daemons && lock in s.files && s.files[lock].Plain?
  }

  ghost predicate SocketOf(s: System, d: nat)
    requires d in s.daemons
  {
    var x := s.daemons[d];
    && (HoldsSocket(x.pc) ==> RootLock(x.root) != SocketLock(x.socket))
    && (x.pc.Probing? || x.pc.Unlinking? ==> x.socket in s.files && !s.files[x.socket].Plain?)
    && (Bound(x.pc) ==> x.socket in s.files && s.files[x.socket] == Socket(d))
  }

  ghost predicate Inv(s: System) {
    LockFiles(s) && forall d :: d in s.daemons ==> LocksOf(s, d) && SocketOf(s, d)
  }

  /** The locks of others stay theirs. */
  ghost predicate KeepsLocks(s: System, t: System, d: nat) {
    forall lock, e :: e != d ==> (Locked(t, lock, e) <==> Locked(s, lock, e))
  }

  /** Files that are no sockets stay, and no socket goes but the one at the daemon's own path, under its lock. */
  ghost predicate KeepsFiles(s: System, t: System, d: nat)
    requires d in s.daemons
  {
    && (forall path :: path in s.files && s.files[path].Plain? ==> path in t.files && t.files[path].Plain?)
    && (forall path :: path in s.files && !s.files[path].Plain? ==>
          (path in t.files && t.files[path] == s.files[path])
          || (path == s.daemons[d].socket && HoldsSocket(s.daemons[d].pc)))
  }

  ghost predicate KeepsDaemons(s: System, t: System, d: nat)
    requires d in s.daemons
  {
    && d in t.daemons && t.daemons == s.daemons[d := t.daemons[d]]
    && t.daemons[d].root == s.daemons[d].root && t.daemons[d].socket == s.daemons[d].socket
  }
}
