/** `start` and `_release_endpoint` of server.py, on the host whose locks and files they change. */
module Startup {
  import opened Texts
  import opened Ownership
  import opened OwnershipTheorems

  class Host {
    var daemons: map<nat, Daemon>
    var locks: map<Text, nat>
    var files: map<Text, File>

    ghost function Snap(): System
      reads this
    {
      System(daemons, locks, files)
    }

    constructor (files: map<Text, File>)
      ensures Snap() == Initial(files)
    {
      daemons, locks, this.files := map[], map[], files;
    }

    method Enter(d: nat, pc: Pc)
      requires d in daemons
      modifies this`daemons
      ensures Snap() == Move(old(Snap()), d, pc)
    {
      daemons := daemons[d := daemons[d].(pc := pc)];
    }

    method Release(d: nat)
      requires d in daemons
      modifies this
      ensures Snap() == ReleaseEndpoint(old(Snap()), d)
    {
      if Bound(daemons[d].pc) {
        files := files - {daemons[d].socket};
      }
      locks := map l | l in locks && locks[l] != d :: locks[l];
      Enter(d, Idle);
    }

    /** Open and lock one lock file, or release what is held and fail. */
    method Acquire(d: nat, lock: Text, pc: Pc) returns (acquired: bool)
      requires d in daemons
      modifies this
      ensures Snap() == TryLock(old(Snap()), d, lock, pc)
      ensures acquired <==> Takeable(old(Snap()), lock)
    {
      acquired := lock !in files || files[lock].Plain?;
      if acquired {
        files := files[lock := Plain];
        acquired := lock !in locks;
      }
      if !acquired {
        Release(d);
        return;
      }
      locks := locks[lock := d];
      Enter(d, pc);
    }

    /** Replace a stale socket, if there is one, by one of our own. */
    method Reserve(d: nat) returns (reserved: bool)
      requires At(Snap(), d, HasBothLocks)
      modifies this
      ensures Snap() == Reserved(old(Snap()), d)
      ensures reserved <==> At(Snap(), d, Recovering)
      ensures !reserved ==> At(Snap(), d, Idle)
    {
      var socket := daemons[d].socket;
      if socket in files {
        var live := IsLive(socket);
        if files[socket].Plain? || live {
          Release(d);
          return false;
        }
        files := files - {socket};
      }
      files := files[socket := Socket(d)];
      Enter(d, Recovering);
      return true;
    }

    method IsLive(path: Text) returns (live: bool)
      ensures live == Live(Snap(), path)
    {
      if path !in files {
        return false;
      }
      match files[path] {
        case Socket(d) => live := d in daemons && daemons[d].pc.Serving? && daemons[d].socket == path;
        case Alien(listening) => live := listening;
        case Plain => live := false;
      }
    }

    /** Both locks, the state root first. */
    method TakeLocks(d: nat) returns (taken: bool)
      requires Inv(Snap()) && At(Snap(), d, Idle)
      modifies this
      ensures Snap() == Locking(old(Snap()), d) && Inv(Snap())
      ensures taken <==> At(Snap(), d, HasBothLocks)
      ensures !taken ==> At(Snap(), d, Idle)
    {
      LockingKeepsInv(Snap(), d);
      LockingSucceedsExactly(Snap(), d);
      var x := daemons[d];
      taken := Acquire(d, RootLock(x.root), HasRootLock);
      if taken {
        taken := Acquire(d, SocketLock(x.socket), HasBothLocks);
      }
    }

    /** The end of recovery: serve, or give everything back. */
    method Conclude(d: nat, recovers: bool)
      requires Inv(Snap()) && At(Snap(), d, Recovering)
      modifies this
      ensures Snap() == Step(old(Snap()), d, Recover(recovers))
      ensures Inv(Snap()) && At(Snap(), d, if recovers then Serving else Idle)
    {
      StepKeeps(Snap(), d, Recover(recovers));
      if recovers {
        Enter(d, Serving);
      } else {
        Release(d);
      }
    }

    /** `start` up to recovery, when no other process interferes: the daemon owns its root and its socket
        exactly when it could start, and is idle otherwise. */
    method Prepare(d: nat) returns (owner: bool)
      requires Inv(Snap()) && At(Snap(), d, Idle)
      modifies this
      ensures owner <==> Startable(old(Snap()), old(daemons)[d])
      ensures Inv(Snap()) && At(Snap(), d, if owner then Recovering else Idle)
    {
      StartableIsReserved(Snap(), d);
      owner := TakeLocks(d);
      if owner {
        ReservedKeepsInv(Snap(), d);
        owner := Reserve(d);
      }
    }
  }

  predicate CanReserve(s: System, d: nat)
    requires d in s.daemons
  {
    At(Reserved(s, d), d, Recovering)
  }

  lemma StartableIsReserved(s: System, d: nat)
    requires Inv(s) && At(s, d, Idle)
    ensures Startable(s, s.daemons[d]) <==> At(Locking(s, d), d, HasBothLocks) && CanReserve(Locking(s, d), d)
  {
    StartSucceedsExactly(s, d);
    LockingSucceedsExactly(s, d);
    EndpointSucceedsExactly(Locking(s, d), d);
    ServingWasRecovering(Locking(s, d), d);
  }

  lemma ServingWasRecovering(s: System, d: nat)
    requires At(s, d, Idle) || At(s, d, HasBothLocks)
    ensures At(Endpoint(s, d), d, Serving) <==> CanReserve(s, d)
  {
    var u := Reserved(s, d);
    assert Endpoint(s, d) == Step(u, d, Recover(true));
  }

  /** The endpoint steps up to recovery. */
  function Reserved(s: System, d: nat): System
    requires d in s.daemons
  {
    Step(Step(Step(Step(s, d, Inspect), d, Probe(false)), d, Unlink), d, Bind)
  }

  lemma StepKeeps(s: System, d: nat, a: Action)
    requires Inv(s) && d in s.daemons
    ensures Inv(Step(s, d, a))
  {
    StepKeepsInv(s, On(d, a));
  }

  lemma LockingKeepsInv(s: System, d: nat)
    requires Inv(s) && d in s.daemons
    ensures Inv(Locking(s, d))
  {
    StepKeeps(s, d, LockRoot);
    StepKeeps(Step(s, d, LockRoot), d, LockSocket);
  }

  lemma ReservedKeepsInv(s: System, d: nat)
    requires Inv(s) && d in s.daemons
    ensures Inv(Reserved(s, d))
  {
    var s1 := Step(s, d, Inspect);
    var s2 := Step(s1, d, Probe(false));
    var s3 := Step(s2, d, Unlink);
    StepKeeps(s, d, Inspect);
    StepKeeps(s1, d, Probe(false));
    StepKeeps(s2, d, Unlink);
    StepKeeps(s3, d, Bind);
  }

  lemma IdleHoldsNothing(s: System, d: nat)
    requires Inv(s) && At(s, d, Idle)
    ensures forall lock :: !Locked(s, lock, d)
  {
    assert LocksOf(s, d);
    assert forall lock :: Locked(s, lock, d) <==> Holds(s.daemons[d], lock);
  }
}
