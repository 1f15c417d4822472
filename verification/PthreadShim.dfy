/** pthread.h of the X5H port: the resources of a thread from `pthread_create` to the join, with
    every allocation able to fail. */
module PthreadShim {

  datatype Resource = Info | Done | Tcb | TheTask | Tls

  datatype Life = Absent | Running | Finished | Cancelled | Joined

  /** What can fail on the way to a running thread. */
  datatype Outcomes = Outcomes(info: bool, done: bool, tcb: bool, task: bool)
  {
    predicate Good(staticTcb: bool) {
      info && done && (staticTcb ==> tcb) && task
    }
  }

  /** Everything the thread owned was released exactly once: first its thread-local storage, then
      the task, then a TCB of its own, if any. */
  predicate CleanExit(log: seq<Resource>, staticTcb: bool) {
    && |log| == (if staticTcb then 5 else 4)
    && multiset(log) == (if staticTcb then multiset{Tls, TheTask, Tcb, Done, Info}
                         else multiset{Tls, TheTask, Done, Info})
    && log[0] == Tls && log[1] == TheTask && (staticTcb ==> log[2] == Tcb)
  }

  const WITH_TCB := [Tls, TheTask, Tcb, Done, Info]
  const WITHOUT_TCB := [Tls, TheTask, Done, Info]

  lemma ExitIsClean(staticTcb: bool)
    ensures CleanExit(if staticTcb then WITH_TCB else WITHOUT_TCB, staticTcb)
  {
  }

  class Thread {
    var live: set<Resource>
    var released: seq<Resource>
    var life: Life
    var ownsTcb: bool
    var taskIsNull: bool

    /** Every release so far hit a live resource, once. */
    ghost predicate Valid()
      reads this
    {
      match life
      case Absent => live == {} && |released| == 0
      case Running => live == Owned(ownsTcb) + {TheTask, Tls} && released == [] && !taskIsNull
      case Finished => live == Owned(ownsTcb) + {TheTask, Tls} && released == [] && !taskIsNull
      case Cancelled => live == Owned(ownsTcb) && released == [Tls, TheTask] && taskIsNull
      case Joined => live == {} && CleanExit(released, ownsTcb)
    }

    static function Owned(staticTcb: bool): set<Resource> {
      if staticTcb then {Info, Done, Tcb} else {Info, Done}
    }

    constructor ()
      ensures Valid() && life == Absent
    {
      live, released, life, ownsTcb, taskIsNull := {}, [], Absent, false, true;
    }

    method Release(r: Resource)
      requires r in live
      modifies this`live, this`released
      ensures live == old(live) - {r} && released == old(released) + [r]
    {
      live := live - {r};
      released := released + [r];
    }

    /** Either a running thread with all it needs, or an error with nothing left allocated. */
    method Create(staticTcb: bool, o: Outcomes) returns (ok: bool)
      requires Valid() && life == Absent
      modifies this
      ensures ok <==> o.Good(staticTcb)
      ensures Valid() && life == (if ok then Running else Absent)
      ensures ok ==> live == Owned(staticTcb) + {TheTask, Tls} && ownsTcb == staticTcb
    {
      if !o.info {
        return false;
      }
      live := {Info};
      if !o.done {
        live := live - {Info};
        return false;
      }
      live := live + {Done};
      var created := false;
      ownsTcb := false;
      if staticTcb {
        if o.tcb {
          live := live + {Tcb};
          created := o.task;
          if created {
            ownsTcb := true;
          } else {
            live := live - {Tcb};
          }
        }
      } else {
        created := o.task;
      }
      if !created {
        live := live - {Done};
        live := live - {Info};
        assert live == {};
        return false;
      }
      live := live + {TheTask, Tls};
      taskIsNull := false;
      life := Running;
      return true;
    }

    /** The entry function returns and gives the semaphore. */
    method Finish()
      requires Valid() && life == Running
      modifies this`life
      ensures Valid() && life == Finished
    {
      life := Finished;
    }

    /** Suspends the thread, frees its storage, deletes the task; the rest waits for the join. */
    method Cancel() returns (ok: bool)
      requires Valid() && life != Absent && life != Joined
      modifies this
      ensures Valid() && ok == (old(life) != Cancelled) && life == Cancelled
      ensures ownsTcb == old(ownsTcb)
    {
      if taskIsNull {
        return false;
      }
      taskIsNull := true;
      Release(Tls);
      Release(TheTask);
      life := Cancelled;
      return true;
    }

    /** `x5h_emutls_task_cleanup` and then `vTaskDelete`. */
    method ReleaseTask()
      requires live == Owned(ownsTcb) + {TheTask, Tls} && released == []
      modifies this`live, this`released
      ensures live == Owned(ownsTcb) && released == [Tls, TheTask]
    {
      Release(Tls);
      Release(TheTask);
    }

    method ReleaseRest()
      requires live == Owned(ownsTcb) && released == [Tls, TheTask]
      modifies this`live, this`released
      ensures live == {}
      ensures CleanExit(released, ownsTcb)
    {
      if ownsTcb {
        Release(Tcb);
      }
      assert live == {Info, Done};
      Release(Done);
      Release(Info);
      assert released == if ownsTcb then WITH_TCB else WITHOUT_TCB;
      ExitIsClean(ownsTcb);
    }

    /** A single join, after the thread finished or was cancelled. */
    method Join()
      requires Valid() && (life == Finished || life == Cancelled)
      modifies this
      ensures Valid() && life == Joined && live == {} && CleanExit(released, old(ownsTcb))
    {
      if !taskIsNull {
        ReleaseTask();
        taskIsNull := true;
      }
      ReleaseRest();
      life := Joined;
    }
  }
}
