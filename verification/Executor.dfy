/** The `BackgroundTaskExecutor` object: the blocks it runs under its lock, each proved to do to the
 *  queue and the bookkeeping exactly what the machine's steps say. */
module ExecutorObject {
  import opened Basics
  import opened TaskRepository
  import Machine = ExecutorMachine

  class BackgroundTaskExecutor {
    var queue: seq<Machine.Job>
    var scheduled: set<Id>
    var versions: map<Id, nat>
    var pending: map<Id, Machine.Resume>
    var closing: bool
    const capacity: nat

    constructor (capacity: nat)
      requires 1 <= capacity <= 100_000
      ensures Board() == Machine.Board([], {}, map[], map[], false) && this.capacity == capacity && Valid()
    {
      queue, scheduled, versions, pending, closing, this.capacity := [], {}, map[], map[], false, capacity;
    }

    ghost function Board(): Machine.Board
      reads this
    {
      Machine.Board(queue, scheduled, versions, pending, closing)
    }

    /** Nothing is remembered about a task that is not scheduled. */
    ghost predicate Valid()
      reads this
    {
      versions.Keys <= scheduled && pending.Keys <= scheduled
    }

    /** `put_nowait`. */
    method PutNoWait(job: Machine.Job) returns (full: bool)
      modifies this`queue
      ensures full <==> |old(queue)| >= capacity
      ensures queue == if full then old(queue) else old(queue) + [job]
    {
      full := |queue| >= capacity;
      if !full {
        queue := queue + [job];
      }
    }

    /** Marks the task, then tries the queue; a full queue takes the marks back. */
    method Enqueue(job: Machine.Job, version: nat) returns (reply: Machine.Reply)
      requires Valid() && job.id !in scheduled
      modifies this
      ensures Valid() && (Board(), reply) == Machine.Enqueue(old(Board()), capacity, job, version)
    {
      scheduled, versions := scheduled + {job.id}, versions[job.id := version];
      var full := PutNoWait(job);
      if full {
        scheduled, versions := scheduled - {job.id}, versions - {job.id};
        assert scheduled == old(scheduled) && versions == old(versions);
        return Machine.Full;
      }
      reply := Machine.Scheduled;
    }

    method Submit(id: Id, status: Status, version: nat) returns (reply: Machine.Reply)
      requires Valid()
      modifies this
      ensures Valid() && (Board(), reply) == Machine.Submit(old(Board()), capacity, id, status, version)
    {
      if closing {
        return Machine.Closed;
      }
      if Terminal(status) {
        return Machine.Ignored;
      }
      if status !in Machine.Submittable {
        return Machine.Ignored;
      }
      if id in scheduled {
        return Machine.Ignored;
      }
      reply := Enqueue(Machine.Job(id, false), version);
    }

    method ScheduleActive(id: Id, status: Status, version: nat) returns (reply: Machine.Reply)
      requires Valid()
      modifies this
      ensures Valid() && (Board(), reply) == Machine.ScheduleActive(old(Board()), capacity, id, status, version)
    {
      if closing {
        return Machine.Closed;
      }
      if status !in Machine.Interrupted {
        return Machine.Ignored;
      }
      if id in scheduled {
        if id in versions && versions[id] >= version {
          return Machine.Ignored;
        }
        versions := versions[id := version];
        pending := pending[id := Machine.Resume(true, RecoverableFailed)];
        return Machine.Scheduled;
      }
      reply := Enqueue(Machine.Job(id, true), version);
    }

    /** The task is marked before its version is read, and stays marked if that read fails. */
    method ScheduleResumed(id: Id, version: Option<nat>, resume: Machine.Resume) returns (reply: Machine.Reply)
      requires Valid()
      modifies this
      ensures Valid() && (Board(), reply) == Machine.ScheduleResumed(old(Board()), capacity, id, version, resume)
    {
      if closing {
        return Machine.Closed;
      }
      if id in scheduled {
        if version.None? {
          return Machine.ReadError;
        }
        versions, pending := versions[id := version.value], pending[id := resume];
        return Machine.Scheduled;
      }
      scheduled := scheduled + {id};
      if version.None? {
        return Machine.ReadError;
      }
      versions := versions[id := version.value];
      var full := PutNoWait(Machine.Job(id, resume.preclaimed));
      if full {
        scheduled, versions := scheduled - {id}, versions - {id};
        assert scheduled == old(scheduled) && versions == old(versions);
        return Machine.Full;
      }
      reply := Machine.Scheduled;
    }

    /** The `finally` block of a worker; what it returns is to be rolled back. */
    method Finish(id: Id) returns (rollback: Option<Machine.Resume>)
      requires Valid()
      modifies this
      ensures Valid() && (Board(), rollback) == Machine.Finish(old(Board()), capacity, id)
    {
      rollback := None;
      scheduled := scheduled - {id};
      if id !in pending {
        versions := versions - {id};
        assert pending == old(pending) - {id};
        return;
      }
      var resume := pending[id];
      pending := pending - {id};
      if !closing {
        scheduled := scheduled + {id};
        var full := PutNoWait(Machine.Job(id, resume.preclaimed));
        if full {
          scheduled, versions := scheduled - {id}, versions - {id};
          assert scheduled == old(scheduled) - {id};
          rollback := Some(resume);
        } else {
          assert scheduled == old(scheduled) + {id};
        }
      } else {
        versions := versions - {id};
        rollback := Some(resume);
      }
    }

    /** A worker's `get`; None when it should look again, or stop because the queue has drained. */
    method Get() returns (job: Option<Machine.Job>, stop: bool)
      modifies this`queue
      ensures job.Some? <==> old(queue) != []
      ensures job.Some? ==> job.value == old(queue)[0] && queue == old(queue)[1..] && !stop
      ensures job.None? ==> queue == old(queue) && (stop <==> closing)
    {
      job, stop := None, false;
      if closing && queue == [] {
        return None, true;
      }
      if queue != [] {
        job, queue := Some(queue[0]), queue[1..];
      }
    }

    method Shutdown()
      modifies this`closing
      ensures Board() == old(Board()).(closing := true)
    {
      closing := true;
    }
  }
}
