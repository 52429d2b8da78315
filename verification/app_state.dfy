/**
 The registry as the objects of the running program: a map from device id to handle, updated
 in place under its lock, and the pipeline tasks the handles own.  Each method is one
 critical section and carries out the step of the registry model of the same name.
 */
module AppStates {
  import opened Registry
  import opened RegistryLiveness

  // A cancelled, reaped or finished task does nothing any more.
  predicate Over(t: TaskState) {
    t != Running && t != Disconnected
  }

  class PipelineTask {
    const id: DeviceId
    ghost const index: nat
    var state: TaskState

    constructor (id: DeviceId, ghost index: nat)
      ensures this.id == id && this.index == index && state == Running
    {
      this.id, this.index, state := id, index, Running;
    }

    // Cancels the task at its next suspension point, waiting for the registry lock included.
    method Abort()
      modifies this
      ensures state == Aborting(old(state)) && Over(state)
    {
      if state == Running || state == Disconnected {
        state := Aborted;
      }
    }
  }

  class DeviceHandle {
    const id: DeviceId
    const task: PipelineTask
    var stop: bool
    var mounting: int

    constructor (id: DeviceId, task: PipelineTask, mounting: int)
      ensures this.id == id && this.task == task && !stop && this.mounting == mounting
    {
      this.id, this.task, stop, this.mounting := id, task, false, mounting;
    }

    method StopAndAbort()
      modifies this`stop, task
      ensures stop && task.state == Aborting(old(task.state)) && Over(task.state)
    {
      stop := true;
      task.Abort();
    }
  }

  class AppState {
    var devices: map<DeviceId, DeviceHandle>
    var announced: seq<DeviceId>
    ghost var spawned: seq<PipelineTask>
    ghost var model: State

    ghost predicate TasksMatch(tasks: seq<Task>)
      reads this`spawned, spawned
    {
      && |spawned| == |tasks|
      && forall g :: 0 <= g < |spawned| ==>
           spawned[g].index == g && spawned[g].id == tasks[g].id && spawned[g].state == tasks[g].state
    }

    ghost predicate DevicesMatch(entries: map<DeviceId, nat>)
      reads this`devices, this`spawned
    {
      && devices.Keys == entries.Keys
      && forall k :: k in devices ==>
           entries[k] < |spawned| && devices[k].task == spawned[entries[k]] && devices[k].id == k
    }

    ghost predicate Valid()
      reads this`devices, this`spawned, this`model, spawned
    {
      TasksMatch(model.tasks) && DevicesMatch(model.devices) && WellFormed(model)
    }

    constructor ()
      ensures Valid() && model == INIT && announced == []
    {
      devices, announced, spawned, model := map[], [], [], INIT;
    }

    // A task of a registry from which some entries are gone: cancelled if its entry is one of them.
    ghost predicate TaskSo(g: nat)
      requires g < |spawned| == |model.tasks|
      reads this, spawned
    {
      && spawned[g].index == g && spawned[g].id == model.tasks[g].id
      && spawned[g].state == if Holds(model, g) && spawned[g].id !in devices then Aborting(model.tasks[g].state)
                             else model.tasks[g].state
    }

    ghost predicate TasksSo()
      reads this, spawned
    {
      |spawned| == |model.tasks| && forall g: nat :: g < |spawned| ==> TaskSo(g)
    }

    method RemoveAndStop(did: DeviceId, h: DeviceHandle)
      requires TasksSo() && did in devices && devices[did] == h
      requires did in model.devices && model.devices[did] < |spawned|
      requires h.task == spawned[model.devices[did]] && h.task.id == did
      modifies this`devices, h`stop, h.task
      ensures TasksSo() && h.stop && spawned == old(spawned) && model == old(model)
      ensures forall k :: k in devices <==> k in old(devices) && k != did
      ensures forall k :: k in devices ==> devices[k] == old(devices)[k]
    {
      ghost var e := model.devices[did];
      assert TaskSo(e);
      devices := devices - {did};
      h.StopAndAbort();
      forall g: nat | g < |spawned|
        ensures TaskSo(g)
      {
        assert old(TaskSo(g));
      }
    }

    // What Valid says of the handles, entry by entry; ids tell them apart.
    ghost predicate Handles(entries: map<DeviceId, DeviceHandle>)
      reads this
    {
      forall k :: k in entries ==>
        && k in model.devices && model.devices[k] < |spawned|
        && entries[k].id == k && entries[k].task == spawned[model.devices[k]] && entries[k].task.id == k
    }

    method RemoveStale(stale: set<DeviceId>)
      requires TasksSo() && Handles(devices) && stale <= devices.Keys
      modifies this`devices, devices.Values`stop, spawned
      ensures TasksSo() && spawned == old(spawned) && model == old(model)
      ensures forall k :: k in devices <==> k in old(devices) && k !in stale
      ensures forall k :: k in devices ==> devices[k] == old(devices)[k]
      ensures forall k :: k in old(devices) ==> old(devices)[k].stop == (k in stale || old(devices[k].stop))
    {
      ghost var all := devices;
      var left := stale;
      while left != {}
        invariant left <= stale
        invariant forall k :: k in devices <==> k in all && (k in stale ==> k in left)
        invariant forall k :: k in devices ==> devices[k] == all[k]
        invariant forall k :: k in all ==> all[k].stop == ((k in stale && k !in left) || old(devices[k].stop))
        invariant TasksSo() && spawned == old(spawned) && model == old(model)
        decreases left
      {
        var did :| did in left;
        assert devices[did] == all[did];
        RemoveAndStop(did, devices[did]);
        left := left - {did};
      }
    }

    lemma Evicted(r: nat, id: DeviceId)
      requires TasksSo() && Handles(devices)
      requires forall k :: k in devices <==> k in model.devices && !SameMac(k, id)
      ensures TasksMatch(EvictStep(model, r, id).tasks) && DevicesMatch(EvictStep(model, r, id).devices)
    {
      var tasks := EvictStep(model, r, id).tasks;
      forall g: nat | g < |spawned|
        ensures spawned[g].index == g && spawned[g].id == tasks[g].id && spawned[g].state == tasks[g].state
      {
        assert TaskSo(g);
      }
    }

    method StopStale(id: DeviceId)
      requires Valid()
      modifies this`devices, devices.Values`stop, spawned
      ensures TasksSo() && Handles(devices) && spawned == old(spawned) && model == old(model)
      ensures forall k :: k in devices <==> k in old(devices) && !SameMac(k, id)
      ensures forall k :: k in devices ==> devices[k] == old(devices)[k]
      ensures forall k :: k in old(devices) ==> old(devices)[k].stop == (SameMac(k, id) || old(devices[k].stop))
    {
      assert Handles(devices);
      var stale := set did | did in devices && SameMac(did, id);
      RemoveStale(stale);
    }

    // The first critical section: drop every entry under another id with the same MAC, stopping its task.
    method Evict(ghost r: nat, id: DeviceId)
      requires Valid() && Pc(model, r).Idle?
      modifies this`devices, this`model, devices.Values`stop, spawned
      ensures Valid() && model == Step(old(model), Registry.Evict(r, id)) && spawned == old(spawned)
      ensures forall k :: k in devices <==> k in old(devices) && !SameMac(k, id)
      ensures forall k :: k in devices ==> devices[k] == old(devices)[k]
      ensures forall k :: k in old(devices) ==> old(devices)[k].stop == (SameMac(k, id) || old(devices[k].stop))
    {
      StepWellFormed(model, Registry.Evict(r, id));
      StopStale(id);
      Evicted(r, id);
      model := EvictStep(model, r, id);
    }

    // After it the tasks of those entries are over, whoever else still holds them.
    lemma StaleAreOver(was: State, r: nat, id: DeviceId, g: nat)
      requires Valid() && Pc(was, r).Idle? && model == Step(was, Registry.Evict(r, id))
      requires Holds(was, g) && SameMac(was.tasks[g].id, id)
      ensures g < |spawned| && spawned[g].id == was.tasks[g].id && Over(spawned[g].state)
    {
      StepLiveIff(was, Registry.Evict(r, id), g);
    }

    // Between the two critical sections: the task is running before its entry exists.
    method Spawn(ghost r: nat, id: DeviceId) returns (task: PipelineTask)
      requires Valid() && Pc(model, r) == Cleared(id)
      modifies this`spawned, this`model
      ensures Valid() && model == Step(old(model), Registry.Spawn(r))
      ensures fresh(task) && task.id == id && task.index == |old(spawned)| && spawned == old(spawned) + [task]
    {
      task := new PipelineTask(id, |spawned|);
      StepWellFormed(model, Registry.Spawn(r));
      spawned := spawned + [task];
      model := Step(model, Registry.Spawn(r));
    }

    // The second critical section: whatever entry the id had is replaced without being stopped.
    method Insert(ghost r: nat, task: PipelineTask, mounting: int)
      requires Valid() && Pc(model, r) == Spawned(task.index) && task.index < |spawned| && spawned[task.index] == task
      modifies this`devices, this`model
      ensures Valid() && model == Step(old(model), Registry.Insert(r)) && spawned == old(spawned)
      ensures devices == old(devices)[task.id := devices[task.id]]
      ensures fresh(devices[task.id]) && !devices[task.id].stop && devices[task.id].mounting == mounting
    {
      var handle := new DeviceHandle(task.id, task, mounting);
      StepWellFormed(model, Registry.Insert(r));
      devices := devices[task.id := handle];
      model := Step(model, Registry.Insert(r));
    }

    // The three parts in a row, as they run when nothing comes between them, and the announcement after them.
    method RegisterDevice(ghost r: nat, id: DeviceId, mounting: int)
      requires Valid() && Pc(model, r).Idle?
      modifies this, devices.Values`stop, spawned
      ensures Valid()
      ensures model == Step(Step(Step(old(model), Registry.Evict(r, id)), Registry.Spawn(r)), Registry.Insert(r))
      ensures id in devices && fresh(devices[id]) && devices[id].mounting == mounting
      ensures forall k :: k in devices <==> k == id || (k in old(devices) && k.mac != id.mac)
      ensures announced == old(announced) + [id]
    {
      Evict(r, id);
      ghost var entries := devices;
      var task := Spawn(r, id);
      Insert(r, task, mounting);
      assert forall k :: k in devices <==> k == id || k in entries;
      announced := announced + [id];
    }

    // The pipeline of a task returns: with the error of a lost route, or for another reason.
    method Finish(task: PipelineTask, disconnected: bool)
      requires Valid() && task.index < |spawned| && spawned[task.index] == task
      modifies this`model, task
      ensures Valid() && spawned == old(spawned)
      ensures model == Step(old(model), if disconnected then Disconnect(task.index) else Exit(task.index))
    {
      ghost var a := if disconnected then Disconnect(task.index) else Exit(task.index);
      StepWellFormed(model, a);
      if task.state == Running {
        task.state := if disconnected then Disconnected else Exited;
      }
      model := Step(model, a);
    }

    // What the model says once the task is reaped: its own state, one entry less, and nothing else.
    lemma ReapedMatches(task: PipelineTask)
      requires Valid() && task.index < |spawned| && spawned[task.index] == task
      ensures var reaped, g := ReapStep(model, task.index), task.index;
              && task.id == model.tasks[g].id && |reaped.tasks| == |spawned|
              && reaped.tasks[g].id == task.id && reaped.tasks[g].state == Reaped
              && reaped.devices.Keys == devices.Keys - {task.id}
      ensures var reaped := ReapStep(model, task.index);
              && (forall h: nat :: h < |spawned| && h != task.index ==>
                    spawned[h] != task && spawned[h].index == h &&
                    spawned[h].id == reaped.tasks[h].id && spawned[h].state == reaped.tasks[h].state)
              && (forall k :: k in reaped.devices ==>
                    reaped.devices[k] < |spawned| && devices[k].task == spawned[reaped.devices[k]] &&
                    devices[k].id == k)
    {
    }

    method RemoveOwn(task: PipelineTask)
      requires Valid() && task.index < |spawned| && spawned[task.index] == task && task.state == Disconnected
      modifies this`devices, this`model, task
      ensures Valid() && model == ReapStep(old(model), task.index) && spawned == old(spawned)
      ensures devices == old(devices) - {task.id}
    {
      ReapedMatches(task);
      StepWellFormed(model, Registry.Reap(task.index));
      devices := devices - {task.id};
      task.state := Reaped;
      model := ReapStep(model, task.index);
    }

    // The task of a lost route takes the lock and removes its id, unless it was cancelled first.
    method Reap(task: PipelineTask)
      requires Valid() && task.index < |spawned| && spawned[task.index] == task
      modifies this`devices, this`model, task
      ensures Valid() && model == Step(old(model), Registry.Reap(task.index)) && spawned == old(spawned)
      ensures devices == if old(task.state) == Disconnected then old(devices) - {task.id} else old(devices)
    {
      if task.state == Disconnected {
        RemoveOwn(task);
      }
    }

    static method StopAll(drained: map<DeviceId, DeviceHandle>)
      modifies drained.Values`stop
      ensures forall k :: k in drained ==> drained[k].stop
    {
      var left := drained.Keys;
      while left != {}
        invariant left <= drained.Keys
        invariant forall k :: k in drained && k !in left ==> drained[k].stop
        decreases left
      {
        var k :| k in left;
        drained[k].stop := true;
        left := left - {k};
      }
    }

    // Drains the map under the lock, then signals every handle it held.
    method Shutdown()
      requires Valid()
      modifies this`devices, this`model, devices.Values`stop
      ensures Valid() && model == Step(old(model), Registry.Shutdown) && spawned == old(spawned)
      ensures devices == map[] && forall k :: k in old(devices) ==> old(devices[k]).stop
    {
      var drained := devices;
      StepWellFormed(model, Registry.Shutdown);
      devices := map[];
      model := Step(model, Registry.Shutdown);
      StopAll(drained);
    }

    // Only the first of these entries has its mounting changed.
    twostate predicate OnlyMountingOf(k: DeviceId, mounting: int)
      requires k in old(devices) && devices == old(devices)
      reads this, devices.Values
    {
      devices[k].mounting == mounting &&
      forall l :: l in devices && l != k ==> devices[l].mounting == old(devices[l].mounting)
    }

    // The setters look a device up by MAC and change whatever entry they meet first.
    // When MACs are unique that is every entry there is.
    method SetMounting(mac: seq<int>, mounting: int) returns (found: bool)
      requires Valid()
      modifies devices.Values`mounting
      ensures Valid() && found == exists k :: k in devices && k.mac == mac
      ensures if found then exists k :: k in devices && k.mac == mac && OnlyMountingOf(k, mounting)
              else forall k :: k in devices ==> devices[k].mounting == old(devices[k].mounting)
      ensures UniqueMacs(model) ==> forall k :: k in devices ==>
                devices[k].mounting == if k.mac == mac then mounting else old(devices[k].mounting)
    {
      var left := devices.Keys;
      while left != {}
        invariant left <= devices.Keys && Valid()
        invariant forall k :: k in devices && k !in left ==> k.mac != mac
        invariant forall k :: k in devices ==> devices[k].mounting == old(devices[k].mounting)
        decreases left
      {
        var k :| k in left;
        if k.mac == mac {
          devices[k].mounting := mounting;
          assert OnlyMountingOf(k, mounting);
          return true;
        }
        left := left - {k};
      }
      found := false;
    }
  }
}
