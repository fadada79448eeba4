// Counted mounts of devices (devicemapper.go).
module Devicemappers {
  import opened Options

  // Which of the calls that Mount makes fail: making a directory, mounting the
  // device, finding "rootfs" in it, and making an empty directory instead.
  datatype MountFaults = MountFaults(tempDir: bool, device: bool, rootfs: bool, emptyDir: bool)

  // Mount fails before it counts, or after it, or hands out a release.
  datatype Outcome = Refused | Leaked | Handed

  // How often each device is mounted, and the devices really mounted.
  datatype Ledger = Ledger(counts: map<string, nat>, devices: set<string>)

  function Count(l: Ledger, id: string): nat {
    if id in l.counts then l.counts[id] else 0
  }

  function OutcomeOf(l: Ledger, id: string, faults: MountFaults): Outcome {
    if (id !in l.counts && faults.tempDir) || (Count(l, id) == 0 && faults.device) then Refused
    else if faults.rootfs && faults.emptyDir then Leaked
    else Handed
  }

  function Entered(l: Ledger, id: string): Ledger {
    if id in l.counts then l else l.(counts := l.counts[id := 0])
  }

  function Taken(l: Ledger, id: string): Ledger {
    Ledger(l.counts[id := Count(l, id) + 1], l.devices + {id})
  }

  function Mounted(l: Ledger, id: string, faults: MountFaults): Ledger {
    if id !in l.counts && faults.tempDir then l
    else if Count(l, id) == 0 && faults.device then Entered(l, id)
    else Taken(Entered(l, id), id)
  }

  // The last count goes with its entry, even if unmounting the device fails.
  function Unmounted(l: Ledger, id: string, unmountFails: bool): Ledger
    requires Count(l, id) > 0
  {
    if Count(l, id) > 1 then l.(counts := l.counts[id := Count(l, id) - 1])
    else Ledger(l.counts - {id}, if unmountFails then l.devices else l.devices - {id})
  }

  lemma HandedExactly(l: Ledger, id: string, faults: MountFaults)
    ensures OutcomeOf(l, id, faults) == Handed <==>
              && (id in l.counts || !faults.tempDir)
              && (Count(l, id) > 0 || !faults.device)
              && !(faults.rootfs && faults.emptyDir)
    ensures OutcomeOf(l, id, faults) != Refused <==>
              (id in l.counts || !faults.tempDir) && (Count(l, id) > 0 || !faults.device)
  {
  }

  lemma MountedIs(l: Ledger, id: string, faults: MountFaults, k: string)
    ensures var l' := Mounted(l, id, faults);
            var taken := k == id && OutcomeOf(l, id, faults) != Refused;
            && Count(l', k) == Count(l, k) + (if taken then 1 else 0)
            && (k in l'.devices <==> k in l.devices || taken)
  {
  }

  lemma UnmountedIs(l: Ledger, id: string, unmountFails: bool, k: string)
    requires Count(l, id) > 0
    ensures var l' := Unmounted(l, id, unmountFails);
            && Count(l', k) == Count(l, k) - (if k == id then 1 else 0)
            && (k in l'.devices <==> k in l.devices && !(k == id && Count(l, id) == 1 && !unmountFails))
  {
  }

  // ---- Runs ----

  // A caller of Mount, or a stream: between its two mounts, before its tar or diff,
  // open with the releases it will call, in order, or calling them.
  datatype Task =
    | Mounting(id: string, parent: string)
    | Taring(id: string)
    | Diffing(id: string, parent: string)
    | Open(owes: seq<string>)
    | Releasing(owes: seq<string>)

  // The releases a task still has to call.
  function Owes(t: Task): seq<string> {
    match t
    case Mounting(id, _) => [id]
    case Taring(id) => [id]
    case Diffing(id, parent) => [parent, id]
    case Open(owes) => owes
    case Releasing(owes) => owes
  }

  datatype State = State(ledger: Ledger, tasks: seq<Task>)

  // One stretch of code under the lock, or one outcome of a tar or diff. Those of
  // different tasks run in any order.
  datatype Step =
    | MountFor(id: string, faults: MountFaults)
    | StreamStart(id: string, parent: string, faults: MountFaults)
    | StreamParent(k: nat, faults: MountFaults)
    | StreamTar(k: nat, fails: bool)
    | Close(k: nat)
    | ReleaseNext(k: nat, unmountFails: bool)

  const START := State(Ledger(map[], {}), [])

  function Times(ids: seq<string>, id: string): nat {
    if ids == [] then 0 else Times(ids[1..], id) + if ids[0] == id then 1 else 0
  }

  lemma TimesRest(ids: seq<string>, id: string)
    requires ids != []
    ensures Times(ids, id) == Times(ids[1..], id) + if ids[0] == id then 1 else 0
  {
  }

  lemma TimesFew(a: string, b: string, id: string)
    ensures Times([], id) == 0
    ensures Times([a], id) == if a == id then 1 else 0
    ensures Times([a, b], id) == (if a == id then 1 else 0) + if b == id then 1 else 0
  {
    assert [a][1..] == [] && [b][1..] == [] && [a, b][1..] == [b];
  }

  // How many releases of the device are still to be called.
  function Owed(tasks: seq<Task>, id: string): nat {
    if tasks == [] then 0 else Owed(tasks[..|tasks| - 1], id) + Times(Owes(tasks[|tasks| - 1]), id)
  }

  // Every release to be called has its count. A count beyond these is lost.
  ghost predicate Covered(s: State) {
    forall id {:trigger Owed(s.tasks, id)} :: Owed(s.tasks, id) <= Count(s.ledger, id)
  }

  function Lost(s: State, id: string): int {
    Count(s.ledger, id) - Owed(s.tasks, id)
  }

  // A step that its task is not ready for does nothing.
  function Next(s: State, step: Step): State
    requires Covered(s)
  {
    match step
    case MountFor(id, faults) =>
      State(Mounted(s.ledger, id, faults),
            if OutcomeOf(s.ledger, id, faults) == Handed then s.tasks + [Open([id])] else s.tasks)
    case StreamStart(id, parent, faults) =>
      State(Mounted(s.ledger, id, faults),
            if OutcomeOf(s.ledger, id, faults) != Handed then s.tasks
            else s.tasks + [if parent == "" then Taring(id) else Mounting(id, parent)])
    case StreamParent(k, faults) =>
      if k < |s.tasks| && s.tasks[k].Mounting? then
        var Mounting(id, parent) := s.tasks[k];
        var handed := OutcomeOf(s.ledger, parent, faults) == Handed;
        State(Mounted(s.ledger, parent, faults), s.tasks[k := if handed then Diffing(id, parent) else Releasing([id])])
      else s
    case StreamTar(k, fails) =>
      if k < |s.tasks| && s.tasks[k].Taring? then
        s.(tasks := s.tasks[k := if fails then Releasing([]) else Open([s.tasks[k].id])])
      else if k < |s.tasks| && s.tasks[k].Diffing? then
        var owes := [s.tasks[k].parent, s.tasks[k].id];
        s.(tasks := s.tasks[k := if fails then Releasing(owes) else Open(owes)])
      else s
    case Close(k) =>
      if k < |s.tasks| && s.tasks[k].Open? then s.(tasks := s.tasks[k := Releasing(s.tasks[k].owes)])
      else s
    case ReleaseNext(k, unmountFails) =>
      if k < |s.tasks| && s.tasks[k].Releasing? && s.tasks[k].owes != [] then
        var owes := s.tasks[k].owes;
        OwedIsCounted(s, k);
        State(Unmounted(s.ledger, owes[0], unmountFails), s.tasks[k := Releasing(owes[1..])])
      else s
  }

  function After(s: State, steps: seq<Step>): (r: State)
    requires Covered(s)
    ensures Covered(r)
  {
    if steps == [] then s
    else
      var before := After(s, steps[..|steps| - 1]);
      NextKeepsCovered(before, steps[|steps| - 1]);
      Next(before, steps[|steps| - 1])
  }

  // The device that a step mounts or counts once more.
  function TakenBy(s: State, step: Step): Option<string> {
    match step
    case MountFor(id, faults) => if OutcomeOf(s.ledger, id, faults) != Refused then Some(id) else None
    case StreamStart(id, _, faults) => if OutcomeOf(s.ledger, id, faults) != Refused then Some(id) else None
    case StreamParent(k, faults) =>
      if k < |s.tasks| && s.tasks[k].Mounting? && OutcomeOf(s.ledger, s.tasks[k].parent, faults) != Refused
      then Some(s.tasks[k].parent) else None
    case _ => None
  }

  // The device of which a step leaves a count without a release: if Mount fails
  // after counting, or a tar without a parent fails.
  function LeakedBy(s: State, step: Step): Option<string> {
    match step
    case MountFor(id, faults) => if OutcomeOf(s.ledger, id, faults) == Leaked then Some(id) else None
    case StreamStart(id, _, faults) => if OutcomeOf(s.ledger, id, faults) == Leaked then Some(id) else None
    case StreamParent(k, faults) =>
      if k < |s.tasks| && s.tasks[k].Mounting? && OutcomeOf(s.ledger, s.tasks[k].parent, faults) == Leaked
      then Some(s.tasks[k].parent) else None
    case StreamTar(k, fails) => if k < |s.tasks| && s.tasks[k].Taring? && fails then Some(s.tasks[k].id) else None
    case _ => None
  }

  // The device that a step gives up the last count of and fails to unmount.
  function StuckBy(s: State, step: Step): Option<string> {
    match step
    case ReleaseNext(k, unmountFails) =>
      if && k < |s.tasks| && s.tasks[k].Releasing? && s.tasks[k].owes != []
         && unmountFails && Count(s.ledger, s.tasks[k].owes[0]) == 1
      then Some(s.tasks[k].owes[0]) else None
    case _ => None
  }

  // ---- What every step keeps ----

  lemma {:induction false} OwedByTask(tasks: seq<Task>, k: nat, id: string)
    requires k < |tasks|
    ensures Times(Owes(tasks[k]), id) <= Owed(tasks, id)
  {
    if k < |tasks| - 1 {
      OwedByTask(tasks[..|tasks| - 1], k, id);
    }
  }

  // A release finds its device counted.
  lemma OwedIsCounted(s: State, k: nat)
    requires Covered(s) && k < |s.tasks| && Owes(s.tasks[k]) != []
    ensures Count(s.ledger, Owes(s.tasks[k])[0]) > 0
  {
    OwedByTask(s.tasks, k, Owes(s.tasks[k])[0]);
  }

  lemma {:induction false} OwedAfterUpdate(tasks: seq<Task>, k: nat, t: Task, id: string)
    requires k < |tasks|
    ensures Owed(tasks[k := t], id) == Owed(tasks, id) - Times(Owes(tasks[k]), id) + Times(Owes(t), id)
  {
    var n := |tasks| - 1;
    if k < n {
      OwedAfterUpdate(tasks[..n], k, t, id);
      assert tasks[k := t][..n] == tasks[..n][k := t];
    } else {
      assert tasks[k := t][..n] == tasks[..n];
    }
  }

  lemma OwedAfterAppend(tasks: seq<Task>, t: Task, id: string)
    ensures Owed(tasks + [t], id) == Owed(tasks, id) + Times(Owes(t), id)
  {
    assert (tasks + [t])[..|tasks|] == tasks;
  }

  // A step loses a count exactly if it leaks one; nothing gets a lost count back.
  lemma NextLoses(s: State, step: Step, id: string)
    requires Covered(s)
    ensures Lost(Next(s, step), id) == Lost(s, id) + if LeakedBy(s, step) == Some(id) then 1 else 0
  {
    hide Owed, Covered, Mounted, OutcomeOf, Unmounted, Count, Times;
    match step {
      case MountFor(i, faults) =>
        MountedIs(s.ledger, i, faults, id);
        TimesFew(i, i, id);
        OwedAfterAppend(s.tasks, Open([i]), id);
      case StreamStart(i, parent, faults) =>
        MountedIs(s.ledger, i, faults, id);
        TimesFew(i, i, id);
        OwedAfterAppend(s.tasks, if parent == "" then Taring(i) else Mounting(i, parent), id);
      case StreamParent(k, faults) =>
        StepOwes(s, step, k, id);
        if k < |s.tasks| && s.tasks[k].Mounting? {
          MountedIs(s.ledger, s.tasks[k].parent, faults, id);
          TimesFew(s.tasks[k].parent, s.tasks[k].id, id);
          TimesFew(s.tasks[k].id, s.tasks[k].id, id);
        }
      case StreamTar(k, _) =>
        StepOwes(s, step, k, id);
        if k < |s.tasks| && s.tasks[k].Taring? {
          TimesFew(s.tasks[k].id, s.tasks[k].id, id);
        }
      case Close(k) => StepOwes(s, step, k, id);
      case ReleaseNext(k, unmountFails) =>
        if k < |s.tasks| && s.tasks[k].Releasing? && s.tasks[k].owes != [] {
          ReleaseLoses(s, k, unmountFails, id);
        }
    }
  }

  lemma StepOwes(s: State, step: Step, k: nat, id: string)
    requires Covered(s) && (step.StreamParent? || step.StreamTar? || step.Close?) && step.k == k
    ensures var tasks := Next(s, step).tasks;
            if k < |s.tasks| then
              && |tasks| == |s.tasks|
              && Owed(tasks, id) == Owed(s.tasks, id) - Times(Owes(s.tasks[k]), id) + Times(Owes(tasks[k]), id)
            else tasks == s.tasks
  {
    hide Owed, Covered, Owes, Times, Mounted, OutcomeOf, Unmounted, Count;
    var tasks := Next(s, step).tasks;
    if k < |s.tasks| {
      OwedAfterUpdate(s.tasks, k, tasks[k], id);
      assert tasks == s.tasks[k := tasks[k]];
    }
  }

  lemma ReleaseLoses(s: State, k: nat, unmountFails: bool, id: string)
    requires Covered(s) && k < |s.tasks| && s.tasks[k].Releasing? && s.tasks[k].owes != []
    ensures Lost(Next(s, ReleaseNext(k, unmountFails)), id) == Lost(s, id)
  {
    var owes := s.tasks[k].owes;
    OwedIsCounted(s, k);
    OwedAfterUpdate(s.tasks, k, Releasing(owes[1..]), id);
  }

  lemma NextKeepsCovered(s: State, step: Step)
    requires Covered(s)
    ensures Covered(Next(s, step))
  {
    forall id ensures Owed(Next(s, step).tasks, id) <= Count(Next(s, step).ledger, id) {
      NextLoses(s, step, id);
    }
  }

  // Mounted without a count: the last unmount failed.
  predicate Stuck(l: Ledger, id: string) {
    id in l.devices && Count(l, id) == 0
  }

  ghost predicate CountedAreMounted(l: Ledger) {
    forall id {:trigger id in l.devices} :: Count(l, id) > 0 ==> id in l.devices
  }

  lemma NextSticks(s: State, step: Step, id: string)
    requires Covered(s) && CountedAreMounted(s.ledger)
    ensures CountedAreMounted(Next(s, step).ledger)
    ensures Stuck(Next(s, step).ledger, id) <==>
              StuckBy(s, step) == Some(id) || (Stuck(s.ledger, id) && TakenBy(s, step) != Some(id))
  {
    hide Owed;
    if step.ReleaseNext? && step.k < |s.tasks| && Owes(s.tasks[step.k]) != [] {
      OwedIsCounted(s, step.k);
    }
  }

  // ---- What holds over every run ----

  // How many steps of the run leaked a count of the device.
  function Leaks(s: State, steps: seq<Step>, id: string): nat
    requires Covered(s)
  {
    if steps == [] then 0
    else
      var before := steps[..|steps| - 1];
      Leaks(s, before, id) + if LeakedBy(After(s, before), steps[|steps| - 1]) == Some(id) then 1 else 0
  }

  // In any run the counts that no release is left for are those leaked, one for each step.
  lemma {:induction false} RunLoses(s: State, steps: seq<Step>, id: string)
    requires Covered(s)
    ensures Lost(After(s, steps), id) == Lost(s, id) + Leaks(s, steps, id)
  {
    if steps != [] {
      var before := steps[..|steps| - 1];
      RunLoses(s, before, id);
      NextLoses(After(s, before), steps[|steps| - 1], id);
    }
  }

  lemma {:induction false} RunKeepsMounted(s: State, steps: seq<Step>)
    requires Covered(s) && CountedAreMounted(s.ledger)
    ensures CountedAreMounted(After(s, steps).ledger)
  {
    if steps != [] {
      var before := steps[..|steps| - 1];
      RunKeepsMounted(s, before);
      NextSticks(After(s, before), steps[|steps| - 1], "");
    }
  }

  // A device with a lost count stays counted and mounted, whatever is called later.
  lemma LostForGood(s: State, steps: seq<Step>, id: string)
    requires Covered(s) && CountedAreMounted(s.ledger) && Lost(s, id) > 0
    ensures id in After(s, steps).ledger.counts && id in After(s, steps).ledger.devices
  {
    RunLoses(s, steps, id);
    RunKeepsMounted(s, steps);
  }

  // Step i of the run fails to unmount the device, and no later step mounts it again.
  ghost predicate LeftStuckAt(s: State, steps: seq<Step>, id: string, i: nat)
    requires Covered(s) && i < |steps|
  {
    && StuckBy(After(s, steps[..i]), steps[i]) == Some(id)
    && forall j | i < j < |steps| :: TakenBy(After(s, steps[..j]), steps[j]) != Some(id)
  }

  ghost predicate LeftStuck(s: State, steps: seq<Step>, id: string)
    requires Covered(s)
  {
    exists i: nat | i < |steps| :: LeftStuckAt(s, steps, id, i)
  }

  lemma LeftStuckStep(s: State, steps: seq<Step>, step: Step, id: string)
    requires Covered(s)
    ensures LeftStuck(s, steps + [step], id) <==>
              || StuckBy(After(s, steps), step) == Some(id)
              || (LeftStuck(s, steps, id) && TakenBy(After(s, steps), step) != Some(id))
  {
    hide StuckBy, TakenBy;
    var n := |steps|;
    var all := steps + [step];
    assert all[..n] == steps;
    assert forall j | 0 <= j < n :: all[..j] == steps[..j] && all[j] == steps[j];
    assert LeftStuckAt(s, all, id, n) <==> StuckBy(After(s, steps), step) == Some(id);
    forall i: nat | i < n
      ensures LeftStuckAt(s, all, id, i) <==> LeftStuckAt(s, steps, id, i) && TakenBy(After(s, steps), step) != Some(id)
    {
      if LeftStuckAt(s, all, id, i) {
        assert TakenBy(After(s, all[..n]), all[n]) != Some(id);
        forall j | i < j < n ensures TakenBy(After(s, steps[..j]), steps[j]) != Some(id) {
          assert TakenBy(After(s, all[..j]), all[j]) != Some(id);
        }
      }
    }
  }

  // In every reachable state a device is mounted exactly if a release of it is still
  // to be called, or a step leaked one, or its last unmount failed.
  lemma {:induction false} MountedExactly(steps: seq<Step>, id: string)
    ensures id in After(START, steps).ledger.devices <==>
              Owed(After(START, steps).tasks, id) > 0 || Leaks(START, steps, id) > 0 || LeftStuck(START, steps, id)
    ensures Count(After(START, steps).ledger, id) == Owed(After(START, steps).tasks, id) + Leaks(START, steps, id)
  {
    RunLoses(START, steps, id);
    RunKeepsMounted(START, steps);
    StuckExactly(steps, id);
  }

  lemma {:induction false} StuckExactly(steps: seq<Step>, id: string)
    ensures Stuck(After(START, steps).ledger, id) <==> LeftStuck(START, steps, id)
  {
    if steps != [] {
      var before, step := steps[..|steps| - 1], steps[|steps| - 1];
      assert steps == before + [step];
      StuckExactly(before, id);
      RunKeepsMounted(START, before);
      NextSticks(After(START, before), step, id);
      LeftStuckStep(START, before, step, id);
    }
  }

  // ---- What a run gives back ----

  // A caller or stream opens exactly if its Mount hands out a release, or its tar or
  // diff succeeds; with it the releases it will call, in order.
  lemma OpensExactly(s: State, step: Step, k: nat)
    requires Covered(s) && k < |Next(s, step).tasks| && (k < |s.tasks| ==> !s.tasks[k].Open?)
    ensures var t := Next(s, step).tasks[k];
            && (t.Open? <==>
                  || (k == |s.tasks| && step.MountFor?)
                  || (k < |s.tasks| && step == StreamTar(k, false) && (s.tasks[k].Taring? || s.tasks[k].Diffing?)))
            && (t.Open? && k < |s.tasks| ==>
                  t.owes == if s.tasks[k].Taring? then [s.tasks[k].id] else [s.tasks[k].parent, s.tasks[k].id])
            && (t.Open? && k == |s.tasks| ==> t.owes == [step.id] && OutcomeOf(s.ledger, step.id, step.faults) == Handed)
  {
  }

  // How many steps a task has still to go, if nothing fails.
  function StepsLeft(t: Task): nat {
    match t
    case Mounting(_, _) => 5
    case Taring(_) => 3
    case Diffing(_, _) => 4
    case Open(owes) => |owes| + 1
    case Releasing(owes) => |owes|
  }

  function AllStepsLeft(tasks: seq<Task>): nat {
    if tasks == [] then 0 else AllStepsLeft(tasks[..|tasks| - 1]) + StepsLeft(tasks[|tasks| - 1])
  }

  lemma {:induction false} AllStepsLeftAfter(tasks: seq<Task>, k: nat, t: Task)
    requires k < |tasks|
    ensures AllStepsLeft(tasks[k := t]) == AllStepsLeft(tasks) - StepsLeft(tasks[k]) + StepsLeft(t)
  {
    var n := |tasks| - 1;
    if k < n {
      AllStepsLeftAfter(tasks[..n], k, t);
      assert tasks[k := t][..n] == tasks[..n][k := t];
    } else {
      assert tasks[k := t][..n] == tasks[..n];
    }
  }

  predicate Finished(s: State) {
    forall k | 0 <= k < |s.tasks| :: s.tasks[k] == Releasing([])
  }

  // The next step of a task that nothing fails in.
  function NextOf(s: State, k: nat): Step
    requires k < |s.tasks| && s.tasks[k] != Releasing([])
  {
    match s.tasks[k]
    case Mounting(_, _) => StreamParent(k, MountFaults(false, false, false, false))
    case Taring(_) => StreamTar(k, false)
    case Diffing(_, _) => StreamTar(k, false)
    case Open(_) => Close(k)
    case Releasing(_) => ReleaseNext(k, false)
  }

  lemma NextOfIsProgress(s: State, k: nat)
    requires Covered(s) && k < |s.tasks| && s.tasks[k] != Releasing([])
    ensures AllStepsLeft(Next(s, NextOf(s, k)).tasks) < AllStepsLeft(s.tasks)
    ensures LeakedBy(s, NextOf(s, k)) == None && StuckBy(s, NextOf(s, k)) == None
  {
    var s' := Next(s, NextOf(s, k));
    AllStepsLeftAfter(s.tasks, k, s'.tasks[k]);
    assert s'.tasks == s.tasks[k := s'.tasks[k]];
  }

  lemma {:induction false} AfterFirst(s: State, step: Step, rest: seq<Step>)
    requires Covered(s)
    ensures Covered(Next(s, step)) && After(s, [step] + rest) == After(Next(s, step), rest)
  {
    hide Covered, Next;
    NextKeepsCovered(s, step);
    var steps := [step] + rest;
    if rest == [] {
      assert steps == [step] && steps[..0] == [];
      assert After(s, steps[..0]) == s;
    } else {
      AfterFirst(s, step, rest[..|rest| - 1]);
      assert steps[..|steps| - 1] == [step] + rest[..|rest| - 1];
    }
  }

  lemma {:induction false} NothingOwed(tasks: seq<Task>, id: string)
    requires forall k | 0 <= k < |tasks| :: tasks[k] == Releasing([])
    ensures Owed(tasks, id) == 0
  {
    if tasks != [] {
      NothingOwed(tasks[..|tasks| - 1], id);
    }
  }

  // From any state all callers and streams can be brought to their end. Then every
  // count is given back but for those lost before, and no unmount is left undone.
  lemma {:induction false} AllCanBeGivenBack(s: State) returns (steps: seq<Step>)
    requires Covered(s) && CountedAreMounted(s.ledger)
    ensures Finished(After(s, steps))
    ensures forall id :: Count(After(s, steps).ledger, id) == Lost(s, id)
    ensures forall id :: id in After(s, steps).ledger.devices ==> Lost(s, id) > 0 || Stuck(s.ledger, id)
    decreases AllStepsLeft(s.tasks)
  {
    if k: nat :| k < |s.tasks| && s.tasks[k] != Releasing([]) {
      var step := NextOf(s, k);
      NextOfIsProgress(s, k);
      NextKeepsCovered(s, step);
      NextSticks(s, step, "");
      var rest := AllCanBeGivenBack(Next(s, step));
      AfterFirst(s, step, rest);
      steps := [step] + rest;
      forall id ensures Lost(Next(s, step), id) == Lost(s, id) && (Stuck(Next(s, step).ledger, id) ==> Stuck(s.ledger, id)) {
        NextLoses(s, step, id);
        NextSticks(s, step, id);
      }
    } else {
      steps := [];
      forall id ensures Owed(s.tasks, id) == 0 {
        NothingOwed(s.tasks, id);
      }
    }
  }

  // ---- Streams on their own ----

  // A call of TarStream, what fails in it, and the devices that can't be unmounted.
  datatype StreamCall = StreamCall(
    id: string, parent: string,
    main: MountFaults, other: MountFaults, tarFails: bool, unmountFails: set<string>)

  // The releases of its stream, in order.
  function Releases(c: StreamCall): seq<string> {
    if c.parent == "" then [c.id] else [c.parent, c.id]
  }

  // What the mount of the parent makes of the state after the first mount.
  function ParentOutcome(l: Ledger, c: StreamCall): Outcome {
    OutcomeOf(Mounted(l, c.id, c.main), c.parent, c.other)
  }

  // TarStream's mounts hand out their releases, and the tar or diff succeeds.
  predicate Streams(l: Ledger, c: StreamCall) {
    OutcomeOf(l, c.id, c.main) == Handed && (c.parent == "" || ParentOutcome(l, c) == Handed) && !c.tarFails
  }

  function LostByTarStream(l: Ledger, c: StreamCall): Option<string> {
    match OutcomeOf(l, c.id, c.main)
    case Refused => None
    case Leaked => Some(c.id)
    case Handed =>
      if c.parent == "" then if c.tarFails then Some(c.id) else None
      else if ParentOutcome(l, c) == Leaked then Some(c.parent)
      else None
  }

  lemma StreamsExactly(l: Ledger, c: StreamCall)
    ensures Streams(l, c) <==>
              && (c.id in l.counts || !c.main.tempDir)
              && (Count(l, c.id) > 0 || !c.main.device)
              && !(c.main.rootfs && c.main.emptyDir)
              && (c.parent == "" ||
                    (&& (c.parent in l.counts || c.parent == c.id || !c.other.tempDir)
                     && (Count(l, c.parent) > 0 || c.parent == c.id || !c.other.device)
                     && !(c.other.rootfs && c.other.emptyDir)))
              && !c.tarFails
  {
    HandedExactly(l, c.id, c.main);
    HandedExactly(Mounted(l, c.id, c.main), c.parent, c.other);
    MountedIs(l, c.id, c.main, c.parent);
    hide OutcomeOf, Count;
  }

  // What TarStream gives back if it fails with a parent.
  function GivenBack(l: Ledger, c: StreamCall): set<string> {
    if OutcomeOf(l, c.id, c.main) != Handed || c.parent == "" then {}
    else {c.id} + if ParentOutcome(l, c) == Handed then {c.parent} else {}
  }

  // The state that TarStream leaves, if nothing else runs between its mounts.
  function TarStreamLedger(l: Ledger, c: StreamCall): Ledger {
    var l1 := Mounted(l, c.id, c.main);
    if OutcomeOf(l, c.id, c.main) != Handed || c.parent == "" then l1
    else
      var l2 := Mounted(l1, c.parent, c.other);
      if ParentOutcome(l, c) != Handed then Unmounted(l2, c.id, c.id in c.unmountFails)
      else if c.tarFails then
        Unmounted(Unmounted(l2, c.parent, c.parent in c.unmountFails), c.id, c.id in c.unmountFails)
      else l2
  }

  lemma TarStreamSteps(l: Ledger, c: StreamCall, k: string)
    ensures var l' := TarStreamLedger(l, c);
            && Count(l', k) == Count(l, k) +
                 (if Streams(l, c) then (if k == c.id then 1 else 0) + if c.parent != "" && k == c.parent then 1 else 0
                  else if LostByTarStream(l, c) == Some(k) then 1 else 0)
            && ((Count(l, k) > 0 ==> k in l.devices) ==>
                  (k in l'.devices <==>
                     || Count(l', k) > 0
                     || (if k in GivenBack(l, c) then k in c.unmountFails else k in l.devices)))
  {
    hide Mounted, Unmounted, Count, OutcomeOf;
    var l1 := Mounted(l, c.id, c.main);
    var l2 := Mounted(l1, c.parent, c.other);
    MountedIs(l, c.id, c.main, k);
    MountedIs(l, c.id, c.main, c.id);
    MountedIs(l1, c.parent, c.other, k);
    MountedIs(l1, c.parent, c.other, c.id);
    MountedIs(l1, c.parent, c.other, c.parent);
    if OutcomeOf(l, c.id, c.main) == Handed && c.parent != "" {
      if ParentOutcome(l, c) != Handed {
        UnmountedIs(l2, c.id, c.id in c.unmountFails, k);
      } else if c.tarFails {
        UnmountedIs(l2, c.parent, c.parent in c.unmountFails, k);
        UnmountedIs(l2, c.parent, c.parent in c.unmountFails, c.id);
        UnmountedIs(Unmounted(l2, c.parent, c.parent in c.unmountFails), c.id, c.id in c.unmountFails, k);
      }
    }
  }

  // A stream holds a count for each of its releases. Otherwise the counts are as before,
  // but for the one lost, and the devices too, but for those given back that could not
  // be unmounted.
  ghost predicate StreamIsExact(l: Ledger, c: StreamCall, l': Ledger) {
    forall k {:trigger Count(l', k)} {:trigger k in l'.devices} ::
      && Count(l', k) == Count(l, k) +
           (if Streams(l, c) then Times(Releases(c), k) else if LostByTarStream(l, c) == Some(k) then 1 else 0)
      && (k in l'.devices <==>
            || Count(l', k) > 0
            || (if k in GivenBack(l, c) then k in c.unmountFails else k in l.devices))
  }

  lemma TarStreamIsExact(l: Ledger, c: StreamCall)
    requires CountedAreMounted(l)
    ensures StreamIsExact(l, c, TarStreamLedger(l, c))
  {
    hide Mounted, Unmounted, Count, OutcomeOf, Times, Streams, LostByTarStream, GivenBack, TarStreamLedger;
    var l' := TarStreamLedger(l, c);
    forall k
      ensures Count(l', k) == Count(l, k) +
                (if Streams(l, c) then Times(Releases(c), k) else if LostByTarStream(l, c) == Some(k) then 1 else 0)
      ensures k in l'.devices <==>
                || Count(l', k) > 0
                || (if k in GivenBack(l, c) then k in c.unmountFails else k in l.devices)
    {
      assert Count(l, k) > 0 ==> k in l.devices;
      TarStreamSteps(l, c, k);
      TimesFew(c.parent, c.id, k);
      TimesFew(c.id, c.id, k);
    }
  }

  lemma AfterFive(s: State, steps: seq<Step>)
    requires Covered(s) && |steps| == 5
    ensures Covered(Next(s, steps[0])) && Covered(Next(Next(s, steps[0]), steps[1]))
    ensures Covered(Next(Next(Next(s, steps[0]), steps[1]), steps[2]))
    ensures Covered(Next(Next(Next(Next(s, steps[0]), steps[1]), steps[2]), steps[3]))
    ensures After(s, steps) == Next(Next(Next(Next(Next(s, steps[0]), steps[1]), steps[2]), steps[3]), steps[4])
  {
    hide Covered, After, Next;
    AfterFirst(s, steps[0], steps[1..]);
    var s1 := Next(s, steps[0]);
    AfterFirst(s1, steps[1], steps[2..]);
    var s2 := Next(s1, steps[1]);
    AfterFirst(s2, steps[2], steps[3..]);
    var s3 := Next(s2, steps[2]);
    AfterFirst(s3, steps[3], steps[4..]);
    var s4 := Next(s3, steps[3]);
    AfterFirst(s4, steps[4], []);
    AfterNothing(Next(s4, steps[4]));
    assert steps == [steps[0]] + steps[1..] && steps[1..] == [steps[1]] + steps[2..] && steps[2..] == [steps[2]] + steps[3..];
    assert steps[3..] == [steps[3]] + steps[4..] && steps[4..] == [steps[4]] + [];
  }

  lemma AfterNothing(s: State)
    requires Covered(s)
    ensures After(s, []) == s
  {
  }

  // The steps of a run that a TarStream on its own is.
  function StreamSteps(l: Ledger, k: nat, c: StreamCall): seq<Step> {
    var first := if ParentOutcome(l, c) == Handed then c.parent else c.id;
    [StreamStart(c.id, c.parent, c.main), StreamParent(k, c.other), StreamTar(k, c.tarFails),
     ReleaseNext(k, first in c.unmountFails), ReleaseNext(k, c.id in c.unmountFails)]
  }

  // They leave what TarStream leaves, and its stream open exactly if it returns one.
  lemma StreamRuns(l: Ledger, tasks: seq<Task>, c: StreamCall)
    requires Covered(State(l, tasks))
    ensures After(State(l, tasks), StreamSteps(l, |tasks|, c)) ==
              State(TarStreamLedger(l, c),
                    if OutcomeOf(l, c.id, c.main) != Handed then tasks
                    else tasks + [if Streams(l, c) then Open(Releases(c)) else Releasing([])])
  {
    hide Mounted, Unmounted, OutcomeOf, Count, Owed, Covered, After;
    var s, k, steps := State(l, tasks), |tasks|, StreamSteps(l, |tasks|, c);
    AfterFive(s, steps);
    var s1 := Next(s, steps[0]);
    var s2 := Next(s1, steps[1]);
    var s3 := Next(s2, steps[2]);
    assert forall a: Task, b: Task :: (tasks + [a])[k := b] == tasks + [b];
    if OutcomeOf(l, c.id, c.main) == Handed && c.parent != "" {
      var done := if ParentOutcome(l, c) == Handed then [c.parent, c.id] else [c.id];
      assert [c.parent, c.id][1..] == [c.id] && [c.id][1..] == [];
      assert s2.tasks == tasks + [if ParentOutcome(l, c) == Handed then Diffing(c.id, c.parent) else Releasing([c.id])];
      assert s3.tasks == tasks + [if Streams(l, c) then Open(done) else Releasing(done)];
    } else if OutcomeOf(l, c.id, c.main) == Handed {
      assert s3.tasks == tasks + [if c.tarFails then Releasing([]) else Open([c.id])];
    }
  }

  // ---- The mounter ----

  // A device's mount point and how many users it has.
  class MountPoint {
    ghost const id: string
    const path: string
    var activity: nat

    constructor (ghost id: string, path: string)
      ensures this.id == id && this.path == path && activity == 0
    {
      this.id, this.path, this.activity := id, path, 0;
    }
  }

  // The releases to call when a stream is closed, in order.
  datatype Stream = Stream(releases: seq<string>)

  class Devicemapper {
    var mounts: map<string, MountPoint>
    // The devices mounted.
    var devices: set<string>

    ghost predicate Valid()
      reads this, mounts.Values
    {
      && (forall id {:trigger mounts[id]} | id in mounts :: mounts[id].id == id)
      && CountedAreMounted(View())
    }

    ghost function View(): (l: Ledger)
      reads this, mounts.Values
      ensures l.counts.Keys == mounts.Keys && l.devices == devices
      ensures forall id | id in mounts :: l.counts[id] == mounts[id].activity
    {
      Ledger(map id | id in mounts :: mounts[id].activity, devices)
    }

    constructor ()
      ensures Valid() && View() == START.ledger
    {
      mounts, devices := map[], {};
    }

    // An error before the device is counted has no effect but perhaps an unused mount
    // point; if the empty directory fails, the device stays mounted and counted.
    method Mount(id: string, faults: MountFaults) returns (ok: bool)
      requires Valid()
      modifies this, mounts.Values
      ensures Valid() && fresh(mounts.Values - old(mounts.Values))
      ensures View() == Mounted(old(View()), id, faults)
      ensures ok <==> OutcomeOf(old(View()), id, faults) == Handed
      ensures ok <==>
                && (id in old(mounts) || !faults.tempDir)
                && (Count(old(View()), id) > 0 || !faults.device)
                && !(faults.rootfs && faults.emptyDir)
      ensures Count(View(), id) == Count(old(View()), id) +
                if && (id in old(mounts) || !faults.tempDir)
                   && (Count(old(View()), id) > 0 || !faults.device)
                then 1 else 0
    {
      hide View, Valid, OutcomeOf, Taken;
      HandedExactly(View(), id, faults);
      if id !in mounts {
        if faults.tempDir {
          return false;
        }
        Enter(id);
      }
      if mounts[id].activity == 0 && faults.device {
        return false;
      }
      Take(id);
      return !(faults.rootfs && faults.emptyDir);
    }

    method Enter(id: string)
      requires Valid() && id !in mounts
      modifies this`mounts
      ensures Valid() && id in mounts && fresh(mounts[id]) && mounts == old(mounts)[id := mounts[id]]
      ensures mounts.Values <= old(mounts.Values) + {mounts[id]}
      ensures View() == Entered(old(View()), id) && Count(View(), id) == 0
    {
      var m := new MountPoint(id, "migrate-devicemapper");
      mounts := mounts[id := m];
    }

    // The device is mounted, if it was not, and counted once more.
    method Take(id: string)
      requires Valid() && id in mounts
      modifies this`devices, mounts[id]
      ensures Valid()
      ensures View() == Taken(old(View()), id) && Count(View(), id) == Count(old(View()), id) + 1
    {
      var m: MountPoint := mounts[id];
      assert m in mounts.Values;
      if m.activity == 0 {
        devices := devices + {id};
      }
      m.activity := m.activity + 1;
    }

    // A release function.
    method Umount(id: string, unmountFails: bool)
      requires Valid() && Count(View(), id) > 0
      modifies this, mounts.Values
      ensures Valid() && mounts.Values <= old(mounts.Values)
      ensures View() == Unmounted(old(View()), id, unmountFails)
    {
      var m: MountPoint := mounts[id];
      assert m in mounts.Values;
      m.activity := m.activity - 1;
      if m.activity == 0 {
        if !unmountFails {
          devices := devices - {id};
        }
        mounts := mounts - {id};
      }
    }

    // TarStream, when nothing else runs between its mounts. It returns a stream exactly
    // if it gets all its releases and the tar or diff succeeds.
    method TarStream(c: StreamCall) returns (stream: Option<Stream>)
      requires Valid()
      modifies this, mounts.Values
      ensures Valid() && fresh(mounts.Values - old(mounts.Values))
      ensures View() == TarStreamLedger(old(View()), c)
      ensures stream.Some? <==>
                && (c.id in old(mounts) || !c.main.tempDir)
                && (Count(old(View()), c.id) > 0 || !c.main.device)
                && !(c.main.rootfs && c.main.emptyDir)
                && (c.parent == "" ||
                      (&& (c.parent in old(mounts) || c.parent == c.id || !c.other.tempDir)
                       && (Count(old(View()), c.parent) > 0 || c.parent == c.id || !c.other.device)
                       && !(c.other.rootfs && c.other.emptyDir)))
                && !c.tarFails
      // With a parent its release comes first.
      ensures stream.Some? ==> stream.value.releases == if c.parent == "" then [c.id] else [c.parent, c.id]
      ensures stream.Some? <==> Streams(old(View()), c)
      ensures StreamIsExact(old(View()), c, View())
    {
      hide View, CountedAreMounted, Mounted, Unmounted, OutcomeOf, Count, Times, StreamIsExact;
      ghost var l := View();
      ghost var l1 := Mounted(l, c.id, c.main);
      TarStreamIsExact(l, c);
      StreamsExactly(l, c);
      MountedIs(l, c.id, c.main, c.id);
      MountedIs(l1, c.parent, c.other, c.id);
      MountedIs(l1, c.parent, c.other, c.parent);
      var ok := Mount(c.id, c.main);
      if !ok {
        return None;
      }
      if c.parent == "" {
        return if c.tarFails then None else Some(Stream([c.id]));
      }
      ok := Mount(c.parent, c.other);
      if !ok {
        Umount(c.id, c.id in c.unmountFails);
        return None;
      }
      if c.tarFails {
        UnmountedIs(View(), c.parent, c.parent in c.unmountFails, c.id);
        Umount(c.parent, c.parent in c.unmountFails);
        Umount(c.id, c.id in c.unmountFails);
        return None;
      }
      return Some(Stream([c.parent, c.id]));
    }

    // Closing a stream calls its release functions.
    method CloseStream(stream: Stream, unmountFails: set<string>)
      requires Valid() && forall k {:trigger Times(stream.releases, k)} :: Times(stream.releases, k) <= Count(View(), k)
      modifies this, mounts.Values
      ensures Valid() && mounts.Values <= old(mounts.Values)
      ensures forall k {:trigger Count(View(), k)} ::
                Count(View(), k) == Count(old(View()), k) - Times(stream.releases, k)
      ensures forall k {:trigger k in devices} :: k in devices <==>
                || Count(View(), k) > 0
                || (k in old(devices) && (Times(stream.releases, k) > 0 ==> k in unmountFails))
    {
      hide View, Times, Count, Unmounted;
      var todo := stream.releases;
      while todo != []
        invariant Valid() && mounts.Values <= old(mounts.Values)
        invariant forall k {:trigger Times(todo, k)} :: Times(todo, k) <= Times(stream.releases, k)
        invariant forall k {:trigger Times(todo, k)} {:trigger Count(View(), k)} ::
                    Count(View(), k) - Times(todo, k) == Count(old(View()), k) - Times(stream.releases, k)
        invariant forall k {:trigger k in devices} :: k in devices <==>
                    || Count(View(), k) > 0
                    || (k in old(devices) && (Times(stream.releases, k) > 0 ==> k in unmountFails))
        decreases |todo|
      {
        ghost var l := View();
        forall k ensures Times(todo, k) == Times(todo[1..], k) + if todo[0] == k then 1 else 0 {
          TimesRest(todo, k);
        }
        Umount(todo[0], todo[0] in unmountFails);
        forall k
          ensures Count(View(), k) == Count(l, k) - if k == todo[0] then 1 else 0
          ensures k in devices <==> k in l.devices && !(k == todo[0] && Count(l, k) == 1 && k !in unmountFails)
        {
          UnmountedIs(l, todo[0], todo[0] in unmountFails, k);
        }
        todo := todo[1..];
      }
      forall k ensures Times(todo, k) == 0 {
        TimesFew("", "", k);
      }
    }

    // One step of the tasks.
    method Do(tasks: seq<Task>, step: Step) returns (tasks': seq<Task>)
      requires Valid() && Covered(State(View(), tasks))
      modifies this, mounts.Values
      ensures Valid() && fresh(mounts.Values - old(mounts.Values))
      ensures State(View(), tasks') == Next(State(old(View()), tasks), step)
    {
      hide View, Covered, Owed;
      tasks' := tasks;
      match step {
        case MountFor(id, faults) =>
          var ok := Mount(id, faults);
          if ok {
            tasks' := tasks + [Open([id])];
          }
        case StreamStart(id, parent, faults) =>
          var ok := Mount(id, faults);
          if ok {
            tasks' := tasks + [if parent == "" then Taring(id) else Mounting(id, parent)];
          }
        case StreamParent(k, faults) =>
          if k < |tasks| && tasks[k].Mounting? {
            var ok := Mount(tasks[k].parent, faults);
            tasks' := tasks[k := if ok then Diffing(tasks[k].id, tasks[k].parent) else Releasing([tasks[k].id])];
          }
        case StreamTar(k, fails) =>
          if k < |tasks| && tasks[k].Taring? {
            tasks' := tasks[k := if fails then Releasing([]) else Open([tasks[k].id])];
          } else if k < |tasks| && tasks[k].Diffing? {
            var owes := [tasks[k].parent, tasks[k].id];
            tasks' := tasks[k := if fails then Releasing(owes) else Open(owes)];
          }
        case Close(k) =>
          if k < |tasks| && tasks[k].Open? {
            tasks' := tasks[k := Releasing(tasks[k].owes)];
          }
        case ReleaseNext(k, unmountFails) =>
          if k < |tasks| && tasks[k].Releasing? && tasks[k].owes != [] {
            OwedIsCounted(State(View(), tasks), k);
            Umount(tasks[k].owes[0], unmountFails);
            tasks' := tasks[k := Releasing(tasks[k].owes[1..])];
          }
      }
    }

    // Any calls of Mount and any streams, interleaved in any order with any failures.
    method Run(tasks: seq<Task>, steps: seq<Step>) returns (tasks': seq<Task>)
      requires Valid() && Covered(State(View(), tasks))
      modifies this, mounts.Values
      ensures Valid() && fresh(mounts.Values - old(mounts.Values))
      ensures State(View(), tasks') == After(State(old(View()), tasks), steps)
    {
      hide View, Covered, Next;
      tasks' := tasks;
      for i := 0 to |steps|
        invariant Valid() && fresh(mounts.Values - old(mounts.Values))
        invariant State(View(), tasks') == After(State(old(View()), tasks), steps[..i])
      {
        assert steps[..i + 1][..i] == steps[..i];
        tasks' := Do(tasks', steps[i]);
      }
      assert steps[..|steps|] == steps;
    }
  }
}
