/**
Admission of tasks to the BPF maps they poll. Each `startTasks` call spawns a thread that resolves
its config, takes the lock to admit the task, executes without the lock, and takes it again to clean
up. A panic while the lock is held poisons it, and every later `lock().unwrap()` panics too.
*/
module TaskAdmission {
  import opened Common

  type Maps = set<string>

  /** `Some` carries the polled maps and stands for the held LazyServiceGuard. */
  type GlobalState = Option<Maps>

  // ----- code under the lock -----

  /** The state after admission, or None when a wanted map is already polled. */
  function Admit(state: GlobalState, wanted: Maps): Option<GlobalState> {
    match state
    case None => Some(Some(wanted))
    case Some(polled) => if wanted * polled == {} then Some(Some(polled + wanted)) else None
  }

  function Release(polled: Maps, maps: Maps): GlobalState {
    if polled - maps == {} then None else Some(polled - maps)
  }

  class StateCell {
    var state: GlobalState

    constructor ()
      ensures state == None
    {
      state := None;
    }

    method UpdatePolledBpfMaps(wanted: Maps) returns (admitted: bool)
      modifies this
      ensures admitted <==> Admit(old(state), wanted).Some?
      ensures state == (if admitted then Admit(old(state), wanted).value else old(state))
    {
      match state {
        case None =>
          state := Some(wanted);
          return true;
        case Some(polled) =>
          var conflicts := wanted * polled;
          if conflicts != {} {
            return false;
          }
          state := Some(polled + wanted);
          return true;
      }
    }

    /** Reports the panic branch in `panicked` instead of unwinding. */
    method CleanupPolledBpfMaps(maps: Maps) returns (panicked: bool)
      modifies this
      ensures panicked <==> old(state).None?
      ensures state == (if panicked then old(state) else Release(old(state).value, maps))
    {
      if state.None? {
        return true;
      }
      var polled := state.value;
      var remaining := maps;
      while remaining != {}
        invariant remaining <= maps
        invariant polled == old(state).value - (maps - remaining)
        invariant state == old(state)
        decreases remaining
      {
        var path :| path in remaining;
        polled := polled - {path};
        remaining := remaining - {path};
      }
      assert polled == old(state).value - maps;
      state := if polled == {} then None else Some(polled);
      panicked := false;
    }
  }

  // ----- the step system -----

  datatype Thread =
    | Starting(config: Option<Maps>)  // `None`: config resolution will fail
    | Waiting(maps: Maps)             // resolved, about to lock for admission
    | Running(maps: Maps)             // admitted, executing; next it locks for cleanup
    | Rejected
    | Done
    | Panicked

  datatype State = State(global: GlobalState, poisoned: bool, threads: seq<Thread>)

  /** What each spawned thread's config resolves to. */
  type Tasks = seq<Option<Maps>>

  function Init(tasks: Tasks): State {
    State(None, false, seq(|tasks|, k requires 0 <= k < |tasks| => Starting(tasks[k])))
  }

  function SetThread(s: State, i: nat, t: Thread): State
    requires i < |s.threads|
  {
    s.(threads := s.threads[i := t])
  }

  /** Thread `i` runs to the end of its current stage; a finished thread stays put. */
  function Step(s: State, i: nat): State
    requires i < |s.threads|
  {
    match s.threads[i]
    case Starting(None) => SetThread(s, i, Done)
    case Starting(Some(maps)) => SetThread(s, i, Waiting(maps))
    case Waiting(maps) =>
      if s.poisoned then SetThread(s, i, Panicked)
      else (match Admit(s.global, maps)
            case None => SetThread(s, i, Rejected)
            case Some(global) => SetThread(s, i, Running(maps)).(global := global))
    case Running(maps) =>
      if s.poisoned then SetThread(s, i, Panicked)
      else if s.global.None? then SetThread(s, i, Panicked).(poisoned := true)
      else SetThread(s, i, Done).(global := Release(s.global.value, maps))
    case _ => s
  }

  ghost predicate IsSchedule(tasks: Tasks, schedule: seq<nat>) {
    forall k :: 0 <= k < |schedule| ==> schedule[k] < |tasks|
  }

  /** The state after the threads are scheduled in the given order. */
  ghost function Exec(tasks: Tasks, schedule: seq<nat>): (s: State)
    requires IsSchedule(tasks, schedule)
    ensures |s.threads| == |tasks|
    decreases |schedule|
  {
    if schedule == [] then Init(tasks)
    else
      var n := |schedule| - 1;
      Step(Exec(tasks, schedule[..n]), schedule[n])
  }

  ghost predicate IsRunning(s: State, i: int) {
    0 <= i < |s.threads| && s.threads[i].Running?
  }

  // ----- task exclusion, in every run -----

  ghost predicate Exclusive(s: State) {
    forall i, j :: i != j && IsRunning(s, i) && IsRunning(s, j) ==>
      s.threads[i].maps * s.threads[j].maps == {}
  }

  /** The polled set is the union of the running tasks' maps; no state means that union is empty. */
  ghost predicate PolledIsUnion(s: State) {
    && (forall i :: IsRunning(s, i) ==>
          s.threads[i].maps <= (if s.global.Some? then s.global.value else {}))
    && (s.global.Some? ==>
          forall m :: m in s.global.value ==> exists i :: IsRunning(s, i) && m in s.threads[i].maps)
  }

  ghost predicate GuardImpliesWork(s: State) {
    && (s.global.Some? ==> exists i :: IsRunning(s, i))
    && (s.poisoned ==> s.global.None?)
  }

  ghost predicate Inv(s: State) {
    Exclusive(s) && PolledIsUnion(s) && GuardImpliesWork(s)
  }

  lemma {:induction false} AdmitKeepsInv(s: State, i: nat)
    requires Inv(s) && i < |s.threads| && s.threads[i].Waiting? && !s.poisoned
    ensures Inv(Step(s, i))
  {
    var s' := Step(s, i);
    var maps := s.threads[i].maps;
    assert forall j :: j != i ==> (IsRunning(s', j) <==> IsRunning(s, j));
    if Admit(s.global, maps).Some? {
      assert IsRunning(s', i);
      forall j | j != i && IsRunning(s', j)
        ensures s'.threads[j].maps * maps == {}
      {
        assert IsRunning(s, j);
      }
      forall m | m in s'.global.value
        ensures exists j :: IsRunning(s', j) && m in s'.threads[j].maps
      {
        if m !in maps {
          var j :| IsRunning(s, j) && m in s.threads[j].maps;
          assert IsRunning(s', j);
        }
      }
    } else {
      forall m | m in s'.global.value
        ensures exists j :: IsRunning(s', j) && m in s'.threads[j].maps
      {
        var j :| IsRunning(s, j) && m in s.threads[j].maps;
        assert IsRunning(s', j);
      }
      var j :| IsRunning(s, j);
      assert IsRunning(s', j);
    }
  }

  lemma {:induction false} ReleaseKeepsInv(s: State, i: nat)
    requires Inv(s) && i < |s.threads| && s.threads[i].Running? && s.global.Some?
    ensures Inv(Step(s, i))
  {
    var s' := Step(s, i);
    var maps := s.threads[i].maps;
    var rest := s.global.value - maps;
    assert IsRunning(s, i);
    assert forall j :: IsRunning(s', j) <==> j != i && IsRunning(s, j);
    forall j | IsRunning(s', j)
      ensures s'.threads[j].maps <= rest
    {
      assert IsRunning(s, j) && s.threads[i].maps * s.threads[j].maps == {};
      assert forall m :: m in s.threads[j].maps ==> m !in s.threads[i].maps * s.threads[j].maps;
    }
    forall m | m in rest
      ensures exists j :: IsRunning(s', j) && m in s'.threads[j].maps
    {
      var j :| IsRunning(s, j) && m in s.threads[j].maps;
      assert IsRunning(s', j);
    }
    if s'.global.Some? {
      var m :| m in rest;
      var j :| IsRunning(s', j) && m in s'.threads[j].maps;
    }
  }

  lemma {:induction false} StepKeepsInv(s: State, i: nat)
    requires Inv(s) && i < |s.threads|
    ensures Inv(Step(s, i))
  {
    if s.threads[i].Waiting? && !s.poisoned {
      AdmitKeepsInv(s, i);
    } else if s.threads[i].Running? && s.global.Some? {
      ReleaseKeepsInv(s, i);
    } else {
      var s' := Step(s, i);
      assert s'.global == s.global;
      assert forall j :: j != i ==> (IsRunning(s', j) <==> IsRunning(s, j));
      if s.global.Some? {
        forall m | m in s.global.value
          ensures exists j :: IsRunning(s', j) && m in s'.threads[j].maps
        {
          var j :| IsRunning(s, j) && m in s.threads[j].maps;
          assert IsRunning(s', j);
        }
        var j :| IsRunning(s, j);
        assert IsRunning(s', j);
      }
    }
  }

  /**
  Task exclusion: under every schedule of any number of threads, panics included, no map is polled
  for two tasks at once and the polled set is exactly the union of the running tasks' maps.
  */
  lemma {:induction false} TaskExclusion(tasks: Tasks, schedule: seq<nat>)
    requires IsSchedule(tasks, schedule)
    ensures Inv(Exec(tasks, schedule))
    decreases |schedule|
  {
    if schedule != [] {
      var n := |schedule| - 1;
      TaskExclusion(tasks, schedule[..n]);
      StepKeepsInv(Exec(tasks, schedule[..n]), schedule[n]);
    }
  }

  /** A task is turned away exactly when it wants a map of a task that is running, and then nothing else changes. */
  lemma {:induction false} RejectedIffConflict(tasks: Tasks, schedule: seq<nat>, i: nat)
    requires IsSchedule(tasks, schedule) && i < |tasks|
    requires Exec(tasks, schedule).threads[i].Waiting? && !Exec(tasks, schedule).poisoned
    ensures var s := Exec(tasks, schedule);
      && (Step(s, i).threads[i].Rejected? <==>
          exists j :: IsRunning(s, j) && s.threads[j].maps * s.threads[i].maps != {})
      && (Step(s, i).threads[i].Rejected? ==> Step(s, i) == SetThread(s, i, Rejected))
  {
    TaskExclusion(tasks, schedule);
    var s := Exec(tasks, schedule);
    var wanted := s.threads[i].maps;
    if Step(s, i).threads[i].Rejected? {
      var m :| m in wanted * s.global.value;
      var j :| IsRunning(s, j) && m in s.threads[j].maps;
      assert m in s.threads[j].maps * wanted;
    } else if s.global.Some? {
      forall j | IsRunning(s, j)
        ensures s.threads[j].maps * wanted == {}
      {
        assert s.threads[j].maps * wanted <= wanted * s.global.value;
      }
    }
  }

  // ----- the guard and the panic branch -----

  /** Some task polls no map and some other task resolves too. */
  ghost predicate EmptyTaskAmongOthers(tasks: Tasks) {
    exists i, j :: 0 <= i < |tasks| && 0 <= j < |tasks| && i != j && tasks[i] == Some({}) && tasks[j].Some?
  }

  /** Each thread still carries the maps its config resolved to. */
  ghost predicate FollowsTasks(tasks: Tasks, s: State) {
    && |s.threads| == |tasks|
    && (forall i :: 0 <= i < |tasks| ==>
          && (s.threads[i].Starting? ==> s.threads[i].config == tasks[i])
          && (s.threads[i].Waiting? || s.threads[i].Running? ==> tasks[i] == Some(s.threads[i].maps)))
  }

  /** The guard is held exactly while a task runs, and nothing has panicked. */
  ghost predicate GuardExact(s: State) {
    && (s.global.Some? <==> exists i :: IsRunning(s, i))
    && !s.poisoned
    && (forall i :: 0 <= i < |s.threads| ==> !s.threads[i].Panicked?)
  }

  lemma {:induction false} ReleaseKeepsGuard(tasks: Tasks, s: State, i: nat)
    requires !EmptyTaskAmongOthers(tasks) && FollowsTasks(tasks, s) && Inv(s) && GuardExact(s)
    requires i < |tasks| && s.threads[i].Running?
    ensures GuardExact(Step(s, i))
  {
    var s' := Step(s, i);
    assert IsRunning(s, i);
    StepKeepsInv(s, i);
    if j :| IsRunning(s', j) {
      assert j != i && IsRunning(s, j);
      assert s'.threads[j].maps == s.threads[j].maps != {};
    }
  }

  lemma {:induction false} OtherStepKeepsGuard(s: State, i: nat)
    requires GuardExact(s) && i < |s.threads| && !s.threads[i].Running?
    ensures GuardExact(Step(s, i))
  {
    var s' := Step(s, i);
    if s.threads[i].Waiting? && Admit(s.global, s.threads[i].maps).Some? {
      assert IsRunning(s', i);
    } else {
      assert forall j :: IsRunning(s', j) <==> IsRunning(s, j);
    }
  }

  lemma {:induction false} ThreadsFollowTasks(tasks: Tasks, schedule: seq<nat>)
    requires IsSchedule(tasks, schedule)
    ensures FollowsTasks(tasks, Exec(tasks, schedule))
    decreases |schedule|
  {
    if schedule != [] {
      ThreadsFollowTasks(tasks, schedule[..|schedule| - 1]);
    }
  }

  lemma {:induction false} GuardHeldWhileWorkRuns(tasks: Tasks, schedule: seq<nat>)
    requires IsSchedule(tasks, schedule) && !EmptyTaskAmongOthers(tasks)
    ensures FollowsTasks(tasks, Exec(tasks, schedule)) && GuardExact(Exec(tasks, schedule))
    decreases |schedule|
  {
    ThreadsFollowTasks(tasks, schedule);
    if schedule != [] {
      var n := |schedule| - 1;
      var s, i := Exec(tasks, schedule[..n]), schedule[n];
      GuardHeldWhileWorkRuns(tasks, schedule[..n]);
      if s.threads[i].Running? {
        TaskExclusion(tasks, schedule[..n]);
        ReleaseKeepsGuard(tasks, s, i);
      } else {
        OtherStepKeepsGuard(s, i);
      }
    }
  }

  lemma {:induction false} ExecStep(tasks: Tasks, schedule: seq<nat>, i: nat)
    requires IsSchedule(tasks, schedule) && i < |tasks|
    ensures IsSchedule(tasks, schedule + [i])
    ensures Exec(tasks, schedule + [i]) == Step(Exec(tasks, schedule), i)
  {
    assert (schedule + [i])[..|schedule|] == schedule;
  }

  /** A thread alone resolves and is admitted. */
  lemma {:induction false} FirstIsAdmitted(tasks: Tasks, i: nat) returns (schedule: seq<nat>)
    requires i < |tasks| && tasks[i].Some?
    ensures IsSchedule(tasks, schedule)
    ensures Exec(tasks, schedule) == SetThread(Init(tasks), i, Running(tasks[i].value)).(global := Some(tasks[i].value))
  {
    assert Exec(tasks, []) == Init(tasks);
    ExecStep(tasks, [], i);
    var resolved := SetThread(Init(tasks), i, Waiting(tasks[i].value));
    assert Exec(tasks, [] + [i]) == resolved;
    ExecStep(tasks, [] + [i], i);
    schedule := [] + [i] + [i];
  }

  /** Beside a running task without maps, another one resolves, is admitted and cleans up, and drops the guard. */
  lemma {:induction false} SecondDropsGuard(tasks: Tasks, schedule: seq<nat>, j: nat)
    requires IsSchedule(tasks, schedule) && j < |tasks| && tasks[j].Some?
    requires Exec(tasks, schedule).threads[j] == Starting(tasks[j])
    requires Exec(tasks, schedule).global == Some({}) && !Exec(tasks, schedule).poisoned
    ensures IsSchedule(tasks, schedule + [j] + [j] + [j])
    ensures Exec(tasks, schedule + [j] + [j] + [j]) == SetThread(Exec(tasks, schedule), j, Done).(global := None)
  {
    var s, maps := Exec(tasks, schedule), tasks[j].value;
    ExecStep(tasks, schedule, j);
    assert Exec(tasks, schedule + [j]) == SetThread(s, j, Waiting(maps));
    ExecStep(tasks, schedule + [j], j);
    assert {} + maps == maps;
    assert Exec(tasks, schedule + [j] + [j]) == SetThread(s, j, Running(maps)).(global := Some(maps));
    ExecStep(tasks, schedule + [j] + [j], j);
  }

  /** Two overlapping tasks, one without maps: the other's cleanup drops the guard, and the first one's panics. */
  lemma {:induction false} EmptyTaskPanics(tasks: Tasks, i: nat, j: nat) returns (schedule: seq<nat>)
    requires i < |tasks| && j < |tasks| && i != j && tasks[i] == Some({}) && tasks[j].Some?
    ensures IsSchedule(tasks, schedule) && IsSchedule(tasks, schedule + [i])
    ensures Exec(tasks, schedule).global.None? && IsRunning(Exec(tasks, schedule), i)
    ensures Exec(tasks, schedule + [i]).threads[i].Panicked?
  {
    var first := FirstIsAdmitted(tasks, i);
    SecondDropsGuard(tasks, first, j);
    schedule := first + [j] + [j] + [j];
    ExecStep(tasks, schedule, i);
  }

  /**
  The panic branch is unreachable, and the guard is held exactly while work runs, under every
  schedule if and only if no task without maps can overlap another task.
  */
  lemma {:induction false} GuardExactIff(tasks: Tasks)
    ensures !EmptyTaskAmongOthers(tasks) <==>
      forall schedule :: IsSchedule(tasks, schedule) ==> GuardExact(Exec(tasks, schedule))
  {
    if EmptyTaskAmongOthers(tasks) {
      var i, j :| 0 <= i < |tasks| && 0 <= j < |tasks| && i != j && tasks[i] == Some({}) && tasks[j].Some?;
      var schedule := EmptyTaskPanics(tasks, i, j);
      assert !GuardExact(Exec(tasks, schedule + [i]));
    } else {
      forall schedule | IsSchedule(tasks, schedule)
        ensures GuardExact(Exec(tasks, schedule))
      {
        GuardHeldWhileWorkRuns(tasks, schedule);
      }
    }
  }
}
