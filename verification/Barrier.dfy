/** The fork/join barrier of the day jobs: a counter under a mutex, one worker for each missing file, and
    a poll loop that leaves when it reads zero. The report jobs count a worker before they create it; the
    manager creates it first, so its counter can dip below zero. */
module Barrier {

  datatype Order = CountFirst | CreateFirst

  /** A worker runs its subtask, has produced its file, or has also signed off. */
  datatype Phase = Running | Produced | SignedOff

  datatype Worker = Worker(job: int, phase: Phase)

  /** The launching thread: at job `i`, between the two halves of launching job `i`, polling, or past the
      barrier. */
  datatype Launcher = At(i: int) | Halfway(i: int) | Polling | Left

  datatype State = State(pc: Launcher, count: int, workers: seq<Worker>, files: set<int>)

  /** `jobs` files are wanted; `present` of them exist already. */
  function Initial(present: set<int>): State {
    State(At(0), 0, [], present)
  }

  function WithWorker(s: State, job: int): State {
    s.(workers := s.workers + [Worker(job, Running)])
  }

  /** A step of the launching thread. After the barrier the manager goes on to the next day, for which
      other files are wanted. */
  ghost predicate LaunchStep(order: Order, jobs: int, s: State, t: State) {
    match s.pc
    case At(i) =>
      if i >= jobs then t == s.(pc := Polling)
      else if i in s.files then t == s.(pc := At(i + 1))
      else if order.CountFirst? then t == s.(pc := Halfway(i), count := s.count + 1)
      else t == WithWorker(s, i).(pc := Halfway(i))
    case Halfway(i) =>
      if order.CountFirst? then t == WithWorker(s, i).(pc := At(i + 1))
      else t == s.(pc := At(i + 1), count := s.count + 1)
    case Polling => t == if s.count == 0 then s.(pc := Left) else s
    case Left => t == State(At(0), s.count, [], t.files)
  }

  /** A step of worker `w`: produce the file, then lower the counter. */
  ghost predicate WorkStep(s: State, t: State, w: int) {
    0 <= w < |s.workers| &&
    var worker := s.workers[w];
    || (worker.phase.Running? && t == s.(workers := s.workers[w := worker.(phase := Produced)], files := s.files + {worker.job}))
    || (worker.phase.Produced? && t == s.(workers := s.workers[w := worker.(phase := SignedOff)], count := s.count - 1))
  }

  ghost predicate Next(order: Order, jobs: int, s: State, t: State) {
    LaunchStep(order, jobs, s, t) || exists w :: WorkStep(s, t, w)
  }

  function Gone(workers: seq<Worker>): nat {
    if workers == [] then 0
    else Gone(workers[..|workers| - 1]) + if workers[|workers| - 1].phase.SignedOff? then 1 else 0
  }

  /** How far the counter is ahead of, or behind, the workers created while a launch is half done. */
  function Offset(order: Order, pc: Launcher): int {
    if !pc.Halfway? then 0 else if order.CountFirst? then 1 else -1
  }

  /** The number of jobs the launching thread has dealt with in this round. */
  function Handled(order: Order, jobs: int, pc: Launcher): int {
    match pc
    case At(i) => i
    case Halfway(i) => if order.CreateFirst? then i + 1 else i
    case _ => jobs
  }

  ghost predicate Inv(order: Order, jobs: int, s: State) {
    && 0 <= Handled(order, jobs, s.pc) <= jobs
    && (s.pc.Halfway? ==> 0 <= s.pc.i < jobs)
    && s.count == |s.workers| - Gone(s.workers) + Offset(order, s.pc)
    && (s.pc.Left? ==> Gone(s.workers) == |s.workers|)
    && Delivered(s.workers, s.files)
    && Covered(Handled(order, jobs, s.pc), s.workers, s.files)
  }

  /** Workers past their subtask have produced their files. */
  ghost predicate Delivered(workers: seq<Worker>, files: set<int>) {
    forall w :: 0 <= w < |workers| && !workers[w].phase.Running? ==> workers[w].job in files
  }

  /** Each of the first `handled` jobs has its file or a worker. */
  ghost predicate Covered(handled: int, workers: seq<Worker>, files: set<int>) {
    forall i :: 0 <= i < handled ==> i in files || HasWorker(workers, i)
  }

  ghost predicate HasWorker(workers: seq<Worker>, job: int) {
    exists w :: 0 <= w < |workers| && workers[w].job == job
  }

  lemma {:induction false} GoneFacts(workers: seq<Worker>)
    ensures Gone(workers) <= |workers|
    ensures Gone(workers) == |workers| <==> forall w :: 0 <= w < |workers| ==> workers[w].phase.SignedOff?
  {
    if workers != [] {
      var n := |workers| - 1;
      GoneFacts(workers[..n]);
      assert forall w :: 0 <= w < n ==> workers[..n][w] == workers[w];
    }
  }

  lemma {:induction false} GoneUpdate(workers: seq<Worker>, w: int, after: Worker)
    requires 0 <= w < |workers|
    ensures Gone(workers[w := after]) ==
            Gone(workers) - (if workers[w].phase.SignedOff? then 1 else 0) + (if after.phase.SignedOff? then 1 else 0)
  {
    var n := |workers| - 1;
    var changed := workers[w := after];
    if w < n {
      GoneUpdate(workers[..n], w, after);
      assert changed[..n] == workers[..n][w := after];
    } else {
      assert changed[..n] == workers[..n];
    }
  }

  lemma WorkersKept(before: seq<Worker>, after: seq<Worker>, i: int)
    requires |before| <= |after| && forall w :: 0 <= w < |before| ==> after[w].job == before[w].job
    ensures HasWorker(before, i) ==> HasWorker(after, i)
  {
  }

  lemma LaunchKeepsInv(order: Order, jobs: int, s: State, t: State)
    requires 0 <= jobs && Inv(order, jobs, s) && LaunchStep(order, jobs, s, t)
    ensures Inv(order, jobs, t)
  {
    match s.pc {
      case At(i) => LaunchAt(order, jobs, s, t, i);
      case Halfway(i) => LaunchHalfway(order, jobs, s, t, i);
      case _ =>
    }
  }

  lemma LaunchAt(order: Order, jobs: int, s: State, t: State, i: int)
    requires Inv(order, jobs, s) && LaunchStep(order, jobs, s, t) && s.pc == At(i)
    ensures Inv(order, jobs, t)
  {
    NewWorker(s.workers, s.files, i);
  }

  lemma LaunchHalfway(order: Order, jobs: int, s: State, t: State, i: int)
    requires Inv(order, jobs, s) && LaunchStep(order, jobs, s, t) && s.pc == Halfway(i)
    ensures Inv(order, jobs, t)
  {
    NewWorker(s.workers, s.files, i);
  }

  /** Creating the worker of a job covers the job and changes nothing else. */
  lemma NewWorker(workers: seq<Worker>, files: set<int>, i: int)
    requires 0 <= i && Delivered(workers, files) && Covered(i, workers, files)
    ensures var more := workers + [Worker(i, Running)];
      Delivered(more, files) && Covered(i + 1, more, files) && Gone(more) == Gone(workers)
    ensures i in files ==> Covered(i + 1, workers, files)
  {
    var more := workers + [Worker(i, Running)];
    assert more[..|workers|] == workers;
    forall k | 0 <= k < i + 1 ensures k in files || HasWorker(more, k) {
      WorkersKept(workers, more, k);
      if k == i { assert more[|workers|].job == k; }
    }
  }

  lemma WorkKeepsInv(order: Order, jobs: int, s: State, t: State, w: int)
    requires 0 <= jobs && Inv(order, jobs, s) && WorkStep(s, t, w)
    ensures Inv(order, jobs, t)
  {
    GoneUpdate(s.workers, w, t.workers[w]);
    GoneFacts(s.workers);
    forall i | 0 <= i < Handled(order, jobs, t.pc) ensures i in t.files || HasWorker(t.workers, i) {
      WorkersKept(s.workers, t.workers, i);
    }
    assert Delivered(t.workers, t.files) && Covered(Handled(order, jobs, t.pc), t.workers, t.files);
  }

  ghost predicate IsRun(order: Order, jobs: int, run: seq<State>) {
    && run != [] && 0 <= jobs
    && run[0] == Initial(run[0].files)
    && forall i :: 0 <= i < |run| - 1 ==> Next(order, jobs, run[i], run[i + 1])
  }

  lemma {:induction false} RunInv(order: Order, jobs: int, run: seq<State>, i: int)
    requires IsRun(order, jobs, run) && 0 <= i < |run|
    ensures Inv(order, jobs, run[i])
  {
    if i > 0 {
      RunInv(order, jobs, run, i - 1);
      var s, t := run[i - 1], run[i - 1 + 1];
      assert Next(order, jobs, s, t);
      if LaunchStep(order, jobs, s, t) {
        LaunchKeepsInv(order, jobs, s, t);
      } else {
        var w :| WorkStep(s, t, w);
        WorkKeepsInv(order, jobs, s, t, w);
      }
    }
  }

  /** In every interleaving, with either order of counting and creating: when the launching thread has
      left the poll loop, every worker it spawned is done, and every wanted file exists. */
  lemma LeftMeansAllDone(order: Order, jobs: int, run: seq<State>, i: int)
    requires IsRun(order, jobs, run) && 0 <= i < |run| && run[i].pc.Left?
    ensures forall w :: 0 <= w < |run[i].workers| ==> run[i].workers[w].phase.SignedOff?
    ensures forall job :: 0 <= job < jobs ==> job in run[i].files
  {
    RunInv(order, jobs, run, i);
    GoneFacts(run[i].workers);
    forall job | 0 <= job < jobs ensures job in run[i].files {
      assert job in run[i].files || HasWorker(run[i].workers, job);
    }
  }

  /** Counting first keeps the counter from going negative; creating first lets it reach -1, never less. */
  lemma CounterBounds(order: Order, jobs: int, run: seq<State>, i: int)
    requires IsRun(order, jobs, run) && 0 <= i < |run|
    ensures run[i].count >= if order.CountFirst? then 0 else -1
  {
    RunInv(order, jobs, run, i);
    GoneFacts(run[i].workers);
  }

  /** The dip is real: the worker of the only job can finish before the manager counts it. */
  lemma CounterDips()
    ensures exists run: seq<State> :: IsRun(CreateFirst, 1, run) && run[|run| - 1].count == -1
  {
    var s0 := Initial({});
    var s1 := WithWorker(s0, 0).(pc := Halfway(0));
    var s2 := s1.(workers := [Worker(0, Produced)], files := {0});
    var s3 := s2.(workers := [Worker(0, SignedOff)], count := -1);
    var run := [s0, s1, s2, s3];
    assert LaunchStep(CreateFirst, 1, s0, s1);
    assert s1.workers == [Worker(0, Running)] && {} + {0} == {0};
    assert WorkStep(s1, s2, 0) && WorkStep(s2, s3, 0);
    assert forall i :: 0 <= i < |run| - 1 ==> Next(CreateFirst, 1, run[i], run[i + 1]);
    assert IsRun(CreateFirst, 1, run);
  }

  // ----- One worker for each missing file

  function Jobs(workers: seq<Worker>): (jobs: seq<int>)
    ensures |jobs| == |workers| && forall w :: 0 <= w < |workers| ==> jobs[w] == workers[w].job
  {
    if workers == [] then [] else [workers[0].job] + Jobs(workers[1..])
  }

  /** Of the first `handled` jobs, those with a missing file have been launched, once each and in order. */
  ghost predicate MissingServed(handled: int, present: set<int>, launched: seq<int>) {
    && (forall w :: 0 <= w < |launched| ==> 0 <= launched[w] < handled && launched[w] !in present)
    && (forall v, w :: 0 <= v < w < |launched| ==> launched[v] < launched[w])
    && (forall job :: 0 <= job < handled && job !in present ==> job in launched)
  }

  /** A file exists from the start or belongs to a worker. */
  ghost predicate FilesKnown(present: set<int>, files: set<int>, launched: seq<int>) {
    present <= files && forall f :: f in files ==> f in present || f in launched
  }

  /** What one round keeps, where `present` are the files found at its start. */
  ghost predicate RoundInv(order: Order, jobs: int, present: set<int>, s: State) {
    && MissingServed(Handled(order, jobs, s.pc), present, Jobs(s.workers))
    && FilesKnown(present, s.files, Jobs(s.workers))
    && (s.pc.Halfway? ==> s.pc.i !in present)
  }

  lemma Serve(handled: int, present: set<int>, launched: seq<int>)
    requires 0 <= handled && MissingServed(handled, present, launched)
    ensures handled in present ==> MissingServed(handled + 1, present, launched)
    ensures handled !in present ==> MissingServed(handled + 1, present, launched + [handled])
  {
    if handled !in present {
      forall job | 0 <= job < handled + 1 && job !in present ensures job in launched + [handled] {
        if job == handled { assert (launched + [handled])[|launched|] == job; }
      }
    }
  }

  lemma JobsSnoc(workers: seq<Worker>, worker: Worker)
    ensures Jobs(workers + [worker]) == Jobs(workers) + [worker.job]
  {
  }

  lemma RoundLaunch(order: Order, jobs: int, present: set<int>, s: State, t: State)
    requires 0 <= jobs && Inv(order, jobs, s) && RoundInv(order, jobs, present, s) && LaunchStep(order, jobs, s, t) && !s.pc.Left?
    ensures RoundInv(order, jobs, present, t)
  {
    if !s.pc.Polling? {
      var i := s.pc.i;
      JobsSnoc(s.workers, Worker(i, Running));
      if Handled(order, jobs, s.pc) == i { Serve(i, present, Jobs(s.workers)); }
    }
  }

  lemma RoundWork(order: Order, jobs: int, present: set<int>, s: State, t: State, w: int)
    requires RoundInv(order, jobs, present, s) && WorkStep(s, t, w)
    ensures RoundInv(order, jobs, present, t)
  {
    assert Jobs(t.workers) == Jobs(s.workers);
    assert Jobs(s.workers)[w] == s.workers[w].job;
  }

  lemma {:induction false} RoundRun(order: Order, jobs: int, run: seq<State>, i: int)
    requires IsRun(order, jobs, run) && 0 <= i < |run| && forall k :: 0 <= k < i ==> !run[k].pc.Left?
    ensures RoundInv(order, jobs, run[0].files, run[i])
  {
    if i > 0 {
      RoundRun(order, jobs, run, i - 1);
      RunInv(order, jobs, run, i - 1);
      var s, t := run[i - 1], run[i - 1 + 1];
      assert Next(order, jobs, s, t);
      if LaunchStep(order, jobs, s, t) {
        RoundLaunch(order, jobs, run[0].files, s, t);
      } else {
        var w :| WorkStep(s, t, w);
        RoundWork(order, jobs, run[0].files, s, t, w);
      }
    }
  }

  /** By the time the launching thread polls there is exactly one worker for each wanted file that was
      missing, and none for a file that existed. */
  lemma OneWorkerForEachMissing(order: Order, jobs: int, run: seq<State>, i: int)
    requires IsRun(order, jobs, run) && 0 <= i < |run| && run[i].pc.Polling? && forall k :: 0 <= k < i ==> !run[k].pc.Left?
    ensures forall job :: 0 <= job < jobs ==> (HasWorker(run[i].workers, job) <==> job !in run[0].files)
    ensures forall v, w :: 0 <= v < w < |run[i].workers| ==> run[i].workers[v].job != run[i].workers[w].job
  {
    RoundRun(order, jobs, run, i);
    var workers := run[i].workers;
    forall job | 0 <= job < jobs ensures HasWorker(workers, job) <==> job !in run[0].files {
      if job in Jobs(workers) {
        var w :| 0 <= w < |workers| && Jobs(workers)[w] == job;
        assert workers[w].job == job;
      }
      if w :| 0 <= w < |workers| && workers[w].job == job { assert Jobs(workers)[w] == job; }
    }
    forall v, w | 0 <= v < w < |workers| ensures workers[v].job != workers[w].job {
      assert Jobs(workers)[v] < Jobs(workers)[w];
    }
  }

  // ----- The barrier can always be passed

  /** Consecutive states of a run that need not start at the beginning. */
  ghost predicate IsPath(order: Order, jobs: int, path: seq<State>) {
    path != [] && forall i :: 0 <= i < |path| - 1 ==> Next(order, jobs, path[i], path[i + 1])
  }

  /** How far the launching thread is from polling, and past it. */
  function Distance(jobs: int, pc: Launcher): int {
    match pc
    case At(i) => 2 * (jobs - i) + 2
    case Halfway(i) => 2 * (jobs - i) + 1
    case Polling => 1
    case Left => 0
  }

  /** What the workers still have to do. */
  function WorkLeft(workers: seq<Worker>): nat {
    if workers == [] then 0
    else WorkLeft(workers[..|workers| - 1]) + match workers[|workers| - 1].phase case Running => 2 case Produced => 1 case SignedOff => 0
  }

  lemma {:induction false} WorkLeftUpdate(workers: seq<Worker>, w: int, after: Worker)
    requires 0 <= w < |workers| && !workers[w].phase.SignedOff?
    requires after.phase == if workers[w].phase.Running? then Produced else SignedOff
    ensures WorkLeft(workers[w := after]) == WorkLeft(workers) - 1
  {
    var n := |workers| - 1;
    var changed := workers[w := after];
    if w < n {
      WorkLeftUpdate(workers[..n], w, after);
      assert changed[..n] == workers[..n][w := after];
    } else {
      assert changed[..n] == workers[..n];
    }
  }

  /** One step nearer to the end of the barrier: launch, let a worker go on, or leave. */
  lemma StepNearer(order: Order, jobs: int, s: State) returns (t: State)
    requires 0 <= jobs && Inv(order, jobs, s) && !s.pc.Left?
    ensures Next(order, jobs, s, t) && Inv(order, jobs, t)
    ensures 0 <= Distance(jobs, t.pc) <= Distance(jobs, s.pc)
    ensures Distance(jobs, t.pc) < Distance(jobs, s.pc) || WorkLeft(t.workers) < WorkLeft(s.workers)
  {
    if s.pc.Polling? && s.count != 0 {
      GoneFacts(s.workers);
      var w :| 0 <= w < |s.workers| && !s.workers[w].phase.SignedOff?;
      var worker := s.workers[w];
      if worker.phase.Running? {
        t := s.(workers := s.workers[w := worker.(phase := Produced)], files := s.files + {worker.job});
      } else {
        t := s.(workers := s.workers[w := worker.(phase := SignedOff)], count := s.count - 1);
      }
      assert WorkStep(s, t, w);
      WorkLeftUpdate(s.workers, w, t.workers[w]);
      WorkKeepsInv(order, jobs, s, t, w);
    } else {
      t := Launched(order, jobs, s);
      LaunchKeepsInv(order, jobs, s, t);
    }
  }

  /** The step of the launching thread, if it is not past the barrier. */
  function Launched(order: Order, jobs: int, s: State): (t: State)
    requires !s.pc.Left?
    ensures LaunchStep(order, jobs, s, t)
  {
    match s.pc
    case At(i) =>
      if i >= jobs then s.(pc := Polling)
      else if i in s.files then s.(pc := At(i + 1))
      else if order.CountFirst? then s.(pc := Halfway(i), count := s.count + 1)
      else WithWorker(s, i).(pc := Halfway(i))
    case Halfway(i) =>
      if order.CountFirst? then WithWorker(s, i).(pc := At(i + 1)) else s.(pc := At(i + 1), count := s.count + 1)
    case Polling => if s.count == 0 then s.(pc := Left) else s
  }

  lemma {:induction false} LeadsPast(order: Order, jobs: int, s: State) returns (path: seq<State>)
    requires 0 <= jobs && Inv(order, jobs, s)
    ensures IsPath(order, jobs, path) && path[0] == s && path[|path| - 1].pc.Left?
    decreases Distance(jobs, s.pc), WorkLeft(s.workers)
  {
    if s.pc.Left? {
      path := [s];
    } else {
      var t := StepNearer(order, jobs, s);
      var rest := LeadsPast(order, jobs, t);
      path := [s] + rest;
    }
  }

  /** From every state of every run some continuation passes the barrier: no interleaving gets stuck. */
  lemma NeverStuck(order: Order, jobs: int, run: seq<State>, i: int)
    requires IsRun(order, jobs, run) && 0 <= i < |run|
    ensures exists path: seq<State> :: IsPath(order, jobs, path) && path[0] == run[i] && path[|path| - 1].pc.Left?
  {
    RunInv(order, jobs, run, i);
    var path := LeadsPast(order, jobs, run[i]);
  }
}
