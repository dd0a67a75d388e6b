/** Log levels of modules and destinations, and the cached `min_level` that decides quickly whether a
    message can be skipped. */
module Vlog {
  import opened Text

  /** Levels from `OFF` (0) to `DBG` (5); a higher level is more verbose. */
  type Level = l: int | 0 <= l < 6
  const OFF: Level := 0
  const INFO: Level := 4

  const SYSLOG := 0
  const CONSOLE := 1
  const FILE := 2
  const N_DESTINATIONS := 3
  const ANY_DESTINATION := -1

  /** Does the destination take messages at all? The file only while one is open. */
  predicate Active(destination: int, logFd: int) {
    logFd >= 0 || destination != FILE
  }

  class VlogModule {
    var levels: seq<Level>
    var minLevel: Level

    /** `VLOG_DEFINE_THIS_MODULE`. */
    constructor ()
      ensures levels == [INFO, INFO, INFO] && minLevel == INFO
    {
      levels, minLevel := [INFO, INFO, INFO], INFO;
    }

    /** The cache is the highest level of an active destination, and `OFF` if all are off. */
    ghost predicate InStep(logFd: int)
      reads this
    {
      && |levels| == N_DESTINATIONS
      && (forall d :: 0 <= d < N_DESTINATIONS && Active(d, logFd) ==> levels[d] <= minLevel)
      && (minLevel == OFF || exists d :: 0 <= d < N_DESTINATIONS && Active(d, logFd) && levels[d] == minLevel)
    }

    method UpdateMinLevel(logFd: int)
      requires |levels| == N_DESTINATIONS
      modifies this`minLevel
      ensures InStep(logFd)
    {
      minLevel := OFF;
      ghost var top := 0;
      var destination := 0;
      while destination < N_DESTINATIONS
        invariant 0 <= destination <= N_DESTINATIONS
        invariant forall d :: 0 <= d < destination && Active(d, logFd) ==> levels[d] <= minLevel
        invariant minLevel == OFF || (0 <= top < destination && Active(top, logFd) && levels[top] == minLevel)
      {
        if logFd >= 0 || destination != FILE {
          var level := levels[destination];
          if level > minLevel {
            minLevel, top := level, destination;
          }
        }
        destination := destination + 1;
      }
    }

    /** `vlog_is_enabled`. */
    predicate IsEnabled(level: Level)
      reads this
    {
      minLevel >= level
    }

    /** The destinations that `vlog_valist` writes to: first the levels alone, then the file once more
        against the open descriptor. */
    method Destinations(level: Level, logFd: int) returns (console: bool, syslog: bool, file: bool)
      requires |levels| == N_DESTINATIONS
      ensures console == (levels[CONSOLE] >= level)
      ensures syslog == (levels[SYSLOG] >= level)
      ensures file == (levels[FILE] >= level && logFd >= 0)
      ensures (console || syslog || file) == Emits(levels, logFd, level)
    {
      console := levels[CONSOLE] >= level;
      syslog := levels[SYSLOG] >= level;
      file := levels[FILE] >= level;
      if !(console || syslog || file) {
        return;
      }
      file := file && logFd >= 0;
    }
  }

  /** A message reaches some destination. */
  predicate Emits(levels: seq<Level>, logFd: int, level: Level)
    requires |levels| == N_DESTINATIONS
  {
    levels[CONSOLE] >= level || levels[SYSLOG] >= level || (levels[FILE] >= level && logFd >= 0)
  }

  /** While the cache is in step the quick check is exact. */
  lemma EnabledExactlyIfEmits(m: VlogModule, logFd: int, level: Level)
    requires m.InStep(logFd)
    ensures m.IsEnabled(level) <==> Emits(m.levels, logFd, level)
  {
  }

  /** The operations, with a module given by its place in the list. */
  datatype Op =
    | Insert
    | SetLevels(which: Option<nat>, destination: int, level: Level)
    | SetFile(newFd: int, sameInode: bool, errno: int)
    | CloseFile

  /** What the operations act on, without the caches. */
  datatype LogState = LogState(levels: seq<seq<Level>>, logFd: int)

  function Leveled(levels: seq<Level>, destination: int, level: Level): seq<Level> {
    seq(|levels|, d requires 0 <= d < |levels| => if destination == ANY_DESTINATION || destination == d then level else levels[d])
  }

  function Applied(s: LogState, op: Op): LogState {
    match op
    case Insert => s.(levels := s.levels + [[INFO, INFO, INFO]])
    case SetLevels(which, destination, level) =>
      s.(levels := seq(|s.levels|, i requires 0 <= i < |s.levels| =>
        if which.None? || which.value == i then Leveled(s.levels[i], destination, level) else s.levels[i]))
    case SetFile(newFd, sameInode, _) => s.(logFd := if newFd < 0 || (s.logFd >= 0 && sameInode) then s.logFd else newFd)
    case CloseFile => s.(logFd := if s.logFd >= 0 then -1 else s.logFd)
  }

  function AppliedAll(s: LogState, ops: seq<Op>): LogState {
    if ops == [] then s else Applied(AppliedAll(s, ops[..|ops| - 1]), ops[|ops| - 1])
  }

  class Vlog {
    var modules: seq<VlogModule>
    var logFd: int

    ghost predicate Valid()
      reads this, modules
    {
      && (forall i, j :: 0 <= i < j < |modules| ==> modules[i] != modules[j])
      && (forall i :: 0 <= i < |modules| ==> modules[i].InStep(logFd))
    }

    ghost function State(): LogState
      reads this, modules
    {
      LogState(seq(|modules|, i requires 0 <= i < |modules| reads this, modules => modules[i].levels), logFd)
    }

    constructor ()
      ensures Valid() && modules == [] && logFd == -1
    {
      modules, logFd := [], -1;
    }

    /** `vlog_insert_module` for a module as its definition leaves it. */
    method InsertModule(m: VlogModule)
      requires Valid() && m !in modules && m.levels == [INFO, INFO, INFO] && m.minLevel == INFO
      modifies this
      ensures Valid() && modules == old(modules) + [m] && logFd == old(logFd)
    {
      assert Active(CONSOLE, logFd) && m.levels[CONSOLE] == m.minLevel;
      modules := modules + [m];
    }

    /** `set_destination_level`; no module means all of them. */
    method SetDestinationLevel(destination: int, module_: VlogModule?, level: Level)
      requires Valid() && 0 <= destination < N_DESTINATIONS
      requires module_ != null ==> module_ in modules
      modifies modules
      ensures Valid()
      ensures forall m :: m in modules ==>
        m.levels == (if module_ == null || m == module_ then old(m.levels)[destination := level] else old(m.levels))
    {
      if module_ == null {
        var i := 0;
        while i < |modules|
          invariant 0 <= i <= |modules|
          invariant forall k :: 0 <= k < |modules| ==> modules[k].InStep(logFd)
          invariant forall k :: 0 <= k < i ==> modules[k].levels == old(modules[k].levels)[destination := level]
          invariant forall k :: i <= k < |modules| ==> modules[k].levels == old(modules[k].levels)
        {
          var mp := modules[i];
          mp.levels := mp.levels[destination := level];
          mp.UpdateMinLevel(logFd);
          i := i + 1;
        }
      } else {
        module_.levels := module_.levels[destination := level];
        module_.UpdateMinLevel(logFd);
      }
    }

    /** `vlog_set_levels`; both the module and the destination can be a wildcard. */
    method SetLevels(module_: VlogModule?, destination: int, level: Level)
      requires Valid() && (0 <= destination < N_DESTINATIONS || destination == ANY_DESTINATION)
      requires module_ != null ==> module_ in modules
      modifies modules
      ensures Valid()
      ensures forall m, d :: m in modules && 0 <= d < N_DESTINATIONS ==>
        m.levels[d] == (if (module_ == null || m == module_) && (destination == ANY_DESTINATION || d == destination)
                        then level else old(m.levels[d]))
    {
      if destination == ANY_DESTINATION {
        var each := 0;
        while each < N_DESTINATIONS
          invariant 0 <= each <= N_DESTINATIONS && Valid()
          invariant forall m, d :: m in modules && 0 <= d < N_DESTINATIONS ==>
            m.levels[d] == (if (module_ == null || m == module_) && d < each then level else old(m.levels[d]))
        {
          SetDestinationLevel(each, module_, level);
          each := each + 1;
        }
      } else {
        SetDestinationLevel(destination, module_, level);
      }
    }

    /** Refresh every cache after the log file changed. */
    method UpdateAll()
      requires forall i, j :: 0 <= i < j < |modules| ==> modules[i] != modules[j]
      requires forall i :: 0 <= i < |modules| ==> |modules[i].levels| == N_DESTINATIONS
      modifies modules
      ensures Valid()
      ensures forall m :: m in modules ==> m.levels == old(m.levels)
    {
      var i := 0;
      while i < |modules|
        invariant 0 <= i <= |modules|
        invariant forall k :: 0 <= k < |modules| ==> modules[k].levels == old(modules[k].levels)
        invariant forall k :: 0 <= k < i ==> modules[k].InStep(logFd)
      {
        modules[i].UpdateMinLevel(logFd);
        i := i + 1;
      }
    }

    /** `vlog_set_log_file`, given what opening returned and whether the new descriptor names the file that
        is already open. */
    method SetLogFile(newFd: int, sameInode: bool, errno: int) returns (error: int)
      requires Valid()
      modifies this`logFd, modules
      ensures Valid() && logFd == (if newFd < 0 || (old(logFd) >= 0 && sameInode) then old(logFd) else newFd)
      ensures error == if newFd < 0 then errno else 0
      ensures forall m :: m in modules ==> m.levels == old(m.levels)
    {
      if newFd < 0 {
        return errno;
      }
      var sameFile := logFd >= 0 && newFd >= 0 && sameInode;
      if sameFile {
        return 0;
      }
      logFd := newFd;
      UpdateAll();
      return 0;
    }

    /** `vlog_unixctl_close`. */
    method Close()
      requires Valid()
      modifies this`logFd, modules
      ensures Valid() && logFd == if old(logFd) >= 0 then -1 else old(logFd)
      ensures forall m :: m in modules ==> m.levels == old(m.levels)
    {
      if logFd >= 0 {
        logFd := -1;
        UpdateAll();
      }
    }

    method SetLevelsAt(which: Option<nat>, destination: int, level: Level)
      requires Valid() && (0 <= destination < N_DESTINATIONS || destination == ANY_DESTINATION)
      modifies modules
      ensures Valid() && State() == Applied(old(State()), Op.SetLevels(which, destination, level))
    {
      ghost var before := State();
      if which.None? {
        SetLevels(null, destination, level);
      } else if which.value < |modules| {
        SetLevels(modules[which.value], destination, level);
      }
      forall i | 0 <= i < |modules|
        ensures modules[i].levels == if which.None? || which.value == i then Leveled(before.levels[i], destination, level) else before.levels[i]
      {
        assert modules[i] in modules && before.levels[i] == old(modules[i].levels);
        assert forall d :: 0 <= d < N_DESTINATIONS ==>
          modules[i].levels[d] == if (which.None? || which.value == i) && (destination == ANY_DESTINATION || d == destination) then level else before.levels[i][d];
      }
    }

    /** One operation; a module that is not in the list is not found, and then nothing changes. */
    method Perform(op: Op)
      requires Valid() && (op.SetLevels? ==> 0 <= op.destination < N_DESTINATIONS || op.destination == ANY_DESTINATION)
      modifies this, modules
      ensures Valid() && State() == Applied(old(State()), op)
      ensures fresh(set m | m in modules && m !in old(modules))
    {
      match op {
        case Insert =>
          var m := new VlogModule();
          InsertModule(m);
        case SetLevels(which, destination, level) =>
          SetLevelsAt(which, destination, level);
        case SetFile(newFd, sameInode, errno) =>
          var _ := SetLogFile(newFd, sameInode, errno);
        case CloseFile =>
          Close();
      }
    }

    /** Any run of operations: levels and log file are what the operations make of them one by one, and at
        the end the quick check of every module answers for every level whether a message goes anywhere. */
    method PerformAll(ops: seq<Op>)
      requires Valid()
      requires forall i :: 0 <= i < |ops| && ops[i].SetLevels? ==>
        0 <= ops[i].destination < N_DESTINATIONS || ops[i].destination == ANY_DESTINATION
      modifies this, modules
      ensures Valid() && State() == AppliedAll(old(State()), ops)
      ensures forall m, level: Level :: m in modules ==> (m.IsEnabled(level) <==> Emits(m.levels, logFd, level))
    {
      var i := 0;
      while i < |ops|
        invariant 0 <= i <= |ops| && Valid() && State() == AppliedAll(old(State()), ops[..i])
        invariant fresh(set m | m in modules && m !in old(modules))
      {
        Perform(ops[i]);
        assert ops[..i + 1][..i] == ops[..i];
        i := i + 1;
      }
      assert ops[..i] == ops;
      forall m, level: Level | m in modules ensures m.IsEnabled(level) <==> Emits(m.levels, logFd, level) {
        EnabledExactlyIfEmits(m, logFd, level);
      }
    }
  }

  /** In every state that the operations lead to, the quick check of any listed module answers for every
      level whether a message would go anywhere. */
  lemma CacheExact(v: Vlog, m: VlogModule, level: Level)
    requires v.Valid() && m in v.modules
    ensures m.IsEnabled(level) <==> Emits(m.levels, v.logFd, level)
  {
  }

  predicate Covers(op: Op, i: nat, d: int) {
    op.SetLevels? && (op.which.None? || op.which.value == i) && (op.destination == ANY_DESTINATION || op.destination == d)
  }

  /** The level that the last operation covering a module and a destination sets, or `init`. */
  function LastSet(init: Level, ops: seq<Op>, i: nat, d: int): Level {
    if ops == [] then init
    else if Covers(ops[|ops| - 1], i, d) then ops[|ops| - 1].level
    else LastSet(init, ops[..|ops| - 1], i, d)
  }

  /** The last setting counts: opening and closing files and inserting modules change no level. */
  lemma {:induction false} LevelIsLastSet(s: LogState, ops: seq<Op>, i: nat, d: int)
    requires i < |s.levels| && |s.levels[i]| == N_DESTINATIONS && 0 <= d < N_DESTINATIONS
    ensures var t := AppliedAll(s, ops);
      i < |t.levels| && |t.levels[i]| == N_DESTINATIONS && t.levels[i][d] == LastSet(s.levels[i][d], ops, i, d)
  {
    if ops != [] {
      LevelIsLastSet(s, ops[..|ops| - 1], i, d);
    }
  }
}
