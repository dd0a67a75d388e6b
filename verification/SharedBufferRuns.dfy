/** Writers and readers of the shared buffer in every interleaving. The lock is a resource of the state,
    and the critical sections run one small step at a time. */
module SharedBufferRuns {
  import opened Text
  import opened SharedBuffer

  /** What has happened, one entry for each effect on the buffer, in the order the effects took place. */
  datatype Event =
    | Wrote(msg: seq<byte>, woke: bool)
    | Reset(lost: seq<byte>)
    | Took(out: seq<byte>)
    | FoundEmpty

  /** Where a process is. Everything from `Check` to `Unlock` runs with the lock held. */
  datatype Local =
    | Idle
    | WantWrite(msg: seq<byte>)
    | Check(msg: seq<byte>)
    | Copy(msg: seq<byte>, woke: bool)
    | Advance(msg: seq<byte>, woke: bool)
    | WantRead
    | Look
    | Clear(out: seq<byte>)
    | Awake
    | Unlock

  predicate Holding(l: Local) {
    !(l.Idle? || l.WantWrite? || l.WantRead?)
  }

  datatype State = State(data: seq<byte>, used: int, sleeping: bool, lock: Option<int>, procs: map<int, Local>, log: seq<Event>)

  /** The size of the region, of its header, and of the longest message that callers write. */
  datatype Config = Config(total: int, header: int, limit: int)

  ghost predicate GoodConfig(c: Config) { 0 < c.header < c.total && c.limit + c.header <= c.total }

  /** `n` bytes fit behind the header, with one to spare if the longest message leaves one. */
  ghost predicate InRegion(c: Config, n: int) {
    n + c.header <= c.total && (c.limit + c.header < c.total ==> n + c.header < c.total)
  }

  ghost function Initial(c: Config, procs: set<int>): State
    requires GoodConfig(c)
  {
    State(seq(c.total - c.header, _ => 0), 0, false, None, map p | p in procs :: Idle, [])
  }

  /** Overwrite the bytes from `at` on. */
  function Blit(data: seq<byte>, at: int, msg: seq<byte>): seq<byte>
    requires 0 <= at && at + |msg| <= |data|
  {
    data[..at] + msg + data[at + |msg|..]
  }

  function Go(s: State, p: int, l: Local): State {
    s.(procs := s.procs[p := l])
  }

  /** An idle process asks for a read, or for a write that respects the callers' obligation. */
  ghost predicate Ask(c: Config, s: State, t: State, p: int) {
    || t == Go(s, p, WantRead)
    || exists m: seq<byte> :: 1 <= |m| <= c.limit && t == Go(s, p, WantWrite(m))
  }

  /** The write section: read the sleeping flag and check the space, copy, advance. */
  ghost predicate WriteStep(c: Config, s: State, t: State, p: int, l: Local) {
    match l
    case Check(msg) =>
      var next := Go(s, p, Copy(msg, s.sleeping));
      if |msg| + s.used + c.header >= c.total
      then 0 <= s.used <= |s.data| && t == next.(used := 0, log := s.log + [Reset(s.data[..s.used])])
      else t == next
    case Copy(msg, woke) =>
      0 <= s.used && s.used + |msg| <= |s.data| && t == Go(s, p, Advance(msg, woke)).(data := Blit(s.data, s.used, msg))
    case Advance(msg, woke) =>
      t == Go(s, p, Unlock).(used := s.used + |msg|, log := s.log + [Wrote(msg, woke)])
    case _ => false
  }

  /** The read section: look, and either note that the reader sleeps or copy out, clear, wake. */
  ghost predicate ReadStep(c: Config, s: State, t: State, p: int, l: Local) {
    match l
    case Look =>
      if s.used < 1 then t == Go(s, p, Unlock).(sleeping := true, log := s.log + [FoundEmpty])
      else s.used <= |s.data| && t == Go(s, p, Clear(s.data[..s.used]))
    case Clear(out) => |s.data| > 0 && t == Go(s, p, Awake).(used := 0, data := s.data[0 := 0], log := s.log + [Took(out)])
    case Awake => t == Go(s, p, Unlock).(sleeping := false)
    case _ => false
  }

  /** One step of process `p`. */
  ghost predicate Next(c: Config, s: State, t: State, p: int) {
    p in s.procs &&
    var l := s.procs[p];
    || (l.Idle? && Ask(c, s, t, p))
    || (l.WantWrite? && s.lock.None? && t == Go(s, p, Check(l.msg)).(lock := Some(p)))
    || (l.WantRead? && s.lock.None? && t == Go(s, p, Look).(lock := Some(p)))
    || WriteStep(c, s, t, p, l)
    || ReadStep(c, s, t, p, l)
    || (l.Unlock? && t == Go(s, p, Idle).(lock := None))
  }

  ghost predicate Moves(c: Config, s: State, t: State) {
    exists p :: Next(c, s, t, p)
  }

  // ----- What the history says

  /** What is pending after an event, if `pending` was before. */
  function PendingAfter(pending: seq<byte>, e: Event): seq<byte> {
    match e
    case Wrote(msg, _) => pending + msg
    case Reset(_) => []
    case Took(_) => []
    case FoundEmpty => pending
  }

  /** The bytes written since the last take or reset. */
  function Pending(log: seq<Event>): seq<byte> {
    if log == [] then [] else PendingAfter(Pending(log[..|log| - 1]), log[|log| - 1])
  }

  /** The last read, if there was one, found the buffer empty. */
  function Asleep(log: seq<Event>): bool {
    if log == [] then false
    else
      var e, before := log[|log| - 1], log[..|log| - 1];
      e.FoundEmpty? || (!e.Took? && Asleep(before))
  }

  /** An event fits what was pending and whether the reader was asleep before it. */
  predicate Fits(pending: seq<byte>, asleep: bool, e: Event) {
    match e
    case Wrote(msg, woke) => msg != [] && woke == asleep
    case Reset(lost) => lost == pending
    case Took(out) => out != [] && out == pending
    case FoundEmpty => pending == []
  }

  /** Every entry of the history fits what came before it. */
  predicate Faithful(log: seq<Event>) {
    log == [] ||
    (Faithful(log[..|log| - 1]) && Fits(Pending(log[..|log| - 1]), Asleep(log[..|log| - 1]), log[|log| - 1]))
  }

  // ----- The invariant

  ghost predicate LockOk(s: State) {
    && (s.lock.Some? ==> s.lock.value in s.procs && Holding(s.procs[s.lock.value]))
    && (forall p :: p in s.procs && Holding(s.procs[p]) ==> s.lock == Some(p))
  }

  /** The buffer is as the history says. */
  ghost predicate Settled(c: Config, s: State) {
    && 0 <= s.used <= |s.data| && InRegion(c, s.used)
    && s.data[..s.used] == Pending(s.log)
  }

  /** What holds at each point of a critical section; with the lock free the buffer is settled. */
  ghost predicate SectionOk(c: Config, s: State, l: Local) {
    match l
    case Copy(msg, woke) => Settled(c, s) && s.sleeping == Asleep(s.log) == woke && InRegion(c, s.used + |msg|) && msg != []
    case Advance(msg, woke) =>
      && Settled(c, s) && s.sleeping == Asleep(s.log) == woke && InRegion(c, s.used + |msg|) && msg != []
      && s.used + |msg| <= |s.data| && s.data[s.used..s.used + |msg|] == msg
    case Clear(out) => Settled(c, s) && out == Pending(s.log) && out != []
    case Awake => Settled(c, s) && !Asleep(s.log)
    case _ => Settled(c, s) && s.sleeping == Asleep(s.log)
  }

  ghost predicate Inv(c: Config, s: State) {
    && GoodConfig(c) && |s.data| == c.total - c.header
    && LockOk(s) && Faithful(s.log)
    && (forall p :: p in s.procs ==> Asked(c, s.procs[p]))
    && SectionOk(c, s, Holder(s))
  }

  /** Messages on their way in respect the callers' obligation. */
  ghost predicate Asked(c: Config, l: Local) {
    match l
    case WantWrite(msg) => 1 <= |msg| <= c.limit
    case Check(msg) => 1 <= |msg| <= c.limit
    case _ => true
  }

  ghost function Holder(s: State): Local {
    if s.lock.Some? && s.lock.value in s.procs then s.procs[s.lock.value] else Idle
  }

  lemma InitialInv(c: Config, procs: set<int>)
    requires GoodConfig(c)
    ensures Inv(c, Initial(c, procs))
  {
  }

  lemma BlitFacts(data: seq<byte>, at: int, msg: seq<byte>)
    requires 0 <= at && at + |msg| <= |data|
    ensures |Blit(data, at, msg)| == |data| && Blit(data, at, msg)[..at] == data[..at] && Blit(data, at, msg)[at..at + |msg|] == msg
  {
  }

  lemma SectionShape(c: Config, s: State, t: State, p: int)
    requires p in s.procs && (WriteStep(c, s, t, p, s.procs[p]) || ReadStep(c, s, t, p, s.procs[p]))
    ensures p in t.procs && t.procs == s.procs[p := t.procs[p]]
    ensures Holding(s.procs[p]) && Holding(t.procs[p]) && t.lock == s.lock
  {
  }

  /** What a step does to the processes and the lock: entering takes it, leaving frees it. */
  lemma StepShape(c: Config, s: State, t: State, p: int)
    requires Next(c, s, t, p)
    ensures p in t.procs && t.procs == s.procs[p := t.procs[p]]
    ensures Holding(s.procs[p]) == Holding(t.procs[p]) ==> t.lock == s.lock
    ensures !Holding(s.procs[p]) && Holding(t.procs[p]) ==> s.lock.None? && t.lock == Some(p)
    ensures Holding(s.procs[p]) && !Holding(t.procs[p]) ==> t.lock.None?
  {
    var l := s.procs[p];
    if WriteStep(c, s, t, p, l) || ReadStep(c, s, t, p, l) {
      SectionShape(c, s, t, p);
    } else if l.Idle? {
      assert Ask(c, s, t, p);
    }
  }

  lemma StepAsked(c: Config, s: State, t: State, p: int)
    requires Next(c, s, t, p) && Asked(c, s.procs[p])
    ensures p in t.procs && Asked(c, t.procs[p])
  {
  }

  /** The lock stays with the one process inside its critical section. */
  lemma StepLock(c: Config, s: State, t: State, p: int)
    requires Next(c, s, t, p) && LockOk(s)
    ensures LockOk(t)
  {
    StepShape(c, s, t, p);
  }

  lemma StepAsk(c: Config, s: State, t: State, p: int)
    requires Next(c, s, t, p) && p in s.procs && s.procs[p].Idle?
    ensures Ask(c, s, t, p) && t.lock == s.lock && !Holding(t.procs[p])
    ensures t.log == s.log && t.data == s.data && t.used == s.used && t.sleeping == s.sleeping
  {
  }

  lemma StepEnter(c: Config, s: State, t: State, p: int)
    requires Next(c, s, t, p) && p in s.procs && (s.procs[p].WantWrite? || s.procs[p].WantRead?)
    ensures s.lock.None? && t.lock == Some(p) && (t.procs[p].Check? || t.procs[p].Look?)
    ensures t.log == s.log && t.data == s.data && t.used == s.used && t.sleeping == s.sleeping
  {
  }

  /** A step outside the critical section leaves the buffer and its history alone. */
  lemma StepOutside(c: Config, s: State, t: State, p: int)
    requires Inv(c, s) && Next(c, s, t, p) && !Holding(s.procs[p])
    ensures t.log == s.log && t.data == s.data && SectionOk(c, t, Holder(t))
  {
    StepShape(c, s, t, p);
    if s.procs[p].Idle? {
      StepAsk(c, s, t, p);
      assert Holder(t) == Holder(s);
    } else {
      StepEnter(c, s, t, p);
      assert Holder(s) == Idle && Holder(t) == t.procs[p];
    }
  }

  lemma StepCheck(c: Config, s: State, t: State, p: int)
    requires Inv(c, s) && Next(c, s, t, p) && s.procs[p].Check?
    ensures |t.data| == |s.data| && Faithful(t.log) && SectionOk(c, t, t.procs[p])
  {
    assert Holder(s) == s.procs[p] && Asked(c, s.procs[p]);
    LogStep(s.log, Reset(s.data[..s.used]));
  }

  lemma StepCopy(c: Config, s: State, t: State, p: int)
    requires Inv(c, s) && Next(c, s, t, p) && s.procs[p].Copy?
    ensures |t.data| == |s.data| && Faithful(t.log) && SectionOk(c, t, t.procs[p])
  {
  }

  lemma StepAdvance(c: Config, s: State, t: State, p: int)
    requires Inv(c, s) && Next(c, s, t, p) && s.procs[p].Advance?
    ensures |t.data| == |s.data| && Faithful(t.log) && SectionOk(c, t, t.procs[p])
  {
    assert Holder(s) == s.procs[p];
    WriteNext(c, s, t, p);
    AdvanceSettles(c, s, t, s.procs[p].msg, s.procs[p].woke);
  }

  lemma AdvanceSettles(c: Config, s: State, t: State, msg: seq<byte>, woke: bool)
    requires SectionOk(c, s, Advance(msg, woke)) && Faithful(s.log)
    requires t.data == s.data && t.used == s.used + |msg| && t.sleeping == s.sleeping && t.log == s.log + [Wrote(msg, woke)]
    ensures Faithful(t.log) && SectionOk(c, t, Unlock)
  {
    LogStep(s.log, Wrote(msg, woke));
    assert t.data[..t.used] == s.data[..s.used] + s.data[s.used..s.used + |msg|];
  }

  lemma StepRead(c: Config, s: State, t: State, p: int)
    requires Inv(c, s) && Next(c, s, t, p) && (s.procs[p].Look? || s.procs[p].Clear? || s.procs[p].Awake?)
    ensures |t.data| == |s.data| && Faithful(t.log) && SectionOk(c, t, t.procs[p])
  {
    assert Holder(s) == s.procs[p];
    LogStep(s.log, FoundEmpty);
    if s.procs[p].Clear? { LogStep(s.log, Took(s.procs[p].out)); }
  }

  /** A step inside it moves the buffer and the history together. */
  lemma StepInside(c: Config, s: State, t: State, p: int)
    requires Inv(c, s) && Next(c, s, t, p) && Holding(s.procs[p])
    ensures |t.data| == |s.data| && Faithful(t.log) && SectionOk(c, t, Holder(t))
  {
    StepShape(c, s, t, p);
    assert s.lock == Some(p);
    var l := s.procs[p];
    if l.Check? { StepCheck(c, s, t, p); }
    else if l.Copy? { StepCopy(c, s, t, p); }
    else if l.Advance? { StepAdvance(c, s, t, p); }
    else if !l.Unlock? { StepRead(c, s, t, p); }
  }

  lemma LogStep(log: seq<Event>, e: Event)
    ensures Pending(log + [e]) == PendingAfter(Pending(log), e)
    ensures Asleep(log + [e]) <==> e.FoundEmpty? || (!e.Took? && Asleep(log))
    ensures Faithful(log + [e]) <==> Faithful(log) && Fits(Pending(log), Asleep(log), e)
  {
  }

  /** Every step of every process keeps the invariant. */
  lemma StepKeepsInv(c: Config, s: State, t: State, p: int)
    requires Inv(c, s) && Next(c, s, t, p)
    ensures Inv(c, t)
  {
    StepShape(c, s, t, p);
    StepLock(c, s, t, p);
    StepAsked(c, s, t, p);
    if Holding(s.procs[p]) {
      StepInside(c, s, t, p);
    } else {
      StepOutside(c, s, t, p);
    }
  }

  /** While one process is in its critical section, steps of the others leave the buffer alone. */
  lemma OthersWait(c: Config, s: State, t: State, p: int, q: int)
    requires Inv(c, s) && s.lock == Some(p) && q != p && Next(c, s, t, q)
    ensures t.lock == s.lock && t.procs[p] == s.procs[p] && t.log == s.log
    ensures t.data == s.data && t.used == s.used && t.sleeping == s.sleeping
  {
  }

  /** A write section has the effect that `SharedData.Write` promises. */
  lemma WriteSection(c: Config, s0: State, s1: State, s2: State, s3: State, p: int)
    requires Inv(c, s0) && p in s0.procs && s0.procs[p].Check?
    requires Next(c, s0, s1, p) && Next(c, s1, s2, p) && Next(c, s2, s3, p)
    ensures var msg := s0.procs[p].msg;
      && 0 <= s0.used <= |s0.data| && 0 <= s3.used <= |s3.data|
      && s3.data[..s3.used] == (if |msg| + s0.used + c.header >= c.total then [] else s0.data[..s0.used]) + msg
      && s3.log[|s3.log| - 1..] == [Wrote(msg, s0.sleeping)]
      && (s3.used + c.header == c.total <==> |msg| + c.header == c.total)
  {
    var msg := s0.procs[p].msg;
    StepKeepsInv(c, s0, s1, p);
    StepKeepsInv(c, s1, s2, p);
    WriteNext(c, s0, s1, p);
    WriteNext(c, s1, s2, p);
    WriteNext(c, s2, s3, p);
    BlitFacts(s1.data, s1.used, msg);
    assert s3.data[..s3.used] == s2.data[..s2.used] + s2.data[s2.used..s2.used + |msg|];
  }

  /** On a state like its own, the method discards in the same cases and ends with the same buffer. */
  method WriteLikeSection(d: SharedData, c: Config, ghost s0: State, ghost s1: State, ghost s2: State, ghost s3: State, ghost p: int, msg: seq<byte>)
    requires Inv(c, s0) && p in s0.procs && s0.procs[p] == Check(msg)
    requires Next(c, s0, s1, p) && Next(c, s1, s2, p) && Next(c, s2, s3, p)
    requires d.Valid() && d.total == c.total && d.header == c.header && d.used == s0.used && d.data[..] == s0.data && d.sleeping == s0.sleeping
    modifies d, d.data
    ensures d.Valid() && d.used == s3.used && d.sleeping == s3.sleeping
    ensures 0 <= s3.used <= |s3.data| && d.Contents() == s3.data[..s3.used]
  {
    WriteSection(c, s0, s1, s2, s3, p);
    assert d.Contents() == s0.data[..s0.used];
    var rs, signal := d.Write(Some(msg), true);
    assert |d.Contents()| == d.used;
  }

  /** A read section on a buffer that holds something takes exactly what is pending, clears it, and leaves
      the reader awake. */
  lemma ReadSection(c: Config, s0: State, s1: State, s2: State, s3: State, p: int)
    requires Inv(c, s0) && p in s0.procs && s0.procs[p].Look? && s0.used > 0
    requires Next(c, s0, s1, p) && Next(c, s1, s2, p) && Next(c, s2, s3, p)
    ensures 0 <= s0.used <= |s0.data| && Pending(s0.log) == s0.data[..s0.used]
    ensures s3.log == s0.log + [Took(s0.data[..s0.used])] && s3.used == 0 && !s3.sleeping
    ensures Pending(s3.log) == [] && p in s3.procs && s3.procs[p].Unlock?
  {
    StepKeepsInv(c, s0, s1, p);
    StepKeepsInv(c, s1, s2, p);
    ReadNext(c, s0, s1, p);
    ReadNext(c, s1, s2, p);
    ReadNext(c, s2, s3, p);
    LogStep(s0.log, Took(s0.data[..s0.used]));
  }

  /** On an empty buffer it takes nothing and leaves the reader asleep. */
  lemma EmptyReadSection(c: Config, s0: State, s1: State, p: int)
    requires Inv(c, s0) && p in s0.procs && s0.procs[p].Look? && s0.used == 0 && Next(c, s0, s1, p)
    ensures s1.log == s0.log + [FoundEmpty] && s1.sleeping && s1.used == 0 && s1.data == s0.data
    ensures p in s1.procs && s1.procs[p].Unlock?
  {
  }

  lemma ReadNext(c: Config, s: State, t: State, p: int)
    requires Next(c, s, t, p) && p in s.procs && (s.procs[p].Look? || s.procs[p].Clear? || s.procs[p].Awake?)
    ensures ReadStep(c, s, t, p, s.procs[p]) && p in t.procs
    ensures s.procs[p].Look? && s.used >= 1 ==> s.used <= |s.data| && t.procs[p] == Clear(s.data[..s.used]) && t.log == s.log
    ensures s.procs[p].Clear? ==> t.procs[p].Awake? && t.used == 0 && t.log == s.log + [Took(s.procs[p].out)]
    ensures s.procs[p].Awake? ==> t.procs[p].Unlock? && t.used == s.used && !t.sleeping && t.log == s.log
  {
  }

  lemma WriteNext(c: Config, s: State, t: State, p: int)
    requires Next(c, s, t, p) && (s.procs[p].Check? || s.procs[p].Copy? || s.procs[p].Advance?)
    ensures WriteStep(c, s, t, p, s.procs[p])
    ensures p in t.procs && s.procs[p].Check? ==> t.procs[p] == Copy(s.procs[p].msg, s.sleeping)
    ensures p in t.procs && s.procs[p].Copy? ==> t.procs[p] == Advance(s.procs[p].msg, s.procs[p].woke)
  {
  }

  // ----- Whole runs

  /** The states a run goes through. */
  ghost predicate IsRun(c: Config, run: seq<State>) {
    && run != [] && GoodConfig(c)
    && (exists procs: set<int> :: run[0] == Initial(c, procs))
    && (forall i :: 0 <= i < |run| - 1 ==> Moves(c, run[i], run[i + 1]))
  }

  lemma {:induction false} RunInv(c: Config, run: seq<State>, i: int)
    requires IsRun(c, run) && 0 <= i < |run|
    ensures Inv(c, run[i])
  {
    if i == 0 {
      var procs: set<int> :| run[0] == Initial(c, procs);
      InitialInv(c, procs);
    } else {
      RunInv(c, run, i - 1);
      assert Moves(c, run[i - 1], run[i - 1 + 1]);
      var p :| Next(c, run[i - 1], run[i], p);
      StepKeepsInv(c, run[i - 1], run[i], p);
    }
  }

  /** In every interleaving: whenever the lock is free the buffer fits the region and holds exactly the
      bytes written since the last take or reset, and the whole history up to then is faithful. */
  lemma FreeLockSettled(c: Config, run: seq<State>, i: int)
    requires IsRun(c, run) && 0 <= i < |run|
    ensures Faithful(run[i].log)
    ensures run[i].lock.None? ==> 0 <= run[i].used <= |run[i].data| && run[i].data[..run[i].used] == Pending(run[i].log)
    ensures run[i].lock.None? ==> run[i].used + c.header <= c.total
    ensures run[i].lock.None? && c.limit + c.header < c.total ==> run[i].used + c.header < c.total
  {
    RunInv(c, run, i);
  }

  // ----- Consequences for the history

  function Written(log: seq<Event>): int {
    if log == [] then 0 else Written(log[..|log| - 1]) + if log[|log| - 1].Wrote? then |log[|log| - 1].msg| else 0
  }

  function Read(log: seq<Event>): int {
    if log == [] then 0 else Read(log[..|log| - 1]) + if log[|log| - 1].Took? then |log[|log| - 1].out| else 0
  }

  function Discarded(log: seq<Event>): int {
    if log == [] then 0 else Discarded(log[..|log| - 1]) + if log[|log| - 1].Reset? then |log[|log| - 1].lost| else 0
  }

  /** No byte is invented or forgotten: written is read, discarded, or still pending. */
  lemma {:induction false} BytesConserved(log: seq<Event>)
    requires Faithful(log)
    ensures Written(log) == Read(log) + Discarded(log) + |Pending(log)|
  {
    if log != [] {
      BytesConserved(log[..|log| - 1]);
    }
  }

  function Concatenated(log: seq<Event>): seq<byte> {
    if log == [] then []
    else Concatenated(log[..|log| - 1]) + if log[|log| - 1].Wrote? then log[|log| - 1].msg else []
  }

  /** What is pending is, in order, the messages of the writes since the last read or reset. */
  lemma {:induction false} PendingIsConcatenation(log: seq<Event>, from: int, to: int)
    requires 0 <= from <= to <= |log|
    requires from == 0 || log[from - 1].Took? || log[from - 1].Reset?
    requires forall i :: from <= i < to ==> log[i].Wrote? || log[i].FoundEmpty?
    ensures Pending(log[..to]) == Concatenated(log[from..to])
  {
    if from == to {
      assert log[from..to] == [];
      if from > 0 { assert log[..to][..to - 1] == log[..to - 1]; }
    } else {
      PendingIsConcatenation(log, from, to - 1);
      assert log[..to][..to - 1] == log[..to - 1] && log[from..to][..to - 1 - from] == log[from..to - 1];
    }
  }

  lemma {:induction false} FaithfulAt(log: seq<Event>, i: int)
    requires Faithful(log) && 0 <= i < |log|
    ensures Fits(Pending(log[..i]), Asleep(log[..i]), log[i])
  {
    var n := |log| - 1;
    if i < n {
      FaithfulAt(log[..n], i);
      assert log[..n][..i] == log[..i];
    }
  }

  /** A read that finds something returns, in order, exactly the messages written since the read or reset
      before it. */
  lemma ReadReturnsWrites(log: seq<Event>, from: int, to: int)
    requires Faithful(log) && 0 <= from <= to < |log| && log[to].Took?
    requires from == 0 || log[from - 1].Took? || log[from - 1].Reset?
    requires forall i :: from <= i < to ==> log[i].Wrote? || log[i].FoundEmpty?
    ensures log[to].out == Concatenated(log[from..to])
  {
    FaithfulAt(log, to);
    PendingIsConcatenation(log, from, to);
  }

  /** Every write between a read that found nothing and the next read that finds something reports the
      reader as sleeping, and no other write does. */
  lemma WritesReportSleep(log: seq<Event>, w: int)
    requires Faithful(log) && 0 <= w < |log| && log[w].Wrote?
    ensures log[w].woke <==> exists e :: 0 <= e < w && log[e].FoundEmpty? && forall i :: e < i < w ==> !log[i].Took?
  {
    FaithfulAt(log, w);
    AsleepSince(log, w);
  }

  lemma {:induction false} AsleepSince(log: seq<Event>, w: int)
    requires 0 <= w <= |log|
    ensures Asleep(log[..w]) <==> exists e :: 0 <= e < w && log[e].FoundEmpty? && forall i :: e < i < w ==> !log[i].Took?
  {
    if w > 0 {
      AsleepSince(log, w - 1);
      assert log[..w][..w - 1] == log[..w - 1] && log[..w][w - 1] == log[w - 1];
    }
  }
}
