/** What the traffic session table guarantees over whole runs of reports and takes. */
module TrafficLaws {
  import opened Text
  import opened Traffic

  // ----- One session per stream

  ghost predicate UniqueKeys(table: seq<Stream>) {
    forall i, j :: 0 <= i < j < |table| ==> table[i].key != table[j].key
  }

  lemma {:induction false} SessionOfNone(table: seq<Stream>, key: StreamKey)
    ensures SessionOf(table, key).None? <==> forall i :: 0 <= i < |table| ==> table[i].key != key
  {
    if table != [] {
      SessionOfNone(table[1..], key);
      assert forall i :: 0 < i < |table| ==> table[i] == table[1..][i - 1];
    }
  }

  /** What a report does to every session: its own is updated or appended as reported, any other one can
      only be closed, and only because it has expired. */
  lemma {:induction false} ReportedSession(table: seq<Stream>, r: Stream, now: int, key: StreamKey)
    ensures var before, after := SessionOf(table, key), SessionOf(Reported(table, r, now), key);
      if key == r.key then after == Some(if before.Some? then Updated(before.value, r) else r)
      else if before.None? then after.None?
      else after == before || (Expired(before.value, now) && after == Some(before.value.(isClosed := true)))
  {
    if table != [] {
      var t := Marked(table[0], now);
      if t.key == r.key {
        assert ([Updated(t, r)] + table[1..])[1..] == table[1..];
      } else {
        ReportedSession(table[1..], r, now, key);
        assert ([t] + Reported(table[1..], r, now))[1..] == Reported(table[1..], r, now);
      }
    }
  }

  lemma {:induction false} ReportedUnique(table: seq<Stream>, r: Stream, now: int)
    requires UniqueKeys(table)
    ensures UniqueKeys(Reported(table, r, now))
  {
    if table != [] && table[0].key != r.key {
      var rest := Reported(table[1..], r, now);
      ReportedUnique(table[1..], r, now);
      ReportedSession(table[1..], r, now, table[0].key);
      SessionOfNone(table[1..], table[0].key);
      SessionOfNone(rest, table[0].key);
    }
  }

  lemma {:induction false} SessionOfConcat(a: seq<Stream>, b: seq<Stream>, key: StreamKey)
    ensures SessionOf(a + b, key) == if SessionOf(a, key).Some? then SessionOf(a, key) else SessionOf(b, key)
  {
    if a == [] {
      assert a + b == b;
    } else {
      assert (a + b)[1..] == a[1..] + b;
      SessionOfConcat(a[1..], b, key);
    }
  }

  function Cleared(t: Stream): Stream {
    t.(deltaUpload := 0, deltaDownload := 0)
  }

  /** What a take leaves of each stream: a closed session is gone, an open one stays with nothing pending. */
  lemma {:induction false} AfterTakeSession(table: seq<Stream>, key: StreamKey)
    requires UniqueKeys(table)
    ensures var before := SessionOf(table, key);
      SessionOf(AfterTake(table), key) == if before.None? || before.value.isClosed then None else Some(Cleared(before.value))
  {
    if table != [] {
      var init, t := table[..|table| - 1], table[|table| - 1];
      AfterTakeSession(init, key);
      assert table == init + [t];
      SessionOfConcat(init, [t], key);
      assert [t][1..] == [];
      if t.key == key { SessionOfNone(init, key); }
      if !t.isClosed {
        SessionOfConcat(AfterTake(init), [Cleared(t)], key);
        assert [Cleared(t)][1..] == [];
      }
    }
  }

  lemma {:induction false} AfterTakeUnique(table: seq<Stream>)
    requires UniqueKeys(table)
    ensures UniqueKeys(AfterTake(table))
  {
    if table != [] {
      var init, t := table[..|table| - 1], table[|table| - 1];
      AfterTakeUnique(init);
      AfterTakeSession(init, t.key);
      SessionOfNone(init, t.key);
      SessionOfNone(AfterTake(init), t.key);
    }
  }

  /** The places of the open sessions. */
  function OpenPlaces(table: seq<Stream>): seq<int> {
    if table == [] then []
    else OpenPlaces(table[..|table| - 1]) + if table[|table| - 1].isClosed then [] else [|table| - 1]
  }

  /** Places in a table of `n`, in its order. */
  ghost predicate InOrder(places: seq<int>, n: int) {
    && (forall i :: 0 <= i < |places| ==> 0 <= places[i] < n)
    && (forall i, j :: 0 <= i < j < |places| ==> places[i] < places[j])
  }

  /** `s` is the open session at place `p`, with nothing pending. */
  ghost predicate KeptAt(table: seq<Stream>, p: int, s: Stream) {
    0 <= p < |table| && !table[p].isClosed && s == table[p].(deltaUpload := 0, deltaDownload := 0)
  }

  lemma InOrderSnoc(places: seq<int>, n: int)
    requires 0 <= n && InOrder(places, n)
    ensures InOrder(places, n + 1) && InOrder(places + [n], n + 1) && places + [] == places
  {
  }

  lemma KeptAtInit(table: seq<Stream>, n: int, p: int, s: Stream)
    requires 0 <= n <= |table| && KeptAt(table[..n], p, s)
    ensures KeptAt(table, p, s)
  {
  }

  /** The sessions a take keeps are the open ones, all of them, in the order of the table, changed in
      nothing but their deltas. */
  lemma {:induction false} KeptInOrder(table: seq<Stream>)
    ensures |AfterTake(table)| == |OpenPlaces(table)| && InOrder(OpenPlaces(table), |table|)
    ensures forall i :: 0 <= i < |OpenPlaces(table)| ==> KeptAt(table, OpenPlaces(table)[i], AfterTake(table)[i])
    ensures forall k :: 0 <= k < |table| && !table[k].isClosed ==> k in OpenPlaces(table)
  {
    if table != [] {
      var n := |table| - 1;
      var places, kept := OpenPlaces(table[..n]), AfterTake(table[..n]);
      KeptInOrder(table[..n]);
      InOrderSnoc(places, n);
      forall i | 0 <= i < |places| ensures KeptAt(table, places[i], kept[i]) {
        KeptAtInit(table, n, places[i], kept[i]);
      }
      forall k | 0 <= k < n && !table[k].isClosed ensures k in places {
        assert table[..n][k] == table[k];
      }
      assert !table[n].isClosed ==> KeptAt(table, n, Cleared(table[n]));
    }
  }

  // ----- Runs

  datatype Step = Report(r: Stream, now: int) | Take

  function Apply(table: seq<Stream>, step: Step): seq<Stream> {
    match step
    case Report(r, now) => Reported(table, r, now)
    case Take => AfterTake(table)
  }

  function Run(table: seq<Stream>, steps: seq<Step>): seq<Stream>
    decreases |steps|
  {
    if steps == [] then table else Run(Apply(table, steps[0]), steps[1..])
  }

  /** Starting from the empty table, or from any table with unique keys, no run ever holds two sessions
      of one stream. */
  lemma {:induction false} RunUnique(table: seq<Stream>, steps: seq<Step>)
    requires UniqueKeys(table)
    ensures UniqueKeys(Run(table, steps))
    decreases |steps|
  {
    if steps != [] {
      match steps[0] {
        case Report(r, now) => ReportedUnique(table, r, now);
        case Take => AfterTakeUnique(table);
      }
      RunUnique(Apply(table, steps[0]), steps[1..]);
    }
  }

  /** A batch of reports is a run of single ones. */
  lemma {:induction false} BatchIsRun(table: seq<Stream>, reports: seq<Stream>, now: int, steps: seq<Step>)
    requires |steps| == |reports| && forall i :: 0 <= i < |reports| ==> steps[i] == Report(reports[i], now)
    ensures ReportedAll(table, reports, now) == Run(table, steps)
  {
    if reports != [] {
      var n := |reports| - 1;
      BatchIsRun(table, reports[..n], now, steps[..n]);
      assert steps == steps[..n] + [steps[n]];
      RunConcat(table, steps[..n], [steps[n]]);
      assert [steps[n]][1..] == [];
    }
  }

  lemma {:induction false} RunConcat(table: seq<Stream>, a: seq<Step>, b: seq<Step>)
    ensures Run(table, a + b) == Run(Run(table, a), b)
    decreases |a|
  {
    if a == [] {
      assert a + b == b;
    } else {
      assert (a + b)[1..] == a[1..] + b;
      RunConcat(Apply(table, a[0]), a[1..], b);
    }
  }

  // ----- Telescoping

  /** The stream has a session at every point of the run. */
  ghost predicate Stays(table: seq<Stream>, steps: seq<Step>, key: StreamKey)
    decreases |steps|
  {
    SessionOf(table, key).Some? && (steps == [] || Stays(Apply(table, steps[0]), steps[1..], key))
  }

  function Upload(s: Stream): int { s.upload }
  function Download(s: Stream): int { s.download }
  function DeltaUpload(s: Stream): int { s.deltaUpload }
  function DeltaDownload(s: Stream): int { s.deltaDownload }

  /** What the takes of a run hand out for one stream. */
  function Delivered(table: seq<Stream>, steps: seq<Step>, key: StreamKey, delta: Stream -> int): int
    decreases |steps|
  {
    if steps == [] then 0
    else
      var s := SessionOf(table, key);
      (if steps[0].Take? && s.Some? then delta(s.value) else 0) + Delivered(Apply(table, steps[0]), steps[1..], key, delta)
  }

  /** The largest counter a run reports for one stream, starting from `init`. */
  function Highest(init: int, steps: seq<Step>, key: StreamKey, counter: Stream -> int): int
    decreases |steps|
  {
    if steps == [] then init
    else Highest(if steps[0].Report? && steps[0].r.key == key then Max(init, counter(steps[0].r)) else init, steps[1..], key, counter)
  }

  /** The highest counter is one of those reported, or the first one, and none is above it. */
  lemma {:induction false} HighestIsMaximum(init: int, steps: seq<Step>, key: StreamKey, counter: Stream -> int)
    ensures init <= Highest(init, steps, key, counter)
    ensures forall i :: 0 <= i < |steps| && Own(steps[i], key) ==> counter(steps[i].r) <= Highest(init, steps, key, counter)
    ensures Highest(init, steps, key, counter) == init ||
            exists i :: 0 <= i < |steps| && Own(steps[i], key) && counter(steps[i].r) == Highest(init, steps, key, counter)
    decreases |steps|
  {
    if steps != [] {
      var next := if steps[0].Report? && steps[0].r.key == key then Max(init, counter(steps[0].r)) else init;
      HighestIsMaximum(next, steps[1..], key, counter);
      assert forall i :: 0 < i < |steps| ==> steps[i] == steps[1..][i - 1];
      if i :| 0 <= i < |steps[1..]| && Own(steps[1..][i], key) && counter(steps[1..][i].r) == Highest(next, steps[1..], key, counter) {
        assert steps[i + 1] == steps[1..][i];
      } else if next != init {
        assert Own(steps[0], key) && counter(steps[0].r) == next;
      }
    }
  }

  predicate Own(step: Step, key: StreamKey) {
    step.Report? && step.r.key == key
  }

  /** Over any run of reports and takes during which the session stays, its counters are the running
      maxima of what was reported, and what was delivered plus what is pending is exactly the growth
      since the start of the run on top of what was pending then. */
  lemma {:induction false} Telescoping(table: seq<Stream>, steps: seq<Step>, key: StreamKey, t0: Stream)
    requires UniqueKeys(table) && SessionOf(table, key) == Some(t0) && !t0.isFirst
    requires Stays(table, steps, key)
    ensures SessionOf(Run(table, steps), key).Some?
    ensures var t := SessionOf(Run(table, steps), key).value;
      && !t.isFirst
      && t.upload == Highest(t0.upload, steps, key, Upload)
      && t.download == Highest(t0.download, steps, key, Download)
      && Delivered(table, steps, key, DeltaUpload) + t.deltaUpload == t0.deltaUpload + (t.upload - t0.upload)
      && Delivered(table, steps, key, DeltaDownload) + t.deltaDownload == t0.deltaDownload + (t.download - t0.download)
    decreases |steps|
  {
    if steps != [] {
      var next := Apply(table, steps[0]);
      var t1 := SessionOf(next, key).value;
      match steps[0] {
        case Report(r, now) =>
          ReportedUnique(table, r, now);
          ReportedSession(table, r, now, key);
        case Take =>
          AfterTakeUnique(table);
          AfterTakeSession(table, key);
      }
      Telescoping(next, steps[1..], key, t1);
    }
  }

  lemma {:induction false} DeliveredConcat(table: seq<Stream>, a: seq<Step>, b: seq<Step>, key: StreamKey, delta: Stream -> int)
    ensures Delivered(table, a + b, key, delta) == Delivered(table, a, key, delta) + Delivered(Run(table, a), b, key, delta)
    decreases |a|
  {
    if a == [] {
      assert a + b == b;
    } else {
      assert (a + b)[1..] == a[1..] + b;
      DeliveredConcat(Apply(table, a[0]), a[1..], b, key, delta);
    }
  }

  lemma {:induction false} StaysConcat(table: seq<Stream>, a: seq<Step>, b: seq<Step>, key: StreamKey)
    requires Stays(table, a + b, key)
    ensures Stays(table, a, key) && Stays(Run(table, a), b, key)
    decreases |a|
  {
    if a == [] {
      assert a + b == b;
    } else {
      assert (a + b)[1..] == a[1..] + b;
      StaysConcat(Apply(table, a[0]), a[1..], b, key);
    }
  }

  lemma DeliveredByTake(table: seq<Stream>, key: StreamKey, delta: Stream -> int)
    requires SessionOf(table, key).Some?
    ensures Delivered(table, [Take], key, delta) == delta(SessionOf(table, key).value)
  {
    assert Delivered(Apply(table, Take), [Take][1..], key, delta) == 0;
  }

  /** A take settles the account: after it, exactly the growth of the counters has been delivered, also
      when this take drops the session because it was closed. */
  lemma TakeSettles(table: seq<Stream>, steps: seq<Step>, key: StreamKey, t0: Stream)
    requires UniqueKeys(table) && SessionOf(table, key) == Some(t0) && !t0.isFirst
    requires Stays(table, steps, key)
    ensures Delivered(table, steps + [Take], key, DeltaUpload) ==
            t0.deltaUpload + Highest(t0.upload, steps, key, Upload) - t0.upload
    ensures Delivered(table, steps + [Take], key, DeltaDownload) ==
            t0.deltaDownload + Highest(t0.download, steps, key, Download) - t0.download
  {
    Telescoping(table, steps, key, t0);
    DeliveredConcat(table, steps, [Take], key, DeltaUpload);
    DeliveredConcat(table, steps, [Take], key, DeltaDownload);
    DeliveredByTake(Run(table, steps), key, DeltaUpload);
    DeliveredByTake(Run(table, steps), key, DeltaDownload);
  }

  ghost predicate Silent(steps: seq<Step>, key: StreamKey) {
    forall i :: 0 <= i < |steps| && steps[i].Report? ==> steps[i].r.key != key
  }

  lemma SilentTail(steps: seq<Step>, key: StreamKey)
    requires steps != [] && Silent(steps, key)
    ensures Silent(steps[1..], key) && (steps[0].Report? ==> steps[0].r.key != key)
    ensures Take in steps <==> steps[0] == Take || Take in steps[1..]
  {
    assert steps == [steps[0]] + steps[1..];
    assert forall i :: 0 <= i < |steps[1..]| ==> steps[1..][i] == steps[i + 1];
  }

  /** A step that is no report of the stream changes no counter; a take clears what is pending. */
  lemma SilentStep(table: seq<Stream>, step: Step, key: StreamKey, t0: Stream, delta: Stream -> int)
    requires UniqueKeys(table) && SessionOf(table, key) == Some(t0) && Additive(delta)
    requires SessionOf(Apply(table, step), key).Some? && (step.Report? ==> step.r.key != key)
    ensures UniqueKeys(Apply(table, step))
    ensures var t := SessionOf(Apply(table, step), key).value;
      t.isFirst == t0.isFirst && t.upload == t0.upload && t.download == t0.download && delta(t) == if step.Take? then 0 else delta(t0)
  {
    match step {
      case Report(r, now) =>
        ReportedUnique(table, r, now);
        ReportedSession(table, r, now, key);
      case Take =>
        AfterTakeUnique(table);
        AfterTakeSession(table, key);
    }
  }

  /** Until its first update a session inserted as a first report keeps its counters; what the insertion
      had pending is handed out by the first take, if there is one, and stays pending otherwise. */
  lemma {:induction false} BeforeFirstUpdate(table: seq<Stream>, steps: seq<Step>, key: StreamKey, t0: Stream, delta: Stream -> int)
    requires UniqueKeys(table) && SessionOf(table, key) == Some(t0) && Additive(delta)
    requires Stays(table, steps, key) && Silent(steps, key)
    ensures UniqueKeys(Run(table, steps)) && SessionOf(Run(table, steps), key).Some?
    ensures var t := SessionOf(Run(table, steps), key).value;
      && t.isFirst == t0.isFirst && t.upload == t0.upload && t.download == t0.download
      && Delivered(table, steps, key, delta) == (if Take in steps then delta(t0) else 0)
      && delta(t) == if Take in steps then 0 else delta(t0)
    decreases |steps|
  {
    if steps != [] {
      var next := Apply(table, steps[0]);
      SilentStep(table, steps[0], key, t0, delta);
      SilentTail(steps, key);
      BeforeFirstUpdate(next, steps[1..], key, SessionOf(next, key).value, delta);
    }
  }

  lemma FromFirstUpdate(table: seq<Stream>, r: Stream, now: int, steps: seq<Step>, t0: Stream)
    requires UniqueKeys(table) && SessionOf(table, r.key) == Some(t0) && t0.isFirst
    requires Stays(Reported(table, r, now), steps, r.key)
    ensures SessionOf(Run(table, [Report(r, now)] + steps), r.key).Some?
    ensures var run := [Report(r, now)] + steps;
      var t := SessionOf(Run(table, run), r.key).value;
      && Delivered(table, run, r.key, DeltaUpload) + t.deltaUpload == r.upload + (t.upload - Max(t0.upload, r.upload))
      && Delivered(table, run, r.key, DeltaDownload) + t.deltaDownload == r.download + (t.download - Max(t0.download, r.download))
  {
    assert ([Report(r, now)] + steps)[1..] == steps;
    ReportedUnique(table, r, now);
    ReportedSession(table, r, now, r.key);
    Telescoping(Reported(table, r, now), steps, r.key, Updated(t0, r));
  }

  /** The account of a session inserted as a first report, from its insertion on: the first update starts
      it over with the whole reported counter, and from there on the run telescopes; what a take handed
      out before that update comes on top. */
  lemma TelescopingFromFirst(table: seq<Stream>, before: seq<Step>, r: Stream, now: int, steps: seq<Step>, t0: Stream)
    requires UniqueKeys(table) && SessionOf(table, r.key) == Some(t0) && t0.isFirst
    requires Silent(before, r.key) && Stays(table, before + ([Report(r, now)] + steps), r.key)
    ensures var run := before + ([Report(r, now)] + steps);
      var t := SessionOf(Run(table, run), r.key).GetOr(t0);
      && SessionOf(Run(table, run), r.key).Some?
      && Delivered(table, run, r.key, DeltaUpload) + t.deltaUpload ==
         (if Take in before then t0.deltaUpload else 0) + r.upload + (t.upload - Max(t0.upload, r.upload))
      && Delivered(table, run, r.key, DeltaDownload) + t.deltaDownload ==
         (if Take in before then t0.deltaDownload else 0) + r.download + (t.download - Max(t0.download, r.download))
  {
    var rest := [Report(r, now)] + steps;
    var middle := Run(table, before);
    StaysConcat(table, before, rest, r.key);
    RunConcat(table, before, rest);
    BeforeFirstUpdate(table, before, r.key, t0, DeltaUpload);
    BeforeFirstUpdate(table, before, r.key, t0, DeltaDownload);
    assert rest[1..] == steps;
    FromFirstUpdate(middle, r, now, steps, SessionOf(middle, r.key).value);
    DeliveredConcat(table, before, rest, r.key, DeltaUpload);
    DeliveredConcat(table, before, rest, r.key, DeltaDownload);
  }

  // ----- What a session says about its stream

  /** The last value that reports of the stream give, or `init` if none gives one. */
  function LastSaid<T>(init: T, steps: seq<Step>, key: StreamKey, says: Stream -> Option<T>): T
    decreases |steps|
  {
    if steps == [] then init
    else LastSaid(if steps[0].Report? && steps[0].r.key == key then says(steps[0].r).GetOr(init) else init, steps[1..], key, says)
  }

  function SaysTime(r: Stream): Option<int> { Some(r.updatedAt) }
  function SaysPort(r: Stream): Option<int> { if r.port > 0 then Some(r.port) else None }
  function SaysProto(r: Stream): Option<string> { if r.proto != "" then Some(Prefix(r.proto, PROTO_COPY)) else None }
  function SaysIp(r: Stream): Option<string> { if r.ip != "" then Some(Prefix(r.ip, IP_COPY)) else None }

  /** What a report says: a port above zero, a protocol of at most four characters, an address of at most
      63, and always its time. */
  lemma SaysWhat(r: Stream)
    ensures SaysTime(r) == Some(r.updatedAt)
    ensures SaysPort(r) == if r.port > 0 then Some(r.port) else None
    ensures SaysProto(r) == if |r.proto| == 0 then None else if |r.proto| <= 4 then Some(r.proto) else Some(r.proto[..4])
    ensures SaysIp(r) == if |r.ip| == 0 then None else if |r.ip| <= 63 then Some(r.ip) else Some(r.ip[..63])
  {
  }

  /** Over the same runs, time, port, protocol and address are the last ones reported; an empty string or
      a port that is not positive reports nothing. */
  lemma {:induction false} DescriptionIsLastReported(table: seq<Stream>, steps: seq<Step>, key: StreamKey, t0: Stream)
    requires UniqueKeys(table) && SessionOf(table, key) == Some(t0) && Stays(table, steps, key)
    ensures SessionOf(Run(table, steps), key).Some?
    ensures var t := SessionOf(Run(table, steps), key).value;
      && t.key == key
      && t.updatedAt == LastSaid(t0.updatedAt, steps, key, SaysTime)
      && t.port == LastSaid(t0.port, steps, key, SaysPort)
      && t.proto == LastSaid(t0.proto, steps, key, SaysProto)
      && t.ip == LastSaid(t0.ip, steps, key, SaysIp)
    decreases |steps|
  {
    SessionOfKey(table, key);
    if steps != [] {
      var next := Apply(table, steps[0]);
      match steps[0] {
        case Report(r, now) =>
          ReportedUnique(table, r, now);
          ReportedSession(table, r, now, key);
        case Take =>
          AfterTakeUnique(table);
          AfterTakeSession(table, key);
      }
      DescriptionIsLastReported(next, steps[1..], key, SessionOf(next, key).value);
    }
  }

  lemma {:induction false} SessionOfKey(table: seq<Stream>, key: StreamKey)
    ensures SessionOf(table, key).Some? ==> SessionOf(table, key).value.key == key
  {
    if table != [] {
      SessionOfKey(table[1..], key);
    }
  }

  /** Where the scan for a stream stops: at its first session, or behind the table. */
  function ScanEnd(table: seq<Stream>, key: StreamKey): nat {
    if table == [] || table[0].key == key then 0 else 1 + ScanEnd(table[1..], key)
  }

  /** Expiry is noticed only on the way: a report closes another stream's expired session exactly when
      that session lies before the point where the scan stops. */
  lemma {:induction false} ExpiryNoticedExactlyBefore(table: seq<Stream>, r: Stream, now: int, i: int)
    requires 0 <= i < |table| && i != ScanEnd(table, r.key)
    ensures |Reported(table, r, now)| > i
    ensures Reported(table, r, now)[i].isClosed <==> table[i].isClosed || (Expired(table[i], now) && i < ScanEnd(table, r.key))
  {
    if table[0].key != r.key && i > 0 {
      ExpiryNoticedExactlyBefore(table[1..], r, now, i - 1);
    }
  }

  /** The scan stops at the first session of the stream, or behind the table if it has none. */
  lemma {:induction false} ScanEndIsFirst(table: seq<Stream>, key: StreamKey)
    ensures ScanEnd(table, key) <= |table| && forall i :: 0 <= i < ScanEnd(table, key) ==> table[i].key != key
    ensures ScanEnd(table, key) < |table| ==> table[ScanEnd(table, key)].key == key
  {
    if table != [] && table[0].key != key {
      ScanEndIsFirst(table[1..], key);
    }
  }

  /** A report moves no session, and a new stream joins at the end, as reported. */
  lemma {:induction false} ReportedInPlace(table: seq<Stream>, r: Stream, now: int)
    ensures var after := Reported(table, r, now);
      && |table| <= |after| <= |table| + 1 && (forall i :: 0 <= i < |table| ==> after[i].key == table[i].key)
      && (|after| == |table| <==> exists i :: 0 <= i < |table| && table[i].key == r.key)
      && (|after| > |table| ==> after[|table|] == r)
  {
    if table != [] && table[0].key != r.key {
      ReportedInPlace(table[1..], r, now);
      if i :| 0 <= i < |table| - 1 && table[1..][i].key == r.key { assert table[i + 1].key == r.key; }
      if i :| 0 <= i < |table| && table[i].key == r.key { assert table[1..][i - 1].key == r.key; }
    }
  }

  // ----- Which sessions are closed

  /** A report of another stream finds the session of `key` expired on its way. */
  ghost predicate Noticed(table: seq<Stream>, r: Stream, now: int, key: StreamKey) {
    && SessionOf(table, key).Some? && now - SessionOf(table, key).value.updatedAt > 600
    && ScanEnd(table, key) < ScanEnd(table, r.key)
  }

  lemma {:induction false} NoticedCloses(table: seq<Stream>, r: Stream, now: int, key: StreamKey)
    requires key != r.key && SessionOf(table, key).Some?
    ensures SessionOf(Reported(table, r, now), key).Some?
    ensures SessionOf(Reported(table, r, now), key).value.isClosed <==>
            SessionOf(table, key).value.isClosed || Noticed(table, r, now, key)
  {
    var t := Marked(table[0], now);
    if t.key == r.key {
      assert ([Updated(t, r)] + table[1..])[1..] == table[1..];
    } else if t.key != key {
      NoticedCloses(table[1..], r, now, key);
      assert ([t] + Reported(table[1..], r, now))[1..] == Reported(table[1..], r, now);
    }
  }

  /** Whether the session of `key` is closed after a run, from the run alone: its own last report decides,
      unless a report of another stream noticed its expiry later. */
  ghost predicate ClosedAfter(table: seq<Stream>, steps: seq<Step>, key: StreamKey, closed: bool)
    decreases |steps|
  {
    if steps == [] then closed
    else
      ClosedAfter(Apply(table, steps[0]), steps[1..], key,
        match steps[0]
        case Report(r, now) => if r.key == key then r.isClosed else closed || Noticed(table, r, now, key)
        case Take => closed)
  }

  lemma {:induction false} ClosedFlag(table: seq<Stream>, steps: seq<Step>, key: StreamKey, t0: Stream)
    requires UniqueKeys(table) && SessionOf(table, key) == Some(t0) && Stays(table, steps, key)
    ensures SessionOf(Run(table, steps), key).Some?
    ensures SessionOf(Run(table, steps), key).value.isClosed <==> ClosedAfter(table, steps, key, t0.isClosed)
    decreases |steps|
  {
    if steps != [] {
      var next := Apply(table, steps[0]);
      match steps[0] {
        case Report(r, now) =>
          ReportedUnique(table, r, now);
          ReportedSession(table, r, now, key);
          if r.key != key { NoticedCloses(table, r, now, key); }
        case Take =>
          AfterTakeUnique(table);
          AfterTakeSession(table, key);
      }
      ClosedFlag(next, steps[1..], key, SessionOf(next, key).value);
    }
  }

  /** So a take drops exactly the sessions closed in that sense. */
  lemma TakeDropsClosed(table: seq<Stream>, steps: seq<Step>, key: StreamKey, t0: Stream)
    requires UniqueKeys(table) && SessionOf(table, key) == Some(t0) && Stays(table, steps, key)
    ensures SessionOf(Run(table, steps + [Take]), key).None? <==> ClosedAfter(table, steps, key, t0.isClosed)
  {
    RunConcat(table, steps, [Take]);
    RunUnique(table, steps);
    ClosedFlag(table, steps, key, t0);
    assert Run(Run(table, steps), [Take]) == AfterTake(Run(table, steps)) by { assert [Take][1..] == []; }
    AfterTakeSession(Run(table, steps), key);
  }

  /** A take after a report of the stream drops its session exactly if the report closes it. */
  lemma ClosingReportLeaves(table: seq<Stream>, r: Stream, now: int)
    requires UniqueKeys(table)
    ensures SessionOf(Run(table, [Report(r, now), Take]), r.key).None? <==> r.isClosed
  {
    var after := Reported(table, r, now);
    assert [Report(r, now), Take][1..] == [Take] && [Take][1..] == [];
    assert Run(table, [Report(r, now), Take]) == Run(after, [Take]) == AfterTake(after);
    ReportedUnique(table, r, now);
    ReportedSession(table, r, now, r.key);
    AfterTakeSession(after, r.key);
  }

  /** A report for the first of two sessions leaves the second one open, however long ago it expired. */
  lemma ExpiredStaysOpen(a: Stream, b: Stream, r: Stream)
    requires a.key != b.key && r.key == a.key && b.updatedAt == 0 && !b.isClosed
    ensures Expired(b, 601) && Reported([a, b], r, 601) == [Updated(Marked(a, 601), r), b]
  {
    assert [a, b][1..] == [b];
  }

  // ----- A take conserves traffic

  function Total(table: seq<Stream>, delta: Stream -> int): int {
    if table == [] then 0 else delta(table[0]) + Total(table[1..], delta)
  }

  function GroupTotal(table: seq<Stream>, g: Group, delta: Stream -> int): int {
    if table == [] then 0 else (if GroupOf(table[0]) == g then delta(table[0]) else 0) + GroupTotal(table[1..], g, delta)
  }

  ghost predicate HasGroup(table: seq<Stream>, g: Group) {
    exists i :: 0 <= i < |table| && GroupOf(table[i]) == g
  }

  ghost predicate UniqueGroups(out: seq<Stream>) {
    forall i, j :: 0 <= i < j < |out| ==> GroupOf(out[i]) != GroupOf(out[j])
  }

  /** Either delta counter: adding two records adds it. */
  ghost predicate Additive(delta: Stream -> int) {
    delta == DeltaUpload || delta == DeltaDownload
  }

  lemma {:induction false} TotalsConcat(a: seq<Stream>, b: seq<Stream>, g: Group, delta: Stream -> int)
    ensures Total(a + b, delta) == Total(a, delta) + Total(b, delta)
    ensures GroupTotal(a + b, g, delta) == GroupTotal(a, g, delta) + GroupTotal(b, g, delta)
  {
    if a == [] {
      assert a + b == b;
    } else {
      assert (a + b)[1..] == a[1..] + b;
      TotalsConcat(a[1..], b, g, delta);
    }
  }

  lemma HasGroupConcat(a: seq<Stream>, b: seq<Stream>, g: Group)
    ensures HasGroup(a + b, g) <==> HasGroup(a, g) || HasGroup(b, g)
  {
    if i :| 0 <= i < |a| && GroupOf(a[i]) == g { assert (a + b)[i] == a[i]; }
    if i :| 0 <= i < |b| && GroupOf(b[i]) == g { assert (a + b)[|a| + i] == b[i]; }
  }

  lemma {:induction false} GroupedKeeps(out: seq<Stream>, s: Stream, g: Group, delta: Stream -> int)
    requires Additive(delta)
    ensures Total(Grouped(out, s), delta) == Total(out, delta) + delta(s)
    ensures GroupTotal(Grouped(out, s), g, delta) == GroupTotal(out, g, delta) + if GroupOf(s) == g then delta(s) else 0
    ensures HasGroup(Grouped(out, s), g) <==> HasGroup(out, g) || GroupOf(s) == g
  {
    if out == [] {
      assert [s][1..] == [] && [s][0] == s;
    } else {
      CompareTrafficGroups(s, out[0]);
      assert out == [out[0]] + out[1..] && [out[0]][0] == out[0];
      HasGroupConcat([out[0]], out[1..], g);
      var head, rest := if RealEqual(s, out[0]) then Plus(out[0], s) else out[0], if RealEqual(s, out[0]) then out[1..] else Grouped(out[1..], s);
      assert Grouped(out, s) == [head] + rest && ([head] + rest)[1..] == rest && [head][0] == head;
      HasGroupConcat([head], rest, g);
      if !RealEqual(s, out[0]) { GroupedKeeps(out[1..], s, g, delta); }
    }
  }

  lemma {:induction false} GroupedUnique(out: seq<Stream>, s: Stream)
    requires UniqueGroups(out)
    ensures UniqueGroups(Grouped(out, s))
  {
    if out != [] {
      CompareTrafficGroups(s, out[0]);
      if !RealEqual(s, out[0]) {
        GroupedUnique(out[1..], s);
        var g := GroupOf(out[0]);
        GroupedKeeps(out[1..], s, g, DeltaUpload);
        assert forall i :: 0 <= i < |out[1..]| ==> out[1..][i] == out[i + 1];
        assert !HasGroup(Grouped(out[1..], s), g);
      }
    }
  }

  lemma {:induction false} GroupedAllUnique(table: seq<Stream>)
    ensures UniqueGroups(GroupedAll(table))
  {
    if table != [] {
      GroupedAllUnique(table[..|table| - 1]);
      GroupedUnique(GroupedAll(table[..|table| - 1]), table[|table| - 1]);
    }
  }

  lemma {:induction false} NothingPendingAfterTake(table: seq<Stream>, g: Group, delta: Stream -> int)
    requires Additive(delta)
    ensures Total(AfterTake(table), delta) == 0
  {
    if table != [] {
      var init, s := table[..|table| - 1], table[|table| - 1];
      NothingPendingAfterTake(init, g, delta);
      TotalsConcat(AfterTake(init), [Cleared(s)], g, delta);
      assert [Cleared(s)][1..] == [];
    }
  }

  lemma {:induction false} GroupedAllTotals(table: seq<Stream>, g: Group, delta: Stream -> int)
    requires Additive(delta)
    ensures HasGroup(GroupedAll(table), g) <==> HasGroup(table, g)
    ensures GroupTotal(GroupedAll(table), g, delta) == GroupTotal(table, g, delta)
    ensures Total(GroupedAll(table), delta) == Total(table, delta)
  {
    if table != [] {
      var init, s := table[..|table| - 1], table[|table| - 1];
      GroupedAllTotals(init, g, delta);
      GroupedKeeps(GroupedAll(init), s, g, delta);
      assert table == init + [s] && [s][1..] == [] && [s][0] == s;
      TotalsConcat(init, [s], g, delta);
      HasGroupConcat(init, [s], g);
    }
  }

  /** The records of a take: no two of one group, every group of the table and no other, each with the
      sum of its sessions, and the total of everything that was pending. */
  lemma TakeConserves(table: seq<Stream>, g: Group, delta: Stream -> int)
    requires Additive(delta)
    ensures UniqueGroups(GroupedAll(table))
    ensures HasGroup(GroupedAll(table), g) <==> HasGroup(table, g)
    ensures GroupTotal(GroupedAll(table), g, delta) == GroupTotal(table, g, delta)
    ensures Total(GroupedAll(table), delta) == Total(table, delta)
    ensures Total(AfterTake(table), delta) == 0
  {
    GroupedAllUnique(table);
    GroupedAllTotals(table, g, delta);
    NothingPendingAfterTake(table, g, delta);
  }

  lemma {:induction false} AloneInGroup(out: seq<Stream>, i: int, delta: Stream -> int)
    requires UniqueGroups(out) && 0 <= i < |out|
    ensures GroupTotal(out, GroupOf(out[i]), delta) == delta(out[i])
  {
    if i == 0 {
      NoGroupNoTotal(out[1..], GroupOf(out[0]), delta);
    } else {
      assert GroupOf(out[0]) != GroupOf(out[i]);
      AloneInGroup(out[1..], i - 1, delta);
    }
  }

  /** So a record carries exactly the sum over the sessions of its group. */
  lemma RecordIsGroupTotal(table: seq<Stream>, i: int, delta: Stream -> int)
    requires Additive(delta) && 0 <= i < |GroupedAll(table)|
    ensures delta(GroupedAll(table)[i]) == GroupTotal(table, GroupOf(GroupedAll(table)[i]), delta)
  {
    TakeConserves(table, GroupOf(GroupedAll(table)[i]), delta);
    AloneInGroup(GroupedAll(table), i, delta);
  }

  /** The places of the sessions that are the first of their group. */
  ghost function Firsts(table: seq<Stream>): seq<int> {
    if table == [] then []
    else
      var n := |table| - 1;
      Firsts(table[..n]) + if HasGroup(table[..n], GroupOf(table[n])) then [] else [n]
  }

  predicate SameButDeltas(a: Stream, b: Stream) {
    a == b.(deltaUpload := a.deltaUpload, deltaDownload := a.deltaDownload)
  }

  lemma {:induction false} GroupedShape(out: seq<Stream>, s: Stream)
    ensures if HasGroup(out, GroupOf(s)) then |Grouped(out, s)| == |out| && forall i :: 0 <= i < |out| ==> SameButDeltas(Grouped(out, s)[i], out[i])
            else Grouped(out, s) == out + [s]
  {
    if out != [] {
      CompareTrafficGroups(s, out[0]);
      assert out == [out[0]] + out[1..];
      HasGroupConcat([out[0]], out[1..], GroupOf(s));
      if RealEqual(s, out[0]) {
        assert HasGroup(out, GroupOf(s));
      } else {
        GroupedShape(out[1..], s);
      }
    }
  }

  /** `s` is, but for its deltas, the session at place `p`, the first one of its group. */
  ghost predicate FirstAt(table: seq<Stream>, p: int, s: Stream) {
    0 <= p < |table| && SameButDeltas(s, table[p]) && forall k :: 0 <= k < p ==> GroupOf(table[k]) != GroupOf(table[p])
  }

  lemma FirstAtInit(table: seq<Stream>, n: int, p: int, s: Stream, t: Stream)
    requires 0 <= n <= |table| && FirstAt(table[..n], p, s) && SameButDeltas(t, s)
    ensures FirstAt(table, p, t)
  {
    forall k | 0 <= k < p ensures GroupOf(table[k]) != GroupOf(table[p]) {
      assert table[..n][k] == table[k];
    }
  }

  /** The records of a take, one by one: each is the first session of its group but for its deltas, in the
      order of the table. */
  lemma {:induction false} RecordsAreFirstSessions(table: seq<Stream>)
    ensures |GroupedAll(table)| == |Firsts(table)| && InOrder(Firsts(table), |table|)
    ensures forall i :: 0 <= i < |Firsts(table)| ==> FirstAt(table, Firsts(table)[i], GroupedAll(table)[i])
  {
    if table != [] {
      var n := |table| - 1;
      var out, places := GroupedAll(table[..n]), Firsts(table[..n]);
      RecordsAreFirstSessions(table[..n]);
      InOrderSnoc(places, n);
      GroupedShape(out, table[n]);
      GroupedAllTotals(table[..n], GroupOf(table[n]), DeltaUpload);
      forall i | 0 <= i < |places| ensures FirstAt(table, places[i], GroupedAll(table)[i]) {
        FirstAtInit(table, n, places[i], out[i], GroupedAll(table)[i]);
      }
      if !HasGroup(table[..n], GroupOf(table[n])) {
        forall k | 0 <= k < n ensures GroupOf(table[k]) != GroupOf(table[n]) {
          assert table[..n][k] == table[k];
        }
        assert FirstAt(table, n, table[n]);
      }
    }
  }

  lemma {:induction false} NoGroupNoTotal(table: seq<Stream>, g: Group, delta: Stream -> int)
    requires forall i :: 0 <= i < |table| ==> GroupOf(table[i]) != g
    ensures GroupTotal(table, g, delta) == 0
  {
    if table != [] {
      NoGroupNoTotal(table[1..], g, delta);
    }
  }

  // ----- A run conserves traffic

  /** What one report adds to the pending traffic of the table: a new stream brings its own delta, the
      first update of a first report replaces the pending delta by the whole counter, and any other report
      brings the growth of the counter. */
  function Credit(table: seq<Stream>, r: Stream, counter: Stream -> int, delta: Stream -> int): int {
    match SessionOf(table, r.key)
    case None => delta(r)
    case Some(t) => if t.isFirst then counter(r) - delta(t) else Max(0, counter(r) - counter(t))
  }

  function Credits(table: seq<Stream>, steps: seq<Step>, counter: Stream -> int, delta: Stream -> int): int
    decreases |steps|
  {
    if steps == [] then 0
    else (if steps[0].Report? then Credit(table, steps[0].r, counter, delta) else 0) + Credits(Apply(table, steps[0]), steps[1..], counter, delta)
  }

  /** The traffic in all records that the takes of a run hand out. */
  function Recorded(table: seq<Stream>, steps: seq<Step>, delta: Stream -> int): int
    decreases |steps|
  {
    if steps == [] then 0
    else (if steps[0].Take? then Total(GroupedAll(table), delta) else 0) + Recorded(Apply(table, steps[0]), steps[1..], delta)
  }

  ghost predicate Counts(counter: Stream -> int, delta: Stream -> int) {
    (counter == Upload && delta == DeltaUpload) || (counter == Download && delta == DeltaDownload)
  }

  lemma {:induction false} ReportedTotal(table: seq<Stream>, r: Stream, now: int, counter: Stream -> int, delta: Stream -> int)
    requires Counts(counter, delta)
    ensures Total(Reported(table, r, now), delta) == Total(table, delta) + Credit(table, r, counter, delta)
  {
    if table == [] {
      assert [r][1..] == [];
    } else {
      var t := Marked(table[0], now);
      if t.key == r.key {
        assert ([Updated(t, r)] + table[1..])[1..] == table[1..];
      } else {
        ReportedTotal(table[1..], r, now, counter, delta);
        assert ([t] + Reported(table[1..], r, now))[1..] == Reported(table[1..], r, now);
      }
    }
  }

  /** No run loses or invents traffic: everything in the records of its takes and everything still
      pending is what was pending at the start and what its reports brought. */
  lemma {:induction false} RunConserves(table: seq<Stream>, steps: seq<Step>, counter: Stream -> int, delta: Stream -> int)
    requires Counts(counter, delta)
    ensures Recorded(table, steps, delta) + Total(Run(table, steps), delta) == Total(table, delta) + Credits(table, steps, counter, delta)
    decreases |steps|
  {
    if steps != [] {
      match steps[0] {
        case Report(r, now) => ReportedTotal(table, r, now, counter, delta);
        case Take => TakeConserves(table, Group(0, "", ""), delta);
      }
      RunConserves(Apply(table, steps[0]), steps[1..], counter, delta);
    }
  }

  // ----- What fits its field

  ghost predicate AllStorable(table: seq<Stream>) {
    forall i :: 0 <= i < |table| ==> Storable(table[i])
  }

  lemma {:induction false} ReportedStorable(table: seq<Stream>, r: Stream, now: int)
    requires AllStorable(table) && Storable(r)
    ensures AllStorable(Reported(table, r, now))
  {
    if table != [] && table[0].key != r.key {
      ReportedStorable(table[1..], r, now);
    }
  }

  lemma {:induction false} AfterTakeStorable(table: seq<Stream>)
    requires AllStorable(table)
    ensures AllStorable(AfterTake(table))
  {
    if table != [] {
      AfterTakeStorable(table[..|table| - 1]);
    }
  }

  /** While reports fit the fields, so does every session: the address is never cut, although the code
      copies it with a limit beyond its field, and the protocol is cut to four characters. */
  lemma {:induction false} RunStorable(table: seq<Stream>, steps: seq<Step>)
    requires AllStorable(table) && forall i :: 0 <= i < |steps| && steps[i].Report? ==> Storable(steps[i].r)
    ensures AllStorable(Run(table, steps))
    ensures forall i :: 0 <= i < |steps| && steps[i].Report? ==> Prefix(steps[i].r.ip, IP_COPY) == steps[i].r.ip
    decreases |steps|
  {
    if steps != [] {
      match steps[0] {
        case Report(r, now) => ReportedStorable(table, r, now);
        case Take => AfterTakeStorable(table);
      }
      RunStorable(Apply(table, steps[0]), steps[1..]);
    }
  }

  // ----- Which sessions share a record

  /** Sessions share a record exactly when port, protocol and address agree, as long as protocol and
      address fit the compared prefixes. */
  lemma ShortNamesGroupExactly(a: Stream, b: Stream)
    requires |a.proto| <= PROTO_COMPARE && |b.proto| <= PROTO_COMPARE && |a.ip| <= IP_COMPARE && |b.ip| <= IP_COMPARE
    ensures RealEqual(a, b) <==> a.port == b.port && a.proto == b.proto && a.ip == b.ip
  {
    CompareTrafficGroups(a, b);
  }

  /** The strings have the same character at `k`, or both have ended. */
  predicate AgreeAt(a: string, b: string, k: nat) {
    if k < |a| && k < |b| then a[k] == b[k] else k >= |a| && k >= |b|
  }

  ghost predicate AgreeUpTo(a: string, b: string, n: nat) {
    forall k: nat :: k < n ==> AgreeAt(a, b, k)
  }

  /** Exactly which sessions share a record: equal port, four characters of the protocol, 24 of the address. */
  lemma SharedRecordExactly(a: Stream, b: Stream)
    ensures RealEqual(a, b) <==> a.port == b.port && AgreeUpTo(a.proto, b.proto, 4) && AgreeUpTo(a.ip, b.ip, 24)
  {
    CompareTrafficGroups(a, b);
    PrefixesAgree(a.proto, b.proto, 4);
    PrefixesAgree(a.ip, b.ip, 24);
  }

  lemma PrefixesAgree(a: string, b: string, n: nat)
    ensures Prefix(a, n) == Prefix(b, n) <==> AgreeUpTo(a, b, n)
  {
    var p, q := Prefix(a, n), Prefix(b, n);
    PrefixAgrees(a, n);
    PrefixAgrees(b, n);
    if AgreeUpTo(a, b, n) {
      assert |p| < n ==> AgreeAt(a, b, |p|);
      assert |q| < n ==> AgreeAt(a, b, |q|);
      forall k: nat | k < |p| ensures p[k] == q[k] {
        assert AgreeAt(a, b, k);
      }
    }
    if p == q {
      forall k: nat | k < n ensures AgreeAt(a, b, k) {
        assert k < |p| ==> p[k] == q[k];
      }
    }
  }

  lemma PrefixAgrees(a: string, n: nat)
    ensures |Prefix(a, n)| == (if |a| <= n then |a| else n) && forall k :: 0 <= k < |Prefix(a, n)| ==> Prefix(a, n)[k] == a[k]
  {
  }

  /** A longer address is cut: two IPv6 peers that differ only after 24 characters share a record. */
  lemma LongAddressesCollide(a: Stream, b: Stream)
    requires a.port == b.port && a.proto == b.proto
    requires a.ip == "2001:db8:1111:2222:3333::1" && b.ip == "2001:db8:1111:2222:3333::2"
    ensures |a.ip| < IP_FIELD && |b.ip| < IP_FIELD
    ensures RealEqual(a, b) && a.ip != b.ip
  {
    assert a.ip[25] != b.ip[25];
    assert Prefix(a.ip, IP_COMPARE) == "2001:db8:1111:2222:3333:" == Prefix(b.ip, IP_COMPARE);
    CompareTrafficGroups(a, b);
  }
}
