/** The traffic session table: reports of running byte counters are folded into one session per stream,
    and a take hands out what was not handed out before, regrouped by port, protocol and address. */
module Traffic {
  import opened Text

  datatype StreamKey = StreamKey(startSec: int, startNsec: int, pid: int, streamId: int)

  /** `TRAFFIC_STREAM_INFO`; counters are unbounded here. */
  datatype Stream = Stream(key: StreamKey, isFirst: bool, isClosed: bool, updatedAt: int, ip: string, proto: string, port: int,
                           upload: int, download: int, deltaUpload: int, deltaDownload: int)

  const EXPIRE_AFTER := 10 * 60
  /** Sizes of the fields of a session, terminators included; the copy of an address allows for more. */
  const IP_FIELD := 32
  const PROTO_FIELD := 7
  const PROTO_COPY := 4
  const IP_COPY := 63
  const PROTO_COMPARE := 4
  const IP_COMPARE := 24

  function Max(a: int, b: int): int { if a < b then b else a }

  /** The first `n` characters, as `strncmp` and `snprintf` see a string. */
  function Prefix(s: string, n: nat): string {
    if |s| <= n then s else s[..n]
  }

  /** Protocol and address fit their fields, terminator included. */
  predicate Storable(s: Stream) {
    |s.ip| < IP_FIELD && |s.proto| < PROTO_FIELD
  }

  // ----- Folding a report into the table

  /** The first session of the stream, if the table has one. */
  function SessionOf(table: seq<Stream>, key: StreamKey): Option<Stream> {
    if table == [] then None
    else if table[0].key == key then Some(table[0])
    else SessionOf(table[1..], key)
  }

  function Expired(t: Stream, now: int): bool {
    now - t.updatedAt > EXPIRE_AFTER
  }

  /** A session the scan has passed over. */
  function Marked(t: Stream, now: int): Stream {
    if Expired(t, now) then t.(isClosed := true) else t
  }

  /** A later report of a stream that is already in the table. */
  function Updated(t: Stream, r: Stream): Stream {
    t.(updatedAt := r.updatedAt,
       port := if r.port > 0 then r.port else t.port,
       upload := Max(t.upload, r.upload),
       deltaUpload := if t.isFirst then r.upload else t.deltaUpload + Max(t.upload, r.upload) - t.upload,
       download := Max(t.download, r.download),
       deltaDownload := if t.isFirst then r.download else t.deltaDownload + Max(t.download, r.download) - t.download,
       isFirst := false,
       isClosed := r.isClosed,
       proto := if r.proto != "" then Prefix(r.proto, PROTO_COPY) else t.proto,
       ip := if r.ip != "" then Prefix(r.ip, IP_COPY) else t.ip)
  }

  /** One report: the scan closes expired sessions on its way and stops at the stream's session, which it
      updates; a stream without a session joins at the end, exactly as reported. */
  function Reported(table: seq<Stream>, r: Stream, now: int): seq<Stream> {
    if table == [] then [r]
    else
      var t := Marked(table[0], now);
      if t.key == r.key then [Updated(t, r)] + table[1..]
      else [t] + Reported(table[1..], r, now)
  }

  function ReportedAll(table: seq<Stream>, reports: seq<Stream>, now: int): seq<Stream> {
    if reports == [] then table
    else Reported(ReportedAll(table, reports[..|reports| - 1], now), reports[|reports| - 1], now)
  }

  // ----- Taking

  /** What a take leaves in the table: the open sessions, in order, with nothing pending. */
  function AfterTake(table: seq<Stream>): seq<Stream> {
    if table == [] then []
    else
      var rest := AfterTake(table[..|table| - 1]);
      var t := table[|table| - 1];
      if t.isClosed then rest else rest + [t.(deltaUpload := 0, deltaDownload := 0)]
  }

  datatype Group = Group(port: int, proto: string, ip: string)

  /** What `real_equal` looks at: of protocol and address only a prefix. */
  function GroupOf(s: Stream): Group {
    Group(s.port, Prefix(s.proto, PROTO_COMPARE), Prefix(s.ip, IP_COMPARE))
  }

  function Strncmp(a: string, b: string, n: nat): int {
    Strcmp(Prefix(a, n), Prefix(b, n))
  }

  function Sign(n: int): int { if n > 0 then 1 else -1 }

  /** `compare_traffic_info`: a smaller port counts as greater, a smaller protocol or address as smaller. */
  function CompareTraffic(a: Stream, b: Stream): int {
    if a.port < b.port then 1
    else if a.port > b.port then -1
    else
      var n := Strncmp(a.proto, b.proto, PROTO_COMPARE);
      if n != 0 then Sign(n)
      else
        var m := Strncmp(a.ip, b.ip, IP_COMPARE);
        if m != 0 then Sign(m) else 0
  }

  predicate RealEqual(a: Stream, b: Stream) {
    CompareTraffic(a, b) == 0
  }

  /** The comparison is zero exactly on equal groups, and mirrored otherwise. */
  lemma CompareTrafficGroups(a: Stream, b: Stream)
    ensures CompareTraffic(a, b) == 0 <==> GroupOf(a) == GroupOf(b)
    ensures CompareTraffic(a, b) == -CompareTraffic(b, a)
  {
    StrcmpMirrored(Prefix(a.proto, PROTO_COMPARE), Prefix(b.proto, PROTO_COMPARE));
    StrcmpMirrored(Prefix(b.proto, PROTO_COMPARE), Prefix(a.proto, PROTO_COMPARE));
    StrcmpMirrored(Prefix(a.ip, IP_COMPARE), Prefix(b.ip, IP_COMPARE));
    StrcmpMirrored(Prefix(b.ip, IP_COMPARE), Prefix(a.ip, IP_COMPARE));
  }

  /** What the comment above `compare_traffic_info` means by smaller: by port, then by the compared part of
      the protocol, then by the compared part of the address. */
  predicate Less(a: Stream, b: Stream) {
    if a.port != b.port then a.port < b.port
    else if Prefix(a.proto, PROTO_COMPARE) != Prefix(b.proto, PROTO_COMPARE) then Strncmp(a.proto, b.proto, PROTO_COMPARE) < 0
    else Strncmp(a.ip, b.ip, IP_COMPARE) < 0
  }

  /** The comparison tells smaller from greater as its comment promises exactly when the ports differ or
      there is nothing to tell; with equal ports it tells the opposite. */
  lemma CompareDirection(a: Stream, b: Stream)
    ensures (CompareTraffic(a, b) == 1 <==> Less(a, b)) <==> a.port != b.port || GroupOf(a) == GroupOf(b)
    ensures (CompareTraffic(a, b) == -1 <==> Less(b, a)) <==> a.port != b.port || GroupOf(a) == GroupOf(b)
    ensures a.port == b.port ==> (CompareTraffic(a, b) == -1 <==> Less(a, b)) && (CompareTraffic(a, b) == 1 <==> Less(b, a))
  {
    CompareTrafficGroups(a, b);
    StrcmpMirrored(Prefix(a.proto, PROTO_COMPARE), Prefix(b.proto, PROTO_COMPARE));
    StrcmpMirrored(Prefix(b.proto, PROTO_COMPARE), Prefix(a.proto, PROTO_COMPARE));
    StrcmpMirrored(Prefix(a.ip, IP_COMPARE), Prefix(b.ip, IP_COMPARE));
    StrcmpMirrored(Prefix(b.ip, IP_COMPARE), Prefix(a.ip, IP_COMPARE));
  }

  /** On one port, "tcp" is smaller than "udp" and yet compares as greater. */
  lemma CompareReversed(a: Stream, b: Stream)
    requires a.port == b.port && a.proto == "tcp" && b.proto == "udp"
    ensures Less(a, b) && CompareTraffic(a, b) == -1
  {
    assert a.proto[0] == 't' && b.proto[0] == 'u';
  }

  function Plus(a: Stream, b: Stream): Stream {
    a.(deltaUpload := a.deltaUpload + b.deltaUpload, deltaDownload := a.deltaDownload + b.deltaDownload)
  }

  /** Add a session's pending traffic to the first record of its group, or start a record for the group. */
  function Grouped(out: seq<Stream>, s: Stream): seq<Stream> {
    if out == [] then [s]
    else if RealEqual(s, out[0]) then [Plus(out[0], s)] + out[1..]
    else [out[0]] + Grouped(out[1..], s)
  }

  function GroupedAll(table: seq<Stream>): seq<Stream> {
    if table == [] then [] else Grouped(GroupedAll(table[..|table| - 1]), table[|table| - 1])
  }

  class SessionTable {
    var sessions: seq<Stream>

    constructor ()
      ensures sessions == []
    {
      sessions := [];
    }

    /** `analyse_data`, for the reports read from the shared buffer and the time of the call. */
    method AnalyseData(reports: seq<Stream>, now: int)
      modifies this
      ensures sessions == ReportedAll(old(sessions), reports, now)
    {
      var i := 0;
      while i < |reports|
        invariant 0 <= i <= |reports| && sessions == ReportedAll(old(sessions), reports[..i], now)
      {
        AnalyseOne(reports[i], now);
        assert reports[..i + 1][..i] == reports[..i];
        i := i + 1;
      }
      assert reports[..i] == reports;
    }

    /** The body of the report loop: scan, then update or append. */
    method AnalyseOne(r: Stream, now: int)
      modifies this
      ensures sessions == Reported(old(sessions), r, now)
    {
      var found, u := Scan(r, now);
      if !found {
        sessions := sessions + [r];
      } else {
        UpdateSession(u, r);
      }
    }

    /** The inner loop: close what has expired, and stop at the stream's own session. */
    method Scan(r: Stream, now: int) returns (found: bool, u: int)
      modifies this
      ensures 0 <= u <= |sessions| == |old(sessions)| && (found <==> u < |sessions|)
      ensures forall i :: 0 <= i < u ==> sessions[i] == Marked(old(sessions)[i], now) && sessions[i].key != r.key
      ensures found ==> sessions[u] == Marked(old(sessions)[u], now) && sessions[u].key == r.key
      ensures forall i :: u < i < |sessions| ==> sessions[i] == old(sessions)[i]
      ensures Reported(old(sessions), r, now) ==
              sessions[..u] + if found then [Updated(sessions[u], r)] + sessions[u + 1..] else [r]
    {
      found := false;
      u := 0;
      var mm := |sessions|;
      while u < mm
        invariant 0 <= u <= mm == |sessions| == |old(sessions)| && !found
        invariant forall i :: 0 <= i < u ==> sessions[i] == Marked(old(sessions)[i], now) && sessions[i].key != r.key
        invariant forall i :: u <= i < mm ==> sessions[i] == old(sessions)[i]
      {
        found := Visit(u, r, now);
        if found {
          break;
        }
        u := u + 1;
      }
      ScanReported(old(sessions), sessions, u, r, now);
    }

    /** The body of the inner loop: close the session if it has expired, and compare its key. */
    method Visit(u: int, r: Stream, now: int) returns (found: bool)
      requires 0 <= u < |sessions|
      modifies this
      ensures sessions == old(sessions)[u := Marked(old(sessions)[u], now)] && (found <==> sessions[u].key == r.key)
    {
      if now - sessions[u].updatedAt > EXPIRE_AFTER {
        sessions := sessions[u := sessions[u].(isClosed := true)];
      }
      var t := sessions[u].key;
      found := t.startSec == r.key.startSec && t.startNsec == r.key.startNsec && t.pid == r.key.pid && t.streamId == r.key.streamId;
    }

    /** The update of a session that was found, field by field. */
    method UpdateSession(u: int, r: Stream)
      requires 0 <= u < |sessions|
      modifies this
      ensures sessions == old(sessions)[u := Updated(old(sessions[u]), r)]
    {
      var t := sessions[u].(updatedAt := r.updatedAt);
      if r.port > 0 {
        t := t.(port := r.port);
      }
      if r.upload > t.upload {
        t := t.(deltaUpload := t.deltaUpload + (r.upload - t.upload));
        t := t.(upload := r.upload);
      }
      if r.download > t.download {
        t := t.(deltaDownload := t.deltaDownload + (r.download - t.download));
        t := t.(download := r.download);
      }
      if t.isFirst {
        t := t.(isFirst := false, deltaDownload := r.download, deltaUpload := r.upload);
      }
      t := t.(isClosed := r.isClosed);
      if r.proto != "" {
        t := t.(proto := Prefix(r.proto, PROTO_COPY));
      }
      if r.ip != "" {
        t := t.(ip := Prefix(r.ip, IP_COPY));
      }
      sessions := sessions[u := t];
    }

    /** `skylab_take_traffic_data`: hand out everything pending, drop closed sessions, clear the rest. */
    method TakeTrafficData() returns (records: seq<Stream>)
      modifies this
      ensures records == GroupedAll(old(sessions)) && sessions == AfterTake(old(sessions))
    {
      var p := sessions;
      if p == [] {
        return [];
      }
      var kept: seq<Stream> := [];
      var i := 0;
      while i < |p|
        invariant 0 <= i <= |p| == |sessions| && p == old(sessions)
        invariant kept == AfterTake(p[..i]) && sessions[i..] == p[i..]
      {
        assert p[..i + 1][..i] == p[..i] && sessions[i] == sessions[i..][0];
        if !sessions[i].isClosed {
          sessions := sessions[i := sessions[i].(deltaUpload := 0, deltaDownload := 0)];
          kept := kept + [sessions[i]];
        }
        assert sessions[i + 1..] == p[i + 1..] by { assert forall k :: i < k < |p| ==> sessions[k] == p[i..][k - i]; }
        i := i + 1;
      }
      assert p[..i] == p;
      sessions := kept;
      records := Regroup(p);
    }

    /** The second half of a take: merge the copied sessions by group. */
    static method Regroup(info: seq<Stream>) returns (out: seq<Stream>)
      requires info != []
      ensures out == GroupedAll(info)
    {
      out := [info[0]];
      assert info[..1][..0] == [] && info[..1] == [info[0]];
      var ii := 1;
      while ii < |info|
        invariant 1 <= ii <= |info| && out == GroupedAll(info[..ii])
      {
        assert info[..ii + 1][..ii] == info[..ii];
        out := AddToGroups(out, info[ii]);
        ii := ii + 1;
      }
      assert info[..ii] == info;
    }

    /** The inner loop of the regrouping. */
    static method AddToGroups(records: seq<Stream>, s: Stream) returns (out: seq<Stream>)
      ensures out == Grouped(records, s)
    {
      var j := 0;
      assert records[0..] == records;
      while j < |records|
        invariant 0 <= j <= |records|
        invariant records[..j] + Grouped(records[j..], s) == Grouped(records, s)
      {
        GroupStep(records, j, s);
        if RealEqual(s, records[j]) {
          out := records[j := Plus(records[j], s)];
          return;
        }
        j := j + 1;
      }
      assert records[j..] == [] && records[..j] == records;
      out := records + [s];
    }
  }

  /** What the scan leaves behind is the report up to its last step, the update or the insertion. */
  lemma {:induction false} ScanReported(before: seq<Stream>, s: seq<Stream>, u: int, r: Stream, now: int)
    requires 0 <= u <= |s| == |before|
    requires forall i :: 0 <= i < u ==> s[i] == Marked(before[i], now) && s[i].key != r.key
    requires u < |s| ==> s[u] == Marked(before[u], now) && s[u].key == r.key
    requires forall i :: u < i < |s| ==> s[i] == before[i]
    ensures Reported(before, r, now) == s[..u] + if u < |s| then [Updated(s[u], r)] + s[u + 1..] else [r]
  {
    if u > 0 {
      ScanReported(before[1..], s[1..], u - 1, r, now);
      assert s[..u] == [s[0]] + s[1..][..u - 1];
      assert u < |s| ==> s[1..][u..] == s[u + 1..];
    } else if s != [] {
      assert s[1..] == before[1..];
    }
  }

  lemma GroupStep(records: seq<Stream>, j: int, s: Stream)
    requires 0 <= j < |records|
    ensures records[..j] + Grouped(records[j..], s) ==
            if RealEqual(s, records[j]) then records[j := Plus(records[j], s)]
            else records[..j + 1] + Grouped(records[j + 1..], s)
  {
    assert records[j..][0] == records[j] && records[j..][1..] == records[j + 1..];
  }
}
