/** The two users of the slot index: call details by numeric id, two slots a bucket, and agents by the
    text of their number, four slots a bucket. */
module SlotLookup {
  import opened Text
  import opened SlotIndex

  const AUDD_SLOTS := 2
  const AGENT_SLOTS := 4

  /** The remainder of C, which has the sign of the dividend. */
  function CRemainder(a: int, n: int): int
    requires 0 < n
  {
    if a >= 0 then a % n else -((-a) % n)
  }

  // ----- Call details

  ghost predicate AuddTable(t: SlotTable<int>)
    reads t, t.h
  {
    t.Valid() && t.width == AUDD_SLOTS && forall k :: 0 <= k < |t.rows| ==> t.rows[k] >= 0 && t.classes[k] == t.rows[k] % t.n
  }

  /** `lcs_audd_shmwrite`; the segment has room for one row more than was counted. */
  method AuddWrite(t: SlotTable<int>, id: int)
    requires AuddTable(t) && 0 <= id && |t.rows| <= t.n
    modifies t, t.h
    ensures AuddTable(t) && t.h == old(t.h) && t.rows == old(t.rows) + [id]
  {
    t.Write(id % t.n, id);
  }

  /** The remainders of the ids, whatever was indexed. */
  function Remainders(ids: seq<int>, n: int): (r: seq<int>)
    requires 0 < n
    ensures |r| == |ids| && forall k :: 0 <= k < |ids| ==> r[k] == ids[k] % n
  {
    if ids == [] then [] else [ids[0] % n] + Remainders(ids[1..], n)
  }

  /** The search for a call detail at the top of `lcs_exec_cbtrue`: the first row with the id, if fewer than
      two earlier rows have its remainder. */
  method AuddFind(t: SlotTable<int>, u: int) returns (r: Option<int>)
    requires AuddTable(t) && 0 <= u
    ensures r == var first := FirstRow(t.rows, u);
      if first.Some? && 0 <= first.value < |t.rows| && Occurrences(Remainders(t.rows, t.n)[..first.value], u % t.n) < 2 then first else None
  {
    r := t.Find(u % t.n, u);
    BucketSearchAgrees(t.rows, t.classes, t.width, u % t.n, u, r);
    FirstRowFacts(t.rows, u);
    assert t.classes == Remainders(t.rows, t.n);
    if FirstRow(t.rows, u).Some? {
      RankCounts(t.classes[..FirstRow(t.rows, u).value], u % t.n);
    }
  }

  /** With different ids inside `2n` consecutive values every row is within its bucket's two slots, so the
      search above is the linear scan for every key. */
  lemma AuddWindowComplete(rows: seq<int>, n: int, base: int, u: int)
    requires 0 < n && 0 <= base
    requires forall k :: 0 <= k < |rows| ==> base <= rows[k] < base + 2 * n
    requires forall i, j :: 0 <= i < j < |rows| ==> rows[i] != rows[j]
    ensures var first := FirstRow(rows, u);
      first.Some? ==> 0 <= first.value < |rows| && Occurrences(Remainders(rows, n)[..first.value], u % n) < 2
  {
    FirstRowFacts(rows, u);
    if FirstRow(rows, u).Some? {
      var classes, k := Remainders(rows, n), FirstRow(rows, u).value;
      WindowRank(rows, classes, n, AUDD_SLOTS, 2 * n, base, k);
      RankCounts(classes[..k], u % n);
    }
  }

  /** A third row of one remainder is not found. */
  lemma ThirdIsLost(rows: seq<int>, n: int, k: int)
    requires 0 < n && 2 <= k < |rows| && rows[0] % n == rows[1] % n == rows[k] % n
    ensures Occurrences(Remainders(rows, n)[..k], rows[k] % n) >= 2
  {
    var r, b := Remainders(rows, n)[..k], rows[k] % n;
    assert r[0] == b && r[1..][0] == b;
  }

  // ----- Agents

  /** The bucket an agent is indexed in: a text that is no number counts as 0. */
  function AgentBucket(number: string, n: int): int
    requires 0 < n
  {
    CRemainder(ScanInt(number).GetOr(0), n)
  }

  /** The bucket that is searched: a text that is no number counts as -1, and a negative bucket is not
      searched at all. */
  function SearchBucket(number: string, n: int): int
    requires 0 < n
  {
    CRemainder(ScanInt(number).GetOr(-1), n)
  }

  ghost predicate AgentTable(t: SlotTable<string>)
    reads t, t.h
  {
    t.Valid() && t.width == AGENT_SLOTS && forall k :: 0 <= k < |t.rows| ==> t.classes[k] == AgentBucket(t.rows[k], t.n)
  }

  /** `lcs_shm_write`; a negative number would index in front of the table unless `n` divides it. */
  method AgentWrite(t: SlotTable<string>, number: string)
    requires AgentTable(t) && AgentBucket(number, t.n) >= 0 && |t.rows| <= t.n
    modifies t, t.h
    ensures AgentTable(t) && t.h == old(t.h) && t.rows == old(t.rows) + [number]
  {
    t.Write(AgentBucket(number, t.n), number);
  }

  /** The number of an agent, 0 for a text that is no number. */
  function Number(text: string): int { ScanInt(text).GetOr(0) }

  /** The remainders of the agents' numbers. */
  function AgentRemainders(rows: seq<string>, n: int): (r: seq<int>)
    requires 0 < n
    ensures |r| == |rows| && forall k :: 0 <= k < |rows| ==> r[k] == Number(rows[k]) % n
  {
    if rows == [] then [] else [Number(rows[0]) % n] + AgentRemainders(rows[1..], n)
  }

  lemma BucketIsRemainder(number: string, n: int)
    requires 0 < n && AgentBucket(number, n) >= 0
    ensures AgentBucket(number, n) == Number(number) % n
  {
    var v := Number(number);
    if v < 0 {
      NegatedMultiple(-v, n);
    }
  }

  lemma NegatedMultiple(a: int, n: int)
    requires 0 < n && a % n == 0
    ensures (-a) % n == 0
  {
    var q := (-a) / n + a / n;
    DivStep(a, n);
    DivStep(-a, n);
    assert n * q == n * ((-a) / n) + n * (a / n);
    MulLe(n, q, -1);
  }

  /** The search for an agent at the top of `lcs_exec_cbtrue`: the first row with the text, if fewer than
      four earlier rows have the remainder of its number, and if it can be searched for at all. */
  method AgentFind(t: SlotTable<string>, number: string) returns (r: Option<int>)
    requires AgentTable(t)
    ensures r == var first := FirstRow(t.rows, number);
      if first.Some? && 0 <= first.value < |t.rows| && Occurrences(AgentRemainders(t.rows, t.n)[..first.value], Number(number) % t.n) < 4 &&
         (ScanInt(number).Some? || t.n == 1)
      then first else None
  {
    var h := SearchBucket(number, t.n);
    r := None;
    if h > -1 {
      r := t.Find(h, number);
    }
    AgentSearched(t.rows, t.classes, t.n, number, r);
  }

  lemma AgentClasses(rows: seq<string>, classes: seq<int>, n: int)
    requires 0 < n && |classes| == |rows|
    requires forall k :: 0 <= k < |rows| ==> 0 <= classes[k] == AgentBucket(rows[k], n)
    ensures classes == AgentRemainders(rows, n)
  {
    forall k | 0 <= k < |rows| ensures classes[k] == Number(rows[k]) % n {
      BucketIsRemainder(rows[k], n);
    }
  }

  /** What the search finds, in terms of the rows alone. */
  lemma AgentSearched(rows: seq<string>, classes: seq<int>, n: int, number: string, r: Option<int>)
    requires 0 < n && |classes| == |rows|
    requires forall k :: 0 <= k < |rows| ==> 0 <= classes[k] == AgentBucket(rows[k], n)
    requires var h := SearchBucket(number, n); if h > -1 then FoundInBucket(rows, classes, AGENT_SLOTS, h, number, r) else r == None
    ensures r == var first := FirstRow(rows, number);
      if first.Some? && 0 <= first.value < |rows| && Occurrences(AgentRemainders(rows, n)[..first.value], Number(number) % n) < 4 &&
         (ScanInt(number).Some? || n == 1)
      then first else None
  {
    var first := FirstRow(rows, number);
    FirstRowFacts(rows, number);
    if first.Some? {
      var k := first.value;
      AgentClasses(rows, classes, n);
      RankCounts(classes[..k], classes[k]);
      SearchedBucket(number, n);
      if ScanInt(number).Some? || n == 1 {
        BucketSearchAgrees(rows, classes, AGENT_SLOTS, classes[k], number, r);
      }
    }
  }

  /** Where an indexed number is searched for: in its own bucket, or nowhere. */
  lemma SearchedBucket(number: string, n: int)
    requires 0 < n && AgentBucket(number, n) >= 0
    ensures SearchBucket(number, n) == if ScanInt(number).Some? || n == 1 then AgentBucket(number, n) else -1
  {
  }

  /** Agents whose numbers are all numeric and different, inside `4n` consecutive values, are all found. */
  lemma AgentWindowComplete(rows: seq<string>, values: seq<int>, n: int, base: int, number: string)
    requires 0 < n && 0 <= base && |rows| == |values|
    requires forall k :: 0 <= k < |rows| ==> ScanInt(rows[k]) == Some(values[k])
    requires forall k :: 0 <= k < |rows| ==> base <= values[k] < base + 4 * n
    requires forall i, j :: 0 <= i < j < |rows| ==> values[i] != values[j]
    ensures var first := FirstRow(rows, number);
      first.Some? ==> 0 <= first.value < |rows| && Occurrences(AgentRemainders(rows, n)[..first.value], Number(number) % n) < 4 &&
                      ScanInt(number).Some?
  {
    FirstRowFacts(rows, number);
    if FirstRow(rows, number).Some? {
      var classes, k := AgentRemainders(rows, n), FirstRow(rows, number).value;
      assert ScanInt(rows[k]) == Some(values[k]);
      WindowRank(values, classes, n, AGENT_SLOTS, 4 * n, base, k);
      RankCounts(classes[..k], Number(number) % n);
    }
  }

  /** An agent whose number is not numeric is stored and indexed, yet never found once `n` exceeds 1. */
  lemma NonNumericAgentLost(n: int)
    requires 1 < n
    ensures AgentBucket("sip", n) == 0 && SearchBucket("sip", n) == -1
  {
  }
}
