/** The growing buffer: items are appended under a lock and taken out all at once. */
module GenList {
  import opened Text

  const STEP := 32768
  /** `sizeof(GEN_LIST)`: two 64-bit words and an `int`, padded. */
  const HEADER := 24

  /** The smallest multiple of `STEP` that is at least `n`. */
  function RoundUp(n: int): int {
    (n + STEP - 1) / STEP * STEP
  }

  lemma RoundUpIsLeast(n: int, m: int)
    requires m % STEP == 0 && m >= n
    ensures n <= RoundUp(n) <= m && RoundUp(n) % STEP == 0
  {
  }

  lemma OneStepMore(m: int)
    requires m % STEP == 0
    ensures (m + STEP) % STEP == 0
  {
  }

  /** Less than a step above `n` there is only one multiple. */
  lemma RoundUpWithin(n: int, m: int)
    requires m % STEP == 0 && n <= m < n + STEP
    ensures m == RoundUp(n)
  {
    RoundUpIsLeast(n, m);
  }

  lemma StepsOf32K(n: int)
    requires 0 < n <= 65536
    ensures RoundUp(n) == if n <= 32768 then 32768 else 65536
  {
  }

  lemma Appended(data: seq<byte>, used: int, before: seq<byte>, bytes: seq<byte>, taken: seq<byte>, added: seq<byte>)
    requires 0 <= used && used + |bytes| <= |data| && data[..used] == before && data[used..used + |bytes|] == bytes
    requires added == taken + before
    ensures data[..used + |bytes|] == before + bytes && added + bytes == taken + (before + bytes)
  {
  }

  class GenList {
    var present: bool
    var total: int
    var used: int
    var data: array<byte>
    /** Everything ever added, and everything ever handed out. */
    ghost var added: seq<byte>
    ghost var taken: seq<byte>

    ghost predicate Valid()
      reads this, data
    {
      && (present ==> total % STEP == 0 && 0 <= used && used + HEADER + 1 <= total && data.Length == total - HEADER)
      && added == taken + Contents()
    }

    ghost function Contents(): seq<byte>
      reads this, data
    {
      if present && 0 <= used <= data.Length then data[..used] else []
    }

    constructor ()
      ensures Valid() && !present && added == [] && taken == []
    {
      present, total, used := false, 0, 0;
      data := new byte[0];
      added, taken := [], [];
    }

    /** The size after the growth loop, if there is not enough room for `n + 1` bytes. */
    method GrownSize(n: int) returns (upSize: int)
      requires total % STEP == 0 && n + 1 > total
      ensures upSize == RoundUp(n + 1) && upSize % STEP == 0 && upSize >= n + 1
    {
      OneStepMore(total);
      upSize := total + STEP;
      while upSize < n + 1
        invariant upSize % STEP == 0 && upSize < n + 1 + STEP
      {
        OneStepMore(upSize);
        upSize := upSize + STEP;
      }
      RoundUpWithin(n + 1, upSize);
    }

    /** Make room for `sz` more bytes; what is stored stays. */
    method Reserve(sz: int)
      requires Valid() && present && sz >= 1
      modifies this
      ensures Valid() && present && used == old(used) && added == old(added) && taken == old(taken)
      ensures used + HEADER + sz + 1 <= total && Contents() == old(Contents())
      ensures var need := used + HEADER + sz + 1;
        total == if need <= old(total) then old(total) else RoundUp(need)
      ensures data == old(data) || fresh(data)
    {
      var n := used + HEADER + sz;
      if n + 1 > total {
        var upSize := GrownSize(n);
        var bigger := new byte[upSize - HEADER](_ => 0);
        forall k | 0 <= k < data.Length {
          bigger[k] := data[k];
        }
        assert bigger[..used] == data[..used];
        data, total := bigger, upSize;
      }
    }

    /** `add_item_traffic`; `sig` is the caller's flag, which is only ever set. */
    method AddItemTraffic(item: Option<seq<byte>>, sig: int) returns (rc: int, sig': int)
      requires Valid()
      modifies this, data
      ensures Valid() && taken == old(taken)
      ensures item.None? || |item.value| < 1 ==>
        rc == -1 && sig' == sig && added == old(added) && present == old(present) && total == old(total) && Contents() == old(Contents())
      ensures item.Some? && |item.value| >= 1 ==>
        && rc == 0 && present
        && added == old(added) + item.value && Contents() == old(Contents()) + item.value
        && sig' == (if old(Contents()) == [] then 1 else sig)
        && var start, need := if old(present) then old(total) else 32768, |Contents()| + 25;
           total == if need <= start then start else RoundUp(need)
      ensures data == old(data) || fresh(data)
    {
      rc, sig' := -1, sig;
      if item.None? {
        return;
      }
      var sz := |item.value|;
      if sz < 1 {
        return;
      }
      if !present {
        present, total, used := true, STEP, 0;
        data := new byte[STEP - HEADER](_ => 0);
        sig' := 1;
      }
      if used == 0 {
        sig' := 1;
      }
      Reserve(sz);
      Append(item.value);
      rc := 0;
    }

    /** Copy the bytes behind what is stored. */
    method Append(bytes: seq<byte>)
      requires Valid() && present && used + HEADER + |bytes| + 1 <= total
      modifies this, data
      ensures Valid() && present && total == old(total) && data == old(data)
      ensures Contents() == old(Contents()) + bytes && added == old(added) + bytes && taken == old(taken)
    {
      ghost var before := data[..used];
      forall k | 0 <= k < |bytes| {
        data[used + k] := bytes[k];
      }
      assert data[..][..used] == before && data[..][used..used + |bytes|] == bytes;
      Appended(data[..], used, before, bytes, taken, added);
      used := used + |bytes|;
      added := added + bytes;
    }

    /** `add_item_gen_list`: the result tells whether locking and unlocking worked, not whether the item was
        accepted. So zero means that something was added exactly if the lock fails, or if the item is
        accepted and unlocking works, or neither. */
    method AddItem(item: Option<seq<byte>>, sig: int, lockError: int, unlockError: int) returns (rc: int, sig': int)
      requires Valid()
      modifies this, data
      ensures Valid() && taken == old(taken) && rc == if lockError != 0 then lockError else unlockError
      ensures (rc == 0 <==> added != old(added)) <==> lockError != 0 || (unlockError == 0 <==> item.GetOr([]) != [])
      ensures added == old(added) + (if lockError == 0 then item.GetOr([]) else [])
      ensures Contents() == old(Contents()) + (if lockError == 0 then item.GetOr([]) else [])
      ensures sig' == if lockError == 0 && item.GetOr([]) != [] && old(Contents()) == [] then 1 else sig
    {
      rc, sig' := lockError, sig;
      if rc != 0 {
        return;
      }
      var err;
      err, sig' := AddItemTraffic(item, sig);
      rc := unlockError;
    }

    /** `get_data_gen_list`, with the buffer looked up inside the lock. */
    method GetData(lockError: int) returns (n: int, out: Option<seq<byte>>)
      requires Valid()
      modifies this
      ensures Valid() && added == old(added) && data == old(data) && total == old(total)
      ensures var got := if lockError == 0 then old(Contents()) else [];
        && n == |got| && out == (if got == [] then None else Some(got))
        && taken == old(taken) + got
        && Contents() == (if lockError == 0 then [] else old(Contents()))
    {
      n, out := 0, None;
      if !present {
        return;
      }
      if lockError != 0 {
        return;
      }
      n := used;
      if n == 0 {
        return;
      }
      out := Some(data[..n]);
      taken := taken + data[..n];
      used := 0;
    }
  }
}
