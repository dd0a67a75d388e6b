/** The shared buffer between writers and a reader: `ntt_write_shm` and `ntt_read_shm`. A write that does
    not fit discards everything unread; a read takes everything. */
module SharedBuffer {
  import opened Text

  /** Whom to wake, if the reader was seen sleeping. */
  datatype Signal = NoSignal | Wake(pid: int)

  class SharedData {
    const total: int
    const header: int
    var used: int
    var readPid: int
    var sleeping: bool
    var data: array<byte>

    ghost predicate Valid()
      reads this
    {
      0 < header < total && 0 <= used && used + header <= total && data.Length == total - header
    }

    ghost function Contents(): seq<byte>
      reads this, data
      requires Valid()
    {
      data[..used]
    }

    constructor (total: int, header: int)
      requires 0 < header < total
      ensures Valid() && fresh(data) && Contents() == [] && !sleeping && this.total == total && this.header == header
    {
      this.total, this.header := total, header;
      used, readPid, sleeping := 0, 0, false;
      data := new byte[total - header](_ => 0);
    }

    /** `ntt_write_shm` with a buffer present. The caller must keep a message within the region; the code does
        not check this before it copies. The region is full to its last byte only after a message of that
        size. `locked` says whether the lock was obtained. */
    method Write(msg: Option<seq<byte>>, locked: bool) returns (rs: int, signal: Signal)
      requires Valid() && (msg.Some? ==> |msg.value| + header <= total)
      modifies this, data
      ensures Valid() && data == old(data) && sleeping == old(sleeping) && readPid == old(readPid)
      ensures used + header == total ==> old(used) + header == total || (msg.Some? && |msg.value| + header == total)
      ensures msg.None? || |msg.value| < 1 || !locked ==>
        Contents() == old(Contents()) && rs == (if msg.None? then -1 else 0) && signal == NoSignal
      ensures msg.Some? && |msg.value| >= 1 && locked ==>
        && (|msg.value| + old(used) + header < total ==> Contents() == old(Contents()) + msg.value)
        && (|msg.value| + old(used) + header >= total ==> Contents() == msg.value)
        && rs == |Contents()|
        && signal == if sleeping then Wake(readPid) else NoSignal
    {
      rs, signal := 0, NoSignal;
      if msg.None? {
        rs := -1;
        return;
      }
      var n := |msg.value|;
      if n < 1 {
        return;
      }
      if !locked {
        return;
      }
      if sleeping {
        signal := Wake(readPid);
      }
      if n + used + header >= total {
        used := 0;
      }
      ghost var kept := data[..used];
      forall k | 0 <= k < n {
        data[used + k] := msg.value[k];
      }
      assert data[..used] == kept && data[used..used + n] == msg.value;
      used := used + n;
      assert data[..used] == kept + msg.value;
      rs := used;
    }

    /** `ntt_read_shm`; `pid` is the caller, `first` whether this process reads for the first time. */
    method Read(pid: int, first: bool, locked: bool) returns (rs: int, out: Option<seq<byte>>)
      requires Valid()
      modifies this, data
      ensures Valid() && data == old(data) && readPid == if first then pid else old(readPid)
      ensures !locked ==> rs == 0 && out.None? && Contents() == old(Contents()) && sleeping == old(sleeping)
      ensures locked && old(used) == 0 ==> rs == 0 && out.None? && Contents() == [] && sleeping
      ensures locked && old(used) > 0 ==> rs == old(used) && out == Some(old(Contents())) && Contents() == [] && !sleeping
    {
      rs, out := 0, None;
      if first {
        readPid := pid;
      }
      if !locked {
        return;
      }
      var n := used;
      if n < 1 {
        sleeping := true;
        return;
      }
      out := Some(data[..n]);
      used := 0;
      data[0] := 0;
      rs := n;
      sleeping := false;
    }
  }
}
