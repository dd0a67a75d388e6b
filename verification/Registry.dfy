/** The registry of devices: a fixed table of hash buckets with chains, which stands for a map from
    device id to the address the device was last heard from. */
module Registry {
  import opened Text
  import opened Hash

  /** A device id as a C string in a field of 40 bytes, so at most 39 characters. */
  type DeviceId = id: seq<Char8> | |id| < 40

  type Address = int
  const NO_ADDRESS: Address := 0

  datatype Item = Item(id: DeviceId, ipv4: Address)

  /** `HASH_LIST`: the count and the chain, newest item first. */
  datatype Bucket = Bucket(n: int, group: seq<Item>)

  function Find(group: seq<Item>, id: DeviceId): Option<Address> {
    if group == [] then None
    else if group[0].id == id then Some(group[0].ipv4)
    else Find(group[1..], id)
  }

  lemma {:induction false} FindAt(group: seq<Item>, j: int)
    requires 0 <= j < |group|
    requires forall i :: 0 <= i < j ==> group[i].id != group[j].id
    ensures Find(group, group[j].id) == Some(group[j].ipv4)
  {
    if j > 0 {
      assert group[0].id != group[j].id;
      assert forall i :: 0 <= i < j - 1 ==> group[1..][i] == group[i + 1];
      FindAt(group[1..], j - 1);
    }
  }

  lemma {:induction false} FindNone(group: seq<Item>, id: DeviceId)
    ensures Find(group, id).None? <==> forall i :: 0 <= i < |group| ==> group[i].id != id
  {
    if group != [] {
      FindNone(group[1..], id);
      assert forall i :: 0 < i < |group| ==> group[i] == group[1..][i - 1];
    }
  }

  /** The chain of bucket `k`: as long as its count says, ids that hash to `k`, none twice. */
  ghost predicate GoodBucket(b: Bucket, k: int) {
    && b.n == |b.group|
    && (forall i :: 0 <= i < |b.group| ==> HashValue(b.group[i].id) == k)
    && (forall i, j :: 0 <= i < j < |b.group| ==> b.group[i].id != b.group[j].id)
  }

  class Registry {
    ghost var contents: map<DeviceId, Address>
    var table: array<Bucket>

    ghost predicate Valid()
      reads this, table
    {
      && table.Length == HASH_SIZE + 1
      && (forall k :: 0 <= k < table.Length ==> GoodBucket(table[k], k))
      && (forall id: DeviceId :: id in contents <==> Find(table[HashValue(id)].group, id).Some?)
      && (forall id: DeviceId :: id in contents ==> Find(table[HashValue(id)].group, id) == Some(contents[id]))
    }

    constructor ()
      ensures Valid() && contents == map[] && fresh(table)
    {
      table := new Bucket[HASH_SIZE + 1](_ => Bucket(0, []));
      contents := map[];
    }

    /** The chain walk shared by registration and tracking: position of the id, if it is there. */
    static method Walk(hi: Bucket, id: DeviceId) returns (found: bool, j: int)
      requires hi.n == |hi.group| && hi.group != []
      ensures 0 <= j && (found <==> Find(hi.group, id).Some?)
      ensures found ==> j < |hi.group| && hi.group[j].id == id && forall i :: 0 <= i < j ==> hi.group[i].id != id
    {
      found := false;
      j := 0;
      while j < |hi.group|
        invariant 0 <= j <= |hi.group| && !found
        invariant forall i :: 0 <= i < j ==> hi.group[i].id != id
      {
        if hi.group[j].id == id {
          found := true;
          break;
        }
        j := j + 1;
        if j >= hi.n {
          break;
        }
      }
      FindNone(hi.group, id);
    }

    /** `reg_to_table`: 1 exactly when the id is new, which then joins without an address. */
    method Register(id: DeviceId) returns (res: int)
      requires Valid()
      modifies this, table
      ensures Valid() && table == old(table)
      ensures res == if id in old(contents) then 0 else 1
      ensures contents == if id in old(contents) then old(contents) else old(contents)[id := NO_ADDRESS]
    {
      res := 0;
      var hn := HashFunc(id);
      var hi := table[hn];
      if hi.n != 0 {
        assert hi.group != [];  // so the branch for a counted bucket without a chain is never taken
        var found, j := Walk(hi, id);
        if found {
          return;
        }
        FindNone(hi.group, id);
        Put(hn, Bucket(hi.n + 1, [Item(id, NO_ADDRESS)] + hi.group), id, NO_ADDRESS);
        res := 1;
      } else {
        Put(hn, Bucket(1, [Item(id, NO_ADDRESS)]), id, NO_ADDRESS);
        res := 1;
      }
    }

    /** `hl_track_msg`: 1 exactly when the id is registered, whose address is then replaced. */
    method Track(id: DeviceId, addr: Address) returns (res: int)
      requires Valid()
      modifies this, table
      ensures Valid() && table == old(table)
      ensures res == if id in old(contents) then 1 else 0
      ensures contents == if id in old(contents) then old(contents)[id := addr] else old(contents)
    {
      res := 0;
      var hn := HashFunc(id);
      var hi := table[hn];
      if hi.n != 0 {
        assert hi.group != [];  // so the branch for a counted bucket without a chain is never taken
        var found, j := Walk(hi, id);
        if !found {
          return;
        }
        var group := hi.group[j := hi.group[j].(ipv4 := addr)];
        ReplacedFinds(hi.group, j, addr);
        Put(hn, hi.(group := group), id, addr);
        res := 1;
      }
    }

    /** Storing a bucket that differs only in what it says about `id`. */
    method Put(hn: int, b: Bucket, id: DeviceId, addr: Address)
      requires Valid() && hn == HashValue(id) && GoodBucket(b, hn)
      requires Find(b.group, id) == Some(addr)
      requires forall other: DeviceId :: other != id ==> Find(b.group, other) == Find(table[hn].group, other)
      modifies this, table
      ensures Valid() && table == old(table) && contents == old(contents)[id := addr]
    {
      table[hn] := b;
      contents := contents[id := addr];
    }
  }

  lemma {:induction false} ReplacedFinds(group: seq<Item>, j: int, addr: Address)
    requires 0 <= j < |group| && forall i :: 0 <= i < j ==> group[i].id != group[j].id
    ensures var changed := group[j := group[j].(ipv4 := addr)];
      && Find(changed, group[j].id) == Some(addr)
      && forall other: DeviceId :: other != group[j].id ==> Find(changed, other) == Find(group, other)
  {
    var changed := group[j := group[j].(ipv4 := addr)];
    FindAt(changed, j);
    if j > 0 {
      assert forall i :: 0 <= i < j - 1 ==> group[1..][i] == group[i + 1];
      ReplacedFinds(group[1..], j - 1, addr);
      assert changed[1..] == group[1..][j - 1 := group[j].(ipv4 := addr)];
    } else {
      assert changed[1..] == group[1..];
    }
  }
}
