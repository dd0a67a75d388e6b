/** The forward list: messages are pushed under a lock, a sender detaches the whole list under the same
    lock and then routes the detached batch through the registry. */
module Forward {
  import opened Text
  import opened Hash
  import opened Registry

  /** `MSG_ROUTE`, in the order of its values, and any other byte. */
  datatype Route = GNtfCli | FNtfCli | GCliNtf | FCliNtf | GCliSrv | FSrvCli | GNtfSrv | FSrvNtf | Unknown

  datatype Message = Message(route: Route, devId: DeviceId, ntfId: DeviceId, body: int)

  datatype Delivery = Delivery(message: Message, address: Address)

  /** Whom a message is for; `None` for the routes that the sender does not handle. */
  function Target(m: Message): Option<DeviceId> {
    match m.route
    case GNtfCli => Some(m.devId)
    case FSrvCli => Some(m.devId)
    case GNtfSrv => Some(m.devId)
    case FSrvNtf => Some(m.devId)
    case GCliNtf => Some(m.ntfId)
    case _ => None
  }

  /** Some registered device shares the bucket of `id`. */
  ghost predicate Chained(contents: map<DeviceId, Address>, id: DeviceId) {
    exists other: DeviceId :: other in contents && HashValue(other) == HashValue(id)
  }

  /** What the loop sends from a batch, and its error flag. `t` is the value left in the variable that
      holds the receiver: the loop never resets it, and freeing a sent message is what clears it. */
  ghost function SendBatch(batch: seq<Message>, t: Option<Address>, contents: map<DeviceId, Address>, clear: bool): (seq<Delivery>, int) {
    if batch == [] || Target(batch[0]).None? then ([], 0)
    else
      var id := Target(batch[0]).value;
      var receiver := if id in contents then Some(contents[id]) else t;
      if !Chained(contents, id) || receiver.None? then ([], 1)
      else
        var rest := SendBatch(batch[1..], if clear then None else Some(NO_ADDRESS), contents, clear);
        ([Delivery(batch[0], receiver.value)] + rest.0, rest.1)
  }

  class ForwardList {
    var list: seq<Message>

    constructor ()
      ensures list == []
    {
      list := [];
    }

    /** `add_to_item_list`: the newest message goes in front. */
    method Add(m: Message)
      modifies this
      ensures list == [m] + old(list)
    {
      list := [m] + list;
    }

    /** `send_to_dst`, with encryption and the socket taken to succeed; `sent` is what went out, in order. */
    method SendToDst(reg: Registry, clear: bool) returns (sent: seq<Delivery>, count: int, err: int)
      requires reg.Valid()
      modifies this
      ensures list == []
      ensures (sent, err) == SendBatch(old(list), None, reg.contents, clear) && count == |sent|
    {
      count := 0;
      var hi := list;
      list := [];
      sent, err := [], 0;
      var t: Option<Address> := None;
      ghost var goal := SendBatch(hi, None, reg.contents, clear);
      assert [] + goal.0 == goal.0;
      while hi != []
        invariant reg.Valid() && list == [] && count == |sent| && err == 0
        invariant sent + SendBatch(hi, t, reg.contents, clear).0 == goal.0 && SendBatch(hi, t, reg.contents, clear).1 == goal.1
        decreases |hi|
      {
        ghost var rest := SendBatch(hi, t, reg.contents, clear);
        t, err := PickReceiver(reg, hi[0], t);
        if t.None? {
          assert rest == ([], err);
          break;
        }
        SendOne(sent, hi, t.value, rest.0);
        sent := sent + [Delivery(hi[0], t.value)];
        count := count + 1;
        t := Some(NO_ADDRESS);
        hi := hi[1..];
        if clear {
          t := None;
        }
      }
      assert sent + [] == sent;
    }

    /** The first half of a round: the receiver that the message will be sent to, or none when the loop
        stops here, and the error flag. */
    static method PickReceiver(reg: Registry, m: Message, t: Option<Address>) returns (receiver: Option<Address>, err: int)
      requires reg.Valid()
      ensures receiver ==
        if Target(m).None? || !Chained(reg.contents, Target(m).value) then None
        else if Target(m).value in reg.contents then Some(reg.contents[Target(m).value]) else t
      ensures err == if Target(m).Some? && receiver.None? then 1 else 0
    {
      var target := Target(m);
      if target.None? {
        return None, 0;
      }
      var iid := target.value;
      var index := HashFunc(iid);
      var gr := reg.table[index].group;
      ChainedBucket(reg, iid);
      if gr == [] {
        return None, 1;
      }
      receiver, err := t, 0;
      var found := FindLoop(gr, iid);
      if found.Some? {
        receiver := found;
      }
      if receiver.None? {
        err := 1;
      }
    }

    /** The search through a chain for the receiver. */
    static method FindLoop(group: seq<Item>, id: DeviceId) returns (t: Option<Address>)
      ensures t == Find(group, id)
    {
      t := None;
      var gr := group;
      while gr != []
        invariant Find(gr, id) == Find(group, id) && t.None?
      {
        if gr[0].id == id {
          t := Some(gr[0].ipv4);
          return;
        }
        gr := gr[1..];
      }
    }
  }

  lemma SendOne(sent: seq<Delivery>, hi: seq<Message>, to: Address, rest: seq<Delivery>)
    requires hi != [] && rest != [] && rest[0] == Delivery(hi[0], to)
    ensures sent + rest == sent + [Delivery(hi[0], to)] + rest[1..]
  {
  }

  lemma ChainedBucket(reg: Registry, id: DeviceId)
    requires reg.Valid()
    ensures Chained(reg.contents, id) <==> reg.table[HashValue(id)].group != []
  {
  }

  // ----- What a batch sends

  ghost predicate Deliverable(m: Message, contents: map<DeviceId, Address>) {
    Target(m).Some? && Target(m).value in contents
  }

  /** How many messages, newest first, come before the first one that cannot be delivered. */
  ghost function Reach(batch: seq<Message>, contents: map<DeviceId, Address>): (n: nat)
    ensures n <= |batch| && forall i :: 0 <= i < n ==> Deliverable(batch[i], contents)
    ensures n < |batch| ==> !Deliverable(batch[n], contents)
  {
    if batch == [] || !Deliverable(batch[0], contents) then 0 else 1 + Reach(batch[1..], contents)
  }

  /** Each of the first `n` messages, once, to the address its target is registered with. */
  ghost function Deliveries(batch: seq<Message>, n: nat, contents: map<DeviceId, Address>): (out: seq<Delivery>)
    ensures |out| == n
    requires n <= |batch| && forall i :: 0 <= i < n ==> Deliverable(batch[i], contents)
  {
    if n == 0 then []
    else
      assert Deliverable(batch[0], contents);
      [Delivery(batch[0], contents[Target(batch[0]).value])] + Deliveries(batch[1..], n - 1, contents)
  }

  /** With `clear` set the sender delivers exactly the longest deliverable prefix, and flags an error
      exactly when it stopped at a known route to an unregistered target. */
  lemma {:induction false} ClearingSendsPrefix(batch: seq<Message>, contents: map<DeviceId, Address>)
    ensures var n, out := Reach(batch, contents), SendBatch(batch, None, contents, true);
      && out.0 == Deliveries(batch, n, contents)
      && out.1 == if n < |batch| && Target(batch[n]).Some? then 1 else 0
  {
    if batch != [] && Deliverable(batch[0], contents) {
      ClearingSendsPrefix(batch[1..], contents);
      assert Chained(contents, Target(batch[0]).value);
      DeliveriesStep(batch, contents);
    }
  }

  lemma DeliveriesStep(batch: seq<Message>, contents: map<DeviceId, Address>)
    requires batch != [] && Deliverable(batch[0], contents)
    ensures Deliveries(batch, Reach(batch, contents), contents) ==
            [Delivery(batch[0], contents[Target(batch[0]).value])] + Deliveries(batch[1..], Reach(batch[1..], contents), contents)
  {
  }

  /** An undeliverable message at which the sender stops although it already sent something. */
  ghost predicate StopsAt(m: Message, contents: map<DeviceId, Address>) {
    Target(m).None? || !Chained(contents, Target(m).value)
  }

  /** Without `clear` the receiver of the previous message is still set, so the sender does the same
      exactly when it meets no message, after a sent one, whose unregistered target shares a bucket with
      a registered device. Such a message goes out to an address nobody registered. */
  lemma KeepingSendsPrefixExactlyWhen(batch: seq<Message>, contents: map<DeviceId, Address>)
    ensures var n := Reach(batch, contents);
      SendBatch(batch, None, contents, false).0 == Deliveries(batch, n, contents) <==>
      n == |batch| || n == 0 || StopsAt(batch[n], contents)
  {
    var n := Reach(batch, contents);
    KeepingSends(batch, None, contents);
    if n < |batch| && n > 0 && !StopsAt(batch[n], contents) {
      assert |SendBatch(batch, None, contents, false).0| > n;
    }
  }

  /** The smallest such case: ids "H" and "\u0001\u0001" share bucket 72 and only "H" is registered. The
      second message is sent all the same, to the zero address. */
  lemma StaleReceiver(first: Message, second: Message, addr: Address)
    requires first.route == GNtfCli && second.route == GNtfCli && first.devId == [72] && second.devId == [1, 1]
    ensures SendBatch([first, second], None, map[first.devId := addr], false) == ([Delivery(first, addr), Delivery(second, NO_ADDRESS)], 0)
    ensures SendBatch([first, second], None, map[first.devId := addr], true) == ([Delivery(first, addr)], 1)
  {
    var contents: map<DeviceId, Address> := map[first.devId := addr];
    NegativesCount(first.devId);
    NegativesCount(second.devId);
    assert first.devId[..0] == [] && Polynomial(first.devId) == 72;
    assert second.devId[..1] == [1] && [1][..0] == [] && Pow71(1) == 71;
    assert Polynomial([1]) == 1 && Polynomial(second.devId) == 72;
    assert Chained(contents, first.devId) && Chained(contents, second.devId) by {
      assert first.devId in contents;
    }
    assert [first, second][1..] == [second] && [second][1..] == [];
    var d1, d2 := Delivery(first, addr), Delivery(second, NO_ADDRESS);
    assert [d2] + [] == [d2] && [d1] + [d2] == [d1, d2] && [d1] + [] == [d1];
    assert SendBatch([], Some(NO_ADDRESS), contents, false) == ([], 0);
    assert second.devId !in contents && Target(second) == Some(second.devId);
    assert SendBatch([second], Some(NO_ADDRESS), contents, false).0 == [d2] + [];
    assert SendBatch([second], None, contents, true) == ([], 1);
    assert SendBatch([first, second], None, contents, false).0 == [d1] + [d2];
    assert SendBatch([first, second], None, contents, true).0 == [d1] + [];
  }

  lemma {:induction false} KeepingSends(batch: seq<Message>, t: Option<Address>, contents: map<DeviceId, Address>)
    ensures var n, out := Reach(batch, contents), SendBatch(batch, t, contents, false).0;
      if n == |batch| || (n == 0 && t.None?) || StopsAt(batch[n], contents) then out == Deliveries(batch, n, contents)
      else |out| > n && out[n].message == batch[n]
    decreases |batch|
  {
    if batch != [] && Deliverable(batch[0], contents) {
      KeepingSends(batch[1..], Some(NO_ADDRESS), contents);
      assert Chained(contents, Target(batch[0]).value);
      DeliveriesStep(batch, contents);
      assert Reach(batch, contents) == 1 + Reach(batch[1..], contents);
    }
  }

  // ----- Where each message goes

  predicate Handled(m: Message) {
    m.route == GNtfCli || m.route == FSrvCli || m.route == GNtfSrv || m.route == FSrvNtf || m.route == GCliNtf
  }

  /** A message that the sender sends: its route is one of the five, and it goes to the address of the
      notifier if it comes from a client for a notifier, and of the device otherwise. */
  ghost predicate WellRouted(d: Delivery, contents: map<DeviceId, Address>) {
    && Handled(d.message)
    && if d.message.route == GCliNtf then d.message.ntfId in contents && d.address == contents[d.message.ntfId]
       else d.message.devId in contents && d.address == contents[d.message.devId]
  }

  /** A message that ends the batch, and the flag it leaves. */
  ghost predicate EndsWith(m: Message, contents: map<DeviceId, Address>, err: int) {
    if !Handled(m) then err == 0
    else err == 1 && (if m.route == GCliNtf then m.ntfId else m.devId) !in contents
  }

  /** With `clear`, every batch: the messages are sent from the front on, each to the registered device its
      route names; the first message that has no such device ends the batch, with flag 0 if its route is
      none of the five and flag 1 if its device is not registered. */
  lemma {:induction false} ClearingRoutes(batch: seq<Message>, contents: map<DeviceId, Address>)
    ensures var out := SendBatch(batch, None, contents, true);
      && |out.0| <= |batch|
      && (forall i :: 0 <= i < |out.0| ==> out.0[i].message == batch[i] && WellRouted(out.0[i], contents))
      && (if |out.0| == |batch| then out.1 == 0 else EndsWith(batch[|out.0|], contents, out.1))
  {
    if batch != [] && Deliverable(batch[0], contents) {
      var id := Target(batch[0]).value;
      assert id in contents && Chained(contents, id);
      ClearingRoutes(batch[1..], contents);
      var first, rest := Delivery(batch[0], contents[id]), SendBatch(batch[1..], None, contents, true);
      assert SendBatch(batch, None, contents, true) == ([first] + rest.0, rest.1);
    }
  }

  /** One round without `clear`. */
  lemma KeepingRound(batch: seq<Message>, t: Option<Address>, contents: map<DeviceId, Address>)
    requires batch != [] && (t.Some? ==> t.value == 0)
    ensures var out, rest := SendBatch(batch, t, contents, false), SendBatch(batch[1..], Some(NO_ADDRESS), contents, false);
      || (exists to :: out == ([Delivery(batch[0], to)] + rest.0, rest.1) && Routed(Delivery(batch[0], to), t, contents))
      || (out.0 == [] && EndsWith(batch[0], contents, out.1) && (Handled(batch[0]) && t.Some? ==> BucketEmpty(batch[0], contents)))
  {
    if Handled(batch[0]) {
      var id := Target(batch[0]).value;
      var receiver := if id in contents then Some(contents[id]) else t;
      assert id in contents ==> Chained(contents, id);
      if Chained(contents, id) && receiver.Some? {
        assert Routed(Delivery(batch[0], receiver.value), t, contents);
      }
    }
  }

  /** To the registered device, or to nobody if something was sent before. */
  ghost predicate Routed(d: Delivery, t: Option<Address>, contents: map<DeviceId, Address>) {
    WellRouted(d, contents) || (t.Some? && SentStale(d, contents))
  }

  /** Without `clear` the same holds of every message whose device is registered; another one can only go
      out as a later message, with a device in its bucket, and then goes to address zero. */
  lemma {:induction false} KeepingRoutes(batch: seq<Message>, t: Option<Address>, contents: map<DeviceId, Address>)
    requires t.Some? ==> t.value == 0
    ensures var out := SendBatch(batch, t, contents, false);
      && |out.0| <= |batch|
      && (forall i :: 0 <= i < |out.0| ==> out.0[i].message == batch[i] && (WellRouted(out.0[i], contents) || SentStale(out.0[i], contents)))
      && (t.None? && out.0 != [] ==> WellRouted(out.0[0], contents))
      && (if |out.0| == |batch| then out.1 == 0 else EndsWith(batch[|out.0|], contents, out.1))
      && (|out.0| < |batch| && Handled(batch[|out.0|]) && (t.Some? || out.0 != []) ==> BucketEmpty(batch[|out.0|], contents))
  {
    if batch != [] {
      KeepingRound(batch, t, contents);
      KeepingRoutes(batch[1..], Some(NO_ADDRESS), contents);
    }
  }

  ghost predicate SentStale(d: Delivery, contents: map<DeviceId, Address>) {
    Handled(d.message) && (if d.message.route == GCliNtf then d.message.ntfId else d.message.devId) !in contents && d.address == 0
    && !BucketEmpty(d.message, contents)
  }

  /** No registered device hashes like the device of the message. */
  ghost predicate BucketEmpty(m: Message, contents: map<DeviceId, Address>) {
    forall id: DeviceId :: id in contents ==> HashValue(id) != HashValue(if m.route == GCliNtf then m.ntfId else m.devId)
  }

  // ----- Pushes and detaches in any order

  datatype Step = Push(m: Message) | Detach

  datatype State = State(list: seq<Message>, batches: seq<seq<Message>>)

  /** One critical section: a push, or a detach that moves the whole list to a batch of its own. */
  function Apply(s: State, step: Step): State {
    match step
    case Push(m) => s.(list := [m] + s.list)
    case Detach => State([], s.batches + [s.list])
  }

  function Run(s: State, steps: seq<Step>): State {
    if steps == [] then s else Apply(Run(s, steps[..|steps| - 1]), steps[|steps| - 1])
  }

  function Pushed(steps: seq<Step>): seq<Message> {
    if steps == [] then []
    else Pushed(steps[..|steps| - 1]) + if steps[|steps| - 1].Push? then [steps[|steps| - 1].m] else []
  }

  function OldestFirst(batch: seq<Message>): seq<Message> {
    if batch == [] then [] else OldestFirst(batch[1..]) + [batch[0]]
  }

  function AllBatches(batches: seq<seq<Message>>): seq<Message> {
    if batches == [] then [] else AllBatches(batches[..|batches| - 1]) + OldestFirst(batches[|batches| - 1])
  }

  /** However pushes and detaches interleave, the messages pushed are, in order, the detached batches one
      after the other and then what is still listed: each message is in exactly one place. */
  lemma {:induction false} EveryPushInOnePlace(steps: seq<Step>)
    ensures var s := Run(State([], []), steps); Pushed(steps) == AllBatches(s.batches) + OldestFirst(s.list)
  {
    if steps != [] {
      var init, step := steps[..|steps| - 1], steps[|steps| - 1];
      var s := Run(State([], []), init);
      EveryPushInOnePlace(init);
      if step.Push? {
        assert ([step.m] + s.list)[1..] == s.list;
      } else {
        assert (s.batches + [s.list])[..|s.batches|] == s.batches;
        assert OldestFirst([]) == [];
      }
    }
  }
}
