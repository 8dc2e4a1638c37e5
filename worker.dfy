/**
 Worker identity and the bus-side registry entry (for-event-bus/src/worker/mod.rs).

 A `WorkerId` pairs a caller-supplied name with a number drawn from one
 process-wide counter that only increases; a `CopyOfWorker` is what the bus
 keeps per registered worker: its identity, its outbound sender and the set
 of event types it subscribed to, a set that only grows.
 */
module Workers {
  import opened Bus
  import Decimal

  datatype Option<T> = None | Some(value: T)

  /** A worker's identity. Equality of the datatype is equality of
      `(id, name)`, as the derived `PartialEq` compares both fields. */
  datatype WorkerId = WorkerId(id: nat, name: string) {

    /** `name()`: the name given at creation. */
    function Name(): string {
      name
    }

    /** The `Display` form: the name, a dash, then the id in decimal. */
    function Display(): (s: string)
      ensures |s| > |name| && s[..|name|] == name && s[|name|] == '-'
      ensures Decimal.Canonical(s[|name| + 1..])
      ensures Decimal.ToNat(s[|name| + 1..]) == id
    {
      var digits := Decimal.FromNat(id);
      Decimal.ToNatFromNat(id);
      assert (name + "-" + digits)[|name| + 1..] == digits;
      name + "-" + digits
    }
  }

  /** The position of the last '-' in `s`, if there is one. */
  function LastDash(s: string): (r: Option<nat>)
    ensures r.Some? ==> r.value < |s| && s[r.value] == '-'
    ensures r.Some? ==> forall j :: r.value < j < |s| ==> s[j] != '-'
    ensures r.None? ==> forall j :: 0 <= j < |s| ==> s[j] != '-'
    decreases |s|
  {
    if |s| == 0 then None
    else if s[|s| - 1] == '-' then Some(|s| - 1)
    else LastDash(s[..|s| - 1])
  }

  /** Reads a `Display` form back: everything before the last dash is the
      name, everything after it must be a decimal rendering of the id. */
  function ParseDisplay(s: string): Option<WorkerId> {
    match LastDash(s)
    case None => None
    case Some(k) =>
      if Decimal.Canonical(s[k + 1..])
      then Some(WorkerId(Decimal.ToNat(s[k + 1..]), s[..k]))
      else None
  }

  /** The dash the `Display` form puts after the name is its last one, since
      a decimal rendering holds no dash. */
  lemma LastDashOfDisplay(w: WorkerId)
    ensures LastDash(w.Display()) == Some(|w.name|)
  {
  }

  /** Reading back a `Display` form recovers the identity. */
  lemma ParseDisplayOfDisplay(w: WorkerId)
    ensures ParseDisplay(w.Display()) == Some(w)
  {
  }

  /** Every string that reads back as an identity is that identity's
      `Display` form. */
  lemma DisplayOfParseDisplay(s: string, w: WorkerId)
    requires ParseDisplay(s) == Some(w)
    ensures w.Display() == s
  {
    var k := LastDash(s).value;
    var digits := s[k + 1..];
    Decimal.FromNatToNat(digits);
    assert s == s[..k] + "-" + digits;
    var t := w.Display();
    assert t[..|w.name|] == w.name;
    assert t == t[..|w.name|] + "-" + t[|w.name| + 1..];
    Decimal.FromNatToNat(t[|w.name| + 1..]);
  }

  /** Distinct identities never display alike, so the `Display` form
      identifies a worker as well as equality does. */
  lemma DisplayInjective(a: WorkerId, b: WorkerId)
    ensures a.Display() == b.Display() <==> a == b
  {
  }

  /** The identities drawn so far: the i-th one carries the number i. */
  ghost predicate IdsAreIndices(issued: seq<WorkerId>) {
    forall i :: 0 <= i < |issued| ==> issued[i].id == i
  }

  /** No two identities drawn from the counter are equal, even when their
      names are. */
  lemma IssuedDistinct(issued: seq<WorkerId>)
    requires IdsAreIndices(issued)
    ensures forall i, j :: 0 <= i < j < |issued| ==> issued[i] != issued[j]
  {
  }

  /** The process-wide `ID` counter, which starts at zero and is only ever
      advanced by `WorkerId::init`. `issued` records every identity handed
      out, in order. */
  class IdCounter {
    var next: nat
    ghost var issued: seq<WorkerId>

    ghost predicate Valid()
      reads this
    {
      |issued| == next && IdsAreIndices(issued)
    }

    constructor ()
      ensures Valid() && next == 0 && issued == []
    {
      next := 0;
      issued := [];
    }

    /** `WorkerId::init(name)`: takes the counter's current value as the id
        and leaves the counter one higher. */
    method Init(name: string) returns (w: WorkerId)
      requires Valid()
      modifies this
      ensures Valid()
      ensures w.id == old(next) && w.Name() == name
      ensures next == old(next) + 1
      ensures issued == old(issued) + [w]
      ensures w !in old(issued)
    {
      w := WorkerId(next, name);
      next := next + 1;
      issued := issued + [w];
    }
  }

  /** The sending half of a worker's channel, as an opaque token: clones of a
      sender are equal tokens. */
  datatype Sender = Sender(channel: nat)

  /** The dispatch-side handle: an identity and a sender, no subscriptions. */
  datatype Worker = Worker(id: WorkerId, tx: Sender) {
    function Id(): WorkerId {
      id
    }
  }

  /** The subscription set after subscribing `s` to `t`: it holds `t`, keeps
      every earlier member and gains nothing else. */
  function Subscribed(s: set<TypeId>, t: TypeId): (r: set<TypeId>)
    ensures t in r && s <= r
    ensures forall u :: u in r ==> u == t || u in s
  {
    s + {t}
  }

  /** Subscribing to the same type twice leaves the set of subscribing once. */
  lemma SubscribedIdempotent(s: set<TypeId>, t: TypeId)
    ensures Subscribed(Subscribed(s, t), t) == Subscribed(s, t)
  {
  }

  /** The subscription set after subscribing to each of `ts` in turn. */
  function SubscribeAll(s: set<TypeId>, ts: seq<TypeId>): set<TypeId>
    decreases |ts|
  {
    if ts == [] then s else SubscribeAll(Subscribed(s, ts[0]), ts[1..])
  }

  /** Any run of subscriptions adds exactly the types subscribed to, whatever
      their order and however often each occurs. */
  lemma {:induction false} SubscribeAllIsUnion(s: set<TypeId>, ts: seq<TypeId>)
    ensures SubscribeAll(s, ts) == s + (set t | t in ts)
    decreases |ts|
  {
    if ts != [] {
      SubscribeAllIsUnion(Subscribed(s, ts[0]), ts[1..]);
      assert ts == [ts[0]] + ts[1..];
      assert (set t | t in ts) == {ts[0]} + (set t | t in ts[1..]);
    }
  }

  /** Repeating a run of subscriptions changes nothing. */
  lemma SubscribeAllRepeat(s: set<TypeId>, ts: seq<TypeId>)
    ensures SubscribeAll(SubscribeAll(s, ts), ts) == SubscribeAll(s, ts)
  {
    SubscribeAllIsUnion(s, ts);
    SubscribeAllIsUnion(SubscribeAll(s, ts), ts);
  }

  /** The bus-side record of one registered worker. Only the subscription
      set ever changes after construction. */
  class CopyOfWorker {
    const id: WorkerId
    const txEvent: Sender
    var subscribeEvents: set<TypeId>

    /** `CopyOfWorker::init`: no subscriptions yet. */
    constructor Init(id: WorkerId, txEvent: Sender)
      ensures Id() == id && this.txEvent == txEvent
      ensures SubscribeEvents() == {}
    {
      this.id := id;
      this.txEvent := txEvent;
      subscribeEvents := {};
    }

    function Id(): WorkerId
      reads this
    {
      id
    }

    /** The dispatch-side projection: same identity, a clone of the same
        sender; reading the entry leaves its subscriptions alone. */
    function InitSubscriber(): (w: Worker)
      reads this
      ensures w.Id() == Id() && w.tx == txEvent
    {
      Worker(id, txEvent)
    }

    /** `subscribe_event`: a set insert. Identity and sender are constant
        fields, set once by the constructor, so they stay as they were. */
    method SubscribeEvent(tyId: TypeId)
      modifies this`subscribeEvents
      ensures SubscribeEvents() == Subscribed(old(SubscribeEvents()), tyId)
    {
      subscribeEvents := subscribeEvents + {tyId};
    }

    /** `subscribe_events`: the subscribed types. */
    function SubscribeEvents(): set<TypeId>
      reads this
    {
      subscribeEvents
    }
  }
}
