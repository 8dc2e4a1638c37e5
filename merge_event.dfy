/**
 The merge example (for-event-bus/examples/merge_event.rs): two unit event
 types, `AEvent` and `Close`, gathered into one sum type `MergeEvent`. Its
 `Merge` implementation has two halves written separately: `merge`, which
 turns an envelope into a `MergeEvent` by trying downcasts in order, and
 `subscribe_types`, which lists the types a merge worker is subscribed to.
 The lemmas here show the two halves agree.
 */
module MergeEventExample {
  import opened Bus
  import Workers

  /** The unit structs `AEvent` and `Close`. */
  datatype AEvent = AEvent
  datatype Close = Close

  /** The sum type the merge worker receives. */
  datatype MergeEvent = AEvent(a: AEvent) | Close(c: Close)

  /** `TypeId::of::<AEvent>()` and `TypeId::of::<Close>()`. */
  const AEVENT_TYPE: TypeId := TypeId("merge_event::AEvent")
  const CLOSE_TYPE: TypeId := TypeId("merge_event::Close")

  /** `AEvent::name()` and `Close::name()`, as the `Event` derive supplies them. */
  const AEVENT_NAME: string := "AEvent"
  const CLOSE_NAME: string := "Close"

  /** `MergeEvent::merge`: try `AEvent` first, then `Close`, each on the
      original envelope; an envelope of any other type is a downcast error. */
  function Merge(e: BusEvent): (r: Result<MergeEvent>)
    ensures e.tag == AEVENT_TYPE ==> r == Ok(MergeEvent.AEvent(AEvent.AEvent))
    ensures e.tag == CLOSE_TYPE ==> r == Ok(MergeEvent.Close(Close.Close))
    ensures e.tag != AEVENT_TYPE && e.tag != CLOSE_TYPE ==> r == Err(DowncastErr)
  {
    match Downcast(e, AEVENT_TYPE)
    case Ok(_) => Ok(MergeEvent.AEvent(AEvent.AEvent))
    case Err(_) =>
      match Downcast(e, CLOSE_TYPE)
      case Ok(_) => Ok(MergeEvent.Close(Close.Close))
      case Err(_) => Err(DowncastErr)
  }

  /** `MergeEvent::subscribe_types`: the declared `(type id, name)` list. */
  function SubscribeTypes(): (r: seq<(TypeId, string)>)
    ensures |r| == 2
    ensures r[0] == (AEVENT_TYPE, AEVENT_NAME) && r[1] == (CLOSE_TYPE, CLOSE_NAME)
    ensures forall i, j :: 0 <= i < j < |r| ==> r[i].0 != r[j].0
  {
    [(AEVENT_TYPE, AEVENT_NAME), (CLOSE_TYPE, CLOSE_NAME)]
  }

  /** The type identities `subscribe_types` declares. */
  function DeclaredTypes(): set<TypeId> {
    set i | 0 <= i < |SubscribeTypes()| :: SubscribeTypes()[i].0
  }

  /** The identity of the type a variant was recovered from. */
  function VariantType(m: MergeEvent): TypeId {
    match m
    case AEvent(_) => AEVENT_TYPE
    case Close(_) => CLOSE_TYPE
  }

  /** The position of a variant's type in the declared list. */
  function VariantIndex(m: MergeEvent): nat {
    match m
    case AEvent(_) => 0
    case Close(_) => 1
  }

  /** The two halves agree: `merge` accepts an envelope if and only if its
      type is one `subscribe_types` declares. */
  lemma MergeAcceptsExactlyDeclared(e: BusEvent)
    ensures Merge(e).Ok? <==> e.tag in DeclaredTypes()
  {
    assert SubscribeTypes()[0].0 == AEVENT_TYPE;
    assert SubscribeTypes()[1].0 == CLOSE_TYPE;
    if e.tag in DeclaredTypes() {
      var i :| 0 <= i < |SubscribeTypes()| && SubscribeTypes()[i].0 == e.tag;
    }
  }

  /** A successful merge gives the variant of the envelope's own type, and
      that type's entry is the first declared entry the envelope matches. */
  lemma MergePicksFirstDeclared(e: BusEvent, m: MergeEvent)
    requires Merge(e) == Ok(m)
    ensures VariantType(m) == e.tag
    ensures VariantIndex(m) < |SubscribeTypes()|
    ensures SubscribeTypes()[VariantIndex(m)].0 == e.tag
    ensures forall j :: 0 <= j < VariantIndex(m) ==> SubscribeTypes()[j].0 != e.tag
  {
  }

  /** The result of a merge depends on the envelope's type tag alone, never
      on the payload handle it carries. */
  lemma MergeIgnoresPayload(t: TypeId, p: Payload, q: Payload)
    ensures Merge(BusEvent(t, p)) == Merge(BusEvent(t, q))
  {
  }

  /** The declared type ids in declaration order, as a merge login would
      subscribe them. */
  function DeclaredTypeSeq(): seq<TypeId> {
    seq(|SubscribeTypes()|, i requires 0 <= i < |SubscribeTypes()| => SubscribeTypes()[i].0)
  }

  /** An entry that starts with no subscriptions and subscribes to each
      declared type ends up subscribed to exactly the declared types, and a
      type tag is in that set if and only if `merge` accepts an envelope
      carrying it. */
  lemma SubscribedEntryMerges(e: BusEvent)
    ensures Workers.SubscribeAll({}, DeclaredTypeSeq()) == DeclaredTypes()
    ensures e.tag in Workers.SubscribeAll({}, DeclaredTypeSeq()) <==> Merge(e).Ok?
  {
  }
}
