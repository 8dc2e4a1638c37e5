/**
 The type-erased event envelope that travels through the bus.

 The bus module itself is not part of this model; only what the worker
 registry and the merge conversion rely on is stated here: an envelope carries
 the runtime type identity of the value it wraps next to an opaque handle on
 that value, and recovering a concrete type compares identities.
 */
module Bus {

  /** Runtime type identity (`std::any::TypeId`): one distinct value per Rust
      type, modelled by the type's fully qualified path. */
  datatype TypeId = TypeId(path: string)

  /** Opaque shared handle on the payload (`Arc<dyn Any>`); cloning an
      envelope copies the handle, never the value behind it. */
  datatype Payload = Payload(handle: nat)

  /** A type-erased event: the type identity it was erased from and the
      handle on its value. */
  datatype BusEvent = BusEvent(tag: TypeId, payload: Payload)

  /** The one error the modelled code raises. */
  datatype BusError = DowncastErr

  datatype Result<T> = Ok(value: T) | Err(error: BusError)

  /** `downcast::<T>()` on a clone of the envelope, with `want` the identity
      of `T`: it succeeds exactly when the identities agree, and then hands
      back the very payload that was erased. The envelope is a value, so a
      failed attempt leaves it intact for the next one. The library's
      downcast fails by handing the envelope back; the model replaces that
      failure value with `DowncastErr`, the error `merge` raises in its
      place. */
  function Downcast(e: BusEvent, want: TypeId): (r: Result<Payload>)
    ensures r.Ok? <==> e.tag == want
    ensures r.Ok? ==> r.value == e.payload
    ensures r.Err? ==> r.error == DowncastErr
  {
    if e.tag == want then Ok(e.payload) else Err(DowncastErr)
  }

  /** Erasing a value and recovering it at its own type gives it back. */
  lemma DowncastOwnType(t: TypeId, p: Payload)
    ensures Downcast(BusEvent(t, p), t) == Ok(p)
  {
  }

  /** Recovering at any other type fails cleanly. */
  lemma DowncastOtherType(t: TypeId, u: TypeId, p: Payload)
    requires t != u
    ensures Downcast(BusEvent(t, p), u) == Err(DowncastErr)
  {
  }
}
