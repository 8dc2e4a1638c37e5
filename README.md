# for-event-bus: worker identity, registry entry and merge resolution

This project models two pieces of the `for-event-bus` crate, an in-process
typed publish/subscribe bus, and proves properties of them in Dafny.

- **Worker identity and registry entry** (`for-event-bus/src/worker/mod.rs`,
  module `Workers` in `worker.dfy`).
  - `WorkerId` is a datatype `(id, name)`. Datatype equality is exactly the
    derived `PartialEq` over both fields.
  - The process-wide `ID` counter is the class `IdCounter`. It has a `nat`
    field `next` and a ghost history `issued` of every identity handed out.
    `IdCounter.Init` is `WorkerId::init`.
  - The `Display` form `"{name}-{id}"` is `WorkerId.Display`. It uses the
    decimal rendering of `usize` (module `Decimal` in `decimal.dfy`).
  - The partner of `Display` is `ParseDisplay`. It splits at the last dash
    and reads the decimal back. The two are proved inverse, so the display
    form is injective.
  - `CopyOfWorker` is a class. Its identity and opaque `Sender` token are
    constant fields; its `set<TypeId>` is the one field `SubscribeEvent`
    grows in place.
  - `InitSubscriber` projects the entry to the dispatch-side `Worker`.
  - The projections `name()`, `id()` (on both records) and `subscribe_events()`
    are the functions `Name`, `Id` and `SubscribeEvents`. They carry no
    contract of their own; the rows for `IdCounter.Init`,
    `CopyOfWorker.Init` and `InitSubscriber` state what they return.
- **Merge resolution** (`for-event-bus/examples/merge_event.rs`, module
  `MergeEventExample` in `merge_event.dfy`).
  - The type-erased envelope is `Bus.BusEvent`: a type tag plus an opaque
    payload handle (`bus.dfy`). `Downcast` compares tags.
  - `Merge` is the if/else-if chain of downcasts, `AEvent` first, then
    `Close`, else `DowncastErr`.
  - `SubscribeTypes` is the declared `(TypeId, name)` list.
  - The lemmas prove that the two halves, written separately in the source,
    agree: `merge` accepts exactly the declared types, and the variant it
    returns is the first declared match.

## Model

| member | source | states |
|---|---|---|
| `Bus.Downcast` | for-event-bus/examples/merge_event.rs:43-45 | a downcast succeeds exactly when the envelope's type identity is the requested one, then yields the erased payload; otherwise `DowncastErr` |
| `Bus.DowncastOwnType` | for-event-bus/examples/merge_event.rs:43 | an envelope recovered at the type it was erased from gives back its payload |
| `Bus.DowncastOtherType` | for-event-bus/examples/merge_event.rs:45 | an envelope recovered at any other type fails with `DowncastErr` |
| `Decimal.FromNat` | for-event-bus/src/worker/mod.rs:23 | the decimal rendering of the id is non-empty, all digits, with no leading zero except for zero itself |
| `Decimal.ToNatFromNat` | for-event-bus/src/worker/mod.rs:23 | reading the rendered digits back gives the rendered number |
| `Decimal.FromNatToNat` | for-event-bus/src/worker/mod.rs:23 | every canonical digit string is the rendering of the number it denotes |
| `Workers.WorkerId.Display` | for-event-bus/src/worker/mod.rs:21-25 | the display form is the name, then `-`, then the canonical decimal digits of the id |
| `Workers.ParseDisplayOfDisplay` | for-event-bus/src/worker/mod.rs:21-25 | splitting a display form at its last dash recovers the identity (name and id) |
| `Workers.DisplayOfParseDisplay` | for-event-bus/src/worker/mod.rs:21-25 | any string that reads back as an identity is exactly that identity's display form |
| `Workers.DisplayInjective` | for-event-bus/src/worker/mod.rs:15-25 | two identities display alike if and only if they are equal as `(id, name)` pairs |
| `Workers.IssuedDistinct` | for-event-bus/src/worker/mod.rs:15-34 | identities numbered by the counter are pairwise unequal, even when their names coincide |
| `Workers.IdCounter.constructor` | for-event-bus/src/worker/mod.rs:13 | the counter starts at zero with no identity issued |
| `Workers.IdCounter.Init` | for-event-bus/src/worker/mod.rs:28-37 | the new id is the counter's value before the call, the counter ends exactly one higher, `name()` is the given name, and the new identity differs from every earlier one |
| `Workers.CopyOfWorker.Init` | for-event-bus/src/worker/mod.rs:59-68 | a new entry has the given id and sender and an empty subscription set |
| `Workers.CopyOfWorker.InitSubscriber` | for-event-bus/src/worker/mod.rs:70-75 | the dispatch-side worker has the entry's id and sender; as a reading function it leaves the subscription set unchanged |
| `Workers.CopyOfWorker.SubscribeEvent` | for-event-bus/src/worker/mod.rs:76-78 | after subscribing, the set is the old set with the type added, and the frame lets no other state change; id and sender are constant fields, so they stay as built |
| `Workers.Subscribed` | for-event-bus/src/worker/mod.rs:76-78 | a subscription insert contains the new type, keeps every earlier type and adds no other |
| `Workers.SubscribedIdempotent` | for-event-bus/src/worker/mod.rs:76-78 | subscribing to a type twice leaves the same set as subscribing once |
| `Workers.SubscribeAllIsUnion` | for-event-bus/src/worker/mod.rs:76-78 | any run of subscriptions leaves the starting set plus exactly the types subscribed to, whatever the order or repetition |
| `Workers.SubscribeAllRepeat` | for-event-bus/src/worker/mod.rs:76-78 | repeating a run of subscriptions changes nothing |
| `MergeEventExample.Merge` | for-event-bus/examples/merge_event.rs:38-50 | an `AEvent`-tagged envelope merges to the `AEvent` variant, a `Close`-tagged one to the `Close` variant, any other to `DowncastErr` |
| `MergeEventExample.SubscribeTypes` | for-event-bus/examples/merge_event.rs:52-57 | exactly two entries, `AEvent` first and `Close` second, each with its type id and name, and no type id declared twice |
| `MergeEventExample.MergeAcceptsExactlyDeclared` | for-event-bus/examples/merge_event.rs:38-57 | `merge` succeeds if and only if the envelope's type is among those `subscribe_types` declares |
| `MergeEventExample.MergePicksFirstDeclared` | for-event-bus/examples/merge_event.rs:42-49 | a successful merge yields the variant of the envelope's own type, and that type's entry is the first declared entry matching it |
| `MergeEventExample.MergeIgnoresPayload` | for-event-bus/examples/merge_event.rs:42-48 | the result of a merge depends only on the envelope's type tag, never on the payload handle it carries |
| `MergeEventExample.SubscribedEntryMerges` | for-event-bus/examples/merge_event.rs:52-57 | an empty entry subscribed to each declared type holds exactly the declared types, and a type tag is in that set if and only if `merge` accepts an envelope carrying it |

## Left out

- Channels and `async`. `Sender`, `Worker::try_send` and `TrySendError` are a
  concurrency substrate. The sender is an opaque token and sending is not
  modelled.
- Atomic memory ordering (`Ordering::Release`). The counter is one sequential
  object, and concurrent callers are not modelled.
- The source's `ID` is a single `static`. The model stands for it with one
  `IdCounter` object. It does not stop a caller from creating a second
  counter, and two counters would hand out equal ids. The uniqueness that
  `IdCounter.Init` and `IssuedDistinct` prove holds per counter object.
- `IdCounter.Init`: does not model the wrap-around of `fetch_add` on `usize`
  overflow, because the counter is an unbounded `nat`. Ids are therefore
  unique for every number of calls, not only below `usize::MAX`.
- `Arc` sharing of the name and the derived `Hash`. These are representation
  details with no effect on behaviour.
- The commented-out `Worker` trait (mod.rs:84-109) is not code.
- `ToWorker` (mod.rs:111-113) only supplies a name, which the model takes as
  the `name` argument.
- `pub mod identity`, `crate::bus`, `upcast`, `Event` and the bus registry
  with its dispatch fan-out are not part of this model. The envelope is a
  tagged value whose tag is the erased value's type identity.
- `TypeId` is modelled by the type's qualified path, so distinct types have
  distinct ids. `Event::name()` comes from a derive macro that is not part of
  this model; the names are modelled as the bare type names.
- The downcast returns a shared handle, and `merge` clones the unit value
  behind it. `AEvent` and `Close` carry no data, so the payload plays no part
  in the merged result (`MergeIgnoresPayload`).
- A failed library downcast hands the envelope back. The model's `Downcast`
  returns `DowncastErr` instead, which is the error `merge` raises at that
  point.
- In `merge_event.rs`: `main`, `Worker::init/run` and
  `WorkerDispatcher::init/run`. They are task spawning, sleeping, logging and
  receive loops.
- `for-event-bus/examples/normal.rs`. It is a usage demonstration whose
  downcast chain repeats the merge logic.
- The bus's other error kinds (send and registration failures) belong to
  code that is not part of this model. Only `DowncastErr` appears.
