# A verified model of user-space Binder

This project models, in Dafny, the parts of a Go rewrite of Android's user-space Binder whose
correctness is hardest to see: the bookkeeping of remote handles, death notifications, the
parcel format and the codecs built on it, the analyses and generated code of the AIDL
compiler, the RPC session, the service registry and the looper thread. Protocols are state
machines whose steps are the locked sections of the source, and what is proved holds in every
run, that is in every interleaving. Codecs are pairs of functions, and methods that work on a
mutable parcel are proved to refine them. `dafny verify dfyconfig.toml` checks everything.

| file | what it holds |
|---|---|
| `Common.dfy`, `Bytes.dfy`, `Utf16.dfy`, `Wire.dfy` | what all modules share, little-endian integers, padding, UTF-16, the pure wire format |
| `Objects.dfy`, `Parcel.dfy` | binder and file descriptor objects, the object table, export and import, the mutable parcel |
| `DynamicValue.dfy`, `DynamicIO.dfy` | the self-describing values of raw maps: the format, and the code that writes, patches and reads it |
| `AidlTypes.dfy`, `AidlCodec.dfy`, `AidlIO.dfy`, `AidlCall.dfy` | types and values of an interface model, generated writers and readers across versions, the writers on a parcel, whole calls |
| `TransactionCodes.dfy`, `Registrar.dfy`, `FixedSize.dfy` | lowering of interfaces, and the two graph searches of the compiler |
| `RefTracker.dfy`, `RefProtocol.dfy` | references to remote handles: the tracker, and every interleaving of its users |
| `DeathRegistry.dfy`, `DeathProtocol.dfy` | death notifications: the registry, and every interleaving of its users |
| `RpcPending.dfy`, `RpcHandles.dfy` | pending calls and object handles of an RPC session |
| `ServiceRegistry.dfy`, `ServiceProtocol.dfy` | services, waiters and watchers: the registry, and every interleaving of its users |
| `Looper.dfy` | the command loop of a looper thread |

## What does not hold

Some properties one would expect are false of the code. The model keeps the code as it is,
shows a case where the property fails and proves when it holds.

- A structured parcelable cannot gain its first field: a reader with a field takes what follows
  the body of a writer without fields for that field, and leaves it to be read again
  (`AidlCodec.EmptyWriterMisread`, `AidlCodec.EmptyWriterExample`); at the end of a parcel it
  fails (`AidlCodec.EmptyWriterUnreadable`). With at least one field on the writer's side every
  extension at the end is read correctly (`AidlCodec.DecEnc`).
- A union can gain variants on the reader's side only: a reader fails exactly when it comes
  upon a variant that it does not know (`AidlCodec.DecEnc`).
- A raw map does not always come back: `int` keys come back as int32 or int64, so that two keys
  can become one, and the order of the walk decides which value is lost
  (`DynamicValues.ClashLosesOne`). It comes back exactly if no map has an `int` key beside the
  key that it becomes (`DynamicValues.KeptIff`), and the same is the exact condition for values
  with raw maps inside (`AidlCodec.RoundTrip`) and for the arguments and results of a whole
  call (`AidlCall.CallExact`).
- A binder written over old bytes of a parcel does not always read back: the write fills in only
  the head of the object, so a null binder keeps what stood behind it
  (`Parcels.NullOverOnes`), and the first row of the table at a place counts.
  `Parcels.ReadsBackIff` says exactly when it reads back.
- An exception whose code the reply header uses for itself does not reach the caller; all
  others do (`AidlCall.ExceptionArrivesIff`).
- Marks of the fixed-size search can stand for two declarations, and then the search misses a
  field of unbounded size (`FixedSize.ClashMisleads`, `FixedSize.ClashExists`); if no two
  declarations it can reach share a mark its answer is exact (`FixedSize.IsFixedIff`).
- The tracker can release a reference that the kernel does not have: a handle read from a parcel
  of this very process counts as acquired although nothing was received
  (`RefProtocol.UnbackedReleaseRefused`). `RefProtocol.KernelShortIff` says in every run exactly
  when the kernel is short, by how much, and `RefProtocol.KernelNeverShort` that it never is
  without such marks.
- An acquire that begins while no reference is held leaves an entry behind
  (`RefProtocol.UnheldAcquireLeaks`), and so does a received handle that nobody retains;
  otherwise nothing is left (`RefProtocol.CleanWhenQuiet`). In every run with matched references
  an entry is left exactly if a mark or a success while nothing was held put it there and
  nothing has taken it up or removed it since (`RefProtocol.LeftBehindIff`).
- A subscription whose object was reported dead can still end without an error
  (`DeathProtocol.ReportedYetClosed`); a thread is told to end it so if and only if its owner
  closes it after the report (`DeathProtocol.ReportedEndsDead`).
- A subscription can be stranded by the failed request of another one
  (`DeathProtocol.FailedRequestStrands`) or by closing the registry while it waits
  (`DeathProtocol.CloseStrands`); these are all the ways (`DeathProtocol.StrandedIff`), and only
  its owner can end it then (`DeathProtocol.StrandedUntilClosed`).
- A cancelled RPC call reads its id from a frame it has already given back. If the frame is not
  in use the id is zero and the call's entry stays (`RpcPending.OwnEntryStays`); if a later call
  has the frame, that call loses its entry (`RpcPending.OtherEntryTaken`). The own entry goes
  exactly if the frame carries an answer to a request of the peer with the same number
  (`RpcPending.CancelRemovesIff`).
- Transaction codes near the end of the 32-bit range start over
  (`TransactionCodes.CounterWraps`); while the counter does not give the last code, the codes
  are distinct exactly if no explicit code repeats the code of an earlier method
  (`TransactionCodes.DistinctIff`).
- Handles of an RPC session are not new for ever: a new handle is one in use exactly from
  registration 2^31 - 1 of the server and 2^31 of the client on (`RpcHandles.ReusedIff`).

## Model

| member | source | states |
|---|---|---|
| Utf16.ValidateUTF16 | binder/parcel.go:1000-1018 | the loop accepts a unit sequence if and only if it is the UTF-16 encoding (section 2.1 of RFC 2781) of some text |
| Utf16.DecodeEncode | binder/parcel.go:334-356 | decoding undoes encoding, for every sequence of Unicode scalars |
| Utf16.EncodeDecode | binder/parcel.go:683-715 | every accepted unit sequence is encoded again unchanged |
| Wire.ReadTextAt | binder/parcel.go:683-715 | a string written anywhere reads back, and the cursor stops exactly after its padding |
| Wire.ReadTextSound | binder/parcel.go:683-715 | on any bytes, what the string reader accepts encodes to the bytes it consumed |
| Wire.ReadRawAt | binder/parcel.go:748-765 | a byte slice written anywhere reads back with exact padded consumption |
| Parcels.OverwriteMiddle | binder/parcel.go:925-940 | writing over a slot of the buffer replaces exactly that slot |
| Parcels.Parcel.SetPosition | binder/parcel.go:256-265 | the cursor moves if and only if the place is inside the buffer |
| Parcels.Parcel.Reserve | binder/parcel.go:966-988 | the buffer grows with zeros only when the cursor runs past its end |
| Parcels.Parcel.WriteBlock | binder/parcel.go:925-940 | the padded payload stands at the old cursor and nothing else changes |
| Parcels.Parcel.WriteString | binder/parcel.go:326-356 | writes the encoding, or refuses a string whose length does not fit and changes nothing |
| Parcels.Parcel.WriteStrongBinder | binder/parcel.go:449-540 | fills in the head of the object at the cursor, writes the label and adds the matching row; at the end of the buffer that appends the encoding |
| Parcels.Parcel.WriteFileDescriptor | binder/parcel.go:546-574 | the same for a descriptor, and refuses negative ones, and all if the parcel does not allow descriptors |
| Parcels.ReadsBackIff | binder/parcel.go:449-540 | a binder written at any place of any buffer reads back if and only if, when null, the bytes there were zero, and otherwise the first row at the place is one of a strong binder |
| Parcels.NullOverOnes | binder/parcel.go:529-540 | a null binder that is not null to the reader |
| Parcels.Parcel.ReadNullableString | binder/parcel.go:683-715 | the method with its checks computes the pure read |
| Parcels.Parcel.FindObject | binder/parcel.go:1020-1027 | the loop finds the first row at an offset, or that there is none |
| Parcels.Parcel.ReadStrongBinder | binder/parcel.go:1050-1106 | block, type, row and label checked in turn give exactly the read that undoes writing, and the cursor has passed the block also when a later check fails |
| Parcels.Parcel.ReadFileDescriptor | binder/parcel.go:1108-1131 | the same for a descriptor |
| Objects.RowsWithin | binder/parcel.go:449-574 | appending any sequence of scalars, strings, binders and descriptors keeps the table sorted, disjoint and inside the buffer |
| Objects.ReadBinderAt | binder/parcel.go:1050-1106 | a binder reads back with handle, node and stability through any table that holds its row |
| Objects.ReadFdAt | binder/parcel.go:1108-1131 | a descriptor reads back through any table that holds its row |
| Objects.ParseObjects | internal/kernel/transact.go:251-278 | accepts exactly the offset lists whose every object parses, and returns their rows |
| Objects.ExportImport | internal/kernel/transact.go:280-314 | the exported offsets, parsed again, give the same kinds, offsets, lengths and handles |
| Objects.DriverRoundTrip | binder/parcel.go:146-211 | append, export, import and mirrored reads return every value that was written |
| DynamicValues.DecEnc | binder/value.go:216-308 | every nested value, in every order its maps may be walked, reads back in the form that order leaves, with the cursor just past it, whatever surrounds it |
| DynamicValues.KeptIff | binder/value.go:95-308 | the value that comes back is the one that was written, entry by entry, if and only if no map in it has an `int` key beside the int32 or int64 key that it becomes |
| DynamicValues.ClashLosesOne | binder/value.go:111-117 | for two such keys the order of the walk decides which value comes back |
| DynamicValues.DecCursor | binder/value.go:344-365 | on every buffer a successful read moves on by at least four bytes, stays inside, and for a list or map ends exactly where its prefix says |
| DynamicIO.WriteDynamicValue | binder/value.go:95-213 | appends exactly the encoding of a walk of the value, all lengths patched, for whatever order maps are walked in, and fails exactly on values that do not fit |
| DynamicIO.WriteTree | binder/value.go:95-213 | the same for a given order |
| DynamicIO.EndBody | binder/value.go:310-333 | patching changes the four bytes of the length slot and nothing else |
| DynamicIO.WriteEntries | binder/value.go:37-62 | the entries are written each once, in some order, under the right count |
| DynamicIO.ReadDynamicValue | binder/value.go:216-308 | the recursive reader computes the pure read and leaves the cursor there |
| DynamicIO.ReadEntries | binder/value.go:65-92 | the loop builds the map of the pure read |
| DynamicIO.ReadItems | binder/codec_helpers.go:31-60 | the loop builds the list of the pure read |
| DynamicIO.WriteThenRead | binder/value.go:95-308 | after any write the table is still sorted and reading at the place of the write returns what its walk leaves, whatever was appended since: the value itself exactly if no two of its keys become one |
| AidlTypes.AsMapEntry | binder/value.go:65-92 | with distinct keys the map that is read holds every entry, whatever their order |
| AidlCodec.DecEnc | internal/aidl/codegen/go.go:2039-2219 | for all types and values, binders included, and through any object table that finds their rows, readers of one version recover from writers of another the shared fields, keep the initial values of the others, and stop where the writer stopped, also if each declares types the other does not have; they fail if and only if they come upon a variant they do not know |
| AidlCodec.DecEncIn | internal/aidl/codegen/go.go:2001-2037 | the same in a field, an element or an argument, with the presence word |
| AidlCodec.DecEncFields | internal/aidl/codegen/go.go:1004-1037 | field by field: stops at the announced end or after its own last field, whichever comes first |
| AidlCodec.DecEncBody | internal/aidl/codegen/go.go:956-1037 | a structured or opaque parcelable ends exactly at the writer's end |
| AidlCodec.DecEncChoice | internal/aidl/codegen/go.go:1312-1348 | a union comes back with its tag and the value of that variant if and only if the reader knows the tag |
| AidlCodec.DecEncAll | binder/codec_helpers.go:6-60 | a slice comes back element by element |
| AidlCodec.DecEncDict | binder/value.go:37-92 | a typed map comes back entry by entry, in the order it was walked |
| AidlCodec.RoundTrip | internal/aidl/codegen/go.go:2001-2219 | between equal versions every value is read to its exact end, and it is alike, equal but for the form of raw maps, if and only if no raw map in it has two keys that come back as one; without raw maps it is equal |
| AidlCodec.AdaptAlike | internal/aidl/codegen/go.go:2001-2219 | between equal versions the adapted value is alike if and only if no raw map in it loses a key |
| AidlCodec.RowsOfWithin | binder/parcel.go:449-540 | the rows of the object table that any value adds are sorted, disjoint and inside its encoding |
| AidlCodec.RowsImport | internal/kernel/transact.go:251-314 | each of these rows, parsed again from the bytes, is the row that was written |
| AidlCodec.KnowsOwn | internal/aidl/codegen/go.go:1312-1348 | a reader knows every variant of its own version |
| AidlCodec.EmptyWriterMisread | internal/aidl/codegen/go.go:1004-1037 | a reader with a field takes what follows the body of a writer without fields for that field and leaves the cursor in front of it, or fails if it cannot be read |
| AidlCodec.EmptyWriterUnreadable | internal/aidl/codegen/go.go:1004-1037 | at the end of a parcel it fails |
| AidlCodec.EmptyWriterExample | internal/aidl/codegen/go.go:1004-1037 | a number behind such a body is read twice |
| AidlIO.Write | internal/aidl/codegen/go.go:2039-2140 | appends exactly the encoding and exactly the rows of the value, raw maps and binders included, and refuses exactly the values that are not of the type |
| AidlIO.WriteRaw | internal/aidl/codegen/go.go:2039-2140 | a raw map is written under its count in the order it is walked |
| AidlIO.WriteIn | internal/aidl/codegen/go.go:2001-2016 | the same with the presence word |
| AidlIO.WriteBody | internal/aidl/codegen/go.go:956-1001 | fields first, then the size patched in front of them, gives the sized encoding |
| AidlIO.WriteFields | internal/aidl/codegen/go.go:987-991 | the fields are written in order, and exactly a record of well-typed fields is accepted |
| AidlIO.EndSized | service_manager_support.go:436-452 | patching gives the size of everything from the slot on and changes nothing else |
| AidlIO.WriteChoice | internal/aidl/codegen/go.go:1312-1326 | tag and value are written, and exactly the valid tags are accepted |
| AidlIO.WriteItems | binder/codec_helpers.go:6-28 | the loop appends the encodings of all elements, or fails at the first that is not of the type |
| AidlIO.WriteEntries | binder/value.go:37-62 | the loop appends all entries, or fails at the first that is not of the types |
| AidlIO.WriteArgs | internal/aidl/codegen/go.go:1947-1960 | the values of a call are written in order, with the rows of their objects, and exactly well-typed ones are accepted |
| AidlIO.WriteRequest | internal/aidl/codegen/go.go:1661-1681 | the proxy fills a new parcel with exactly the request and object table the handler is proved to read, or fails exactly on what does not fit |
| AidlIO.WriteReply | internal/aidl/codegen/go.go:1773-1787 | the handler fills a new parcel with exactly the reply and object table the proxy is proved to read, or fails |
| AidlCall.CallArrives | internal/aidl/codegen/go.go:1661-1687 | the handler calls the method that was called, with the caller's arguments as its version has them, if and only if it knows every variant in them |
| AidlCall.ReplyArrives | internal/aidl/codegen/go.go:1726-1788 | the proxy reads the results the handler wrote as its version has them, if and only if it knows every variant in them |
| AidlCall.AnswerReturns | internal/aidl/codegen/go.go:1726-1788 | whatever the implementation does: well-typed results with known variants arrive adapted and all others fail, an exception arrives if and only if its message fits and its code is an ordinary one, any other failure breaks the call |
| AidlCall.CallReturns | internal/aidl/codegen/go.go:1661-1788 | between versions that may each declare what the other does not, the implementation gets the adapted arguments and the caller what becomes of the outcome of that very call, be it results, an exception or a failure; the call breaks before exactly because of a variant unknown to the handler |
| AidlCall.DriverHolds | internal/kernel/transact.go:251-314 | the object table of any values gets through the driver, which carries only offsets, and finds every row |
| AidlCall.DriverTransparent | internal/kernel/transact.go:251-314 | every two-way call has through the driver the result it has when the object tables themselves are handed over |
| AidlCall.CallExact | internal/aidl/codegen/go.go:1661-1788 | with one version, the implementation of the called method gets the caller's arguments and the caller its results, each alike if and only if no raw map in them has two keys that come back as one, and equal without raw maps |
| AidlCall.OnewayCall | internal/aidl/codegen/go.go:1678-1694 | a oneway call reaches the implementation and returns nothing |
| AidlCall.ReadTokenAt | binder/parcel.go:407-439 | the request header is accepted and yields the descriptor |
| AidlCall.ExceptionArrivesIff | binder/status_codec.go:18-167 | a raised exception reaches the caller if and only if its code is not one the header reserves |
| TransactionCodes.AssignCodes | internal/aidl/gomodel/lower.go:227-280 | the loop gives the codes and diagnostics of the recursive definition, 32-bit wrap-around included |
| TransactionCodes.AssignByRank | internal/aidl/gomodel/lower.go:227-280 | the codes are, in order, those read off the declarations: an explicit value, or the largest, over the explicit codes before, of that code plus one plus the methods counted since |
| TransactionCodes.DistinctIff | internal/aidl/gomodel/lower.go:227-280 | for declarations that do not make the counter give the last code of the range, codes are distinct if and only if no explicit code repeats the code read off an earlier declaration |
| TransactionCodes.CountedAbove | internal/aidl/gomodel/lower.go:227-280 | every counted code is above all earlier codes, counted or explicit, apart from an explicit last code of the range |
| TransactionCodes.CounterWraps | internal/aidl/gomodel/lower.go:227-280 | near the end of the range a counted code repeats |
| TransactionCodes.CodesSelect | internal/aidl/codegen/go.go:1521-1537 | with distinct codes the switch finds the method that was called |
| TransactionCodes.SplitArgs | internal/aidl/gomodel/lower.go:317-343 | each argument stands among the inputs at the place given by the number of arguments sent before it, likewise among the outputs, and nothing else is there |
| TransactionCodes.LowerMethod | internal/aidl/gomodel/lower.go:292-359 | the reply of the lowered method has the returned value first and then every argument that comes back at its place; a oneway method is accepted if and only if it has no reply |
| Registrar.NeedsRegistrarSeen | internal/aidl/codegen/go.go:2400-2453 | the search on shared marks gives the recursive answer and leaves the marks as it found them |
| Registrar.FieldsNeedRegistrarSeen | internal/aidl/codegen/go.go:2455-2462 | the loop asks the fields in turn and leaves the marks as it found them |
| Registrar.NeedsIff | internal/aidl/codegen/go.go:2396-2462 | a type needs a registrar if and only if an interface or a foreign type is reachable without crossing a custom one |
| Registrar.PathFound | internal/aidl/codegen/go.go:2400-2453 | every path that avoids the marks is found although no declaration is entered twice |
| Registrar.NamesAgree | internal/aidl/codegen/go.go:2060-2113 | a use names the writer with a registrar exactly when its definition emits one |
| FixedSize.IsFixedSizeType | internal/aidl/resolve/resolve.go:385-445 | the search with marks that only grow computes the recursive answer and marks |
| FixedSize.IsFixedIff | internal/aidl/resolve/resolve.go:385-473 | yes if and only if nothing reachable through fields has an open size, on cyclic declarations too, when no two reachable declarations share a mark |
| FixedSize.NoMeansWay | internal/aidl/resolve/resolve.go:385-445 | a no always comes with a way to the type that spoils it |
| FixedSize.YesSettles | internal/aidl/resolve/resolve.go:385-445 | a yes leaves every newly marked declaration with all its fields settled |
| FixedSize.ClashMisleads | internal/aidl/resolve/resolve.go:462-483 | when two declarations share a key the search can miss a bad field |
| FixedSize.ClashExists | internal/aidl/resolve/resolve.go:38-70 | a file whose nested and top-level names share a key, so that a field that holds a string passes for one of fixed size |
| RefTracker.Tracker.RetainBinder | internal/runtime/refs.go:45-56 | one more binder reference, the deferred release withdrawn, handle 0 ignored |
| RefTracker.Tracker.RetainWatch | internal/runtime/refs.go:58-69 | one more watch reference, the deferred release withdrawn, handle 0 ignored |
| RefTracker.Tracker.BeginAcquire | internal/runtime/refs.go:71-90 | exactly one thread becomes the acquirer and makes the channel the others wait on |
| RefTracker.Tracker.FinishAcquire | internal/runtime/refs.go:92-123 | the channel is taken out and closed, and a deferred release is due only after a success |
| RefTracker.Tracker.MarkAcquired | internal/runtime/refs.go:125-145 | the handle counts as acquired and its waiters are woken |
| RefTracker.Tracker.Release | internal/runtime/refs.go:155-187 | the last reference releases at once, or defers while an acquire is under way |
| RefProtocol.ConservedStep | internal/runtime/refs.go:71-187 | every step, marks without a received reference included, keeps the kernel's references equal to those accounted for |
| RefProtocol.LossStep | internal/runtime/refs.go:71-187 | every step keeps the losses within received handles and driver faults |
| RefProtocol.KernelShortIff | conn.go:99-226 | in every run the kernel holds fewer references than the entry, the promised releases, the unfinished acquires and the unmarked deliveries claim if and only if the marks made without a reference on an entry without one outnumber the references lost and the releases refused |
| RefProtocol.KernelNeverShort | conn.go:99-226 | without such marks no claim and no release lacks its reference |
| RefProtocol.UnbackedReleaseRefused | local_binder.go:55-75 | a run in which a handle passed within the process makes the tracker release a reference the kernel does not have |
| RefProtocol.ExactWithoutMarks | conn.go:99-187 | without received handles the account is exact and at most one acquire is under way |
| RefProtocol.EveryWaiterWoken | internal/runtime/refs.go:71-145 | every wait channel is closed exactly once, and its entry stays while it is live |
| RefProtocol.CleanWhenQuiet | internal/runtime/refs.go:45-187 | with matched references, marks that are followed by a retain and no acquire without a reference, nothing remains in the tracker once all is quiet, and the kernel keeps the references never read and those nobody will release, less those claimed without one |
| RefProtocol.UnheldAcquireLeaks | conn.go:99-131 | a run in which an acquire without a reference leaves an entry behind |
| RefProtocol.LeftBehindIff | internal/runtime/refs.go:92-123 | with matched references but acquires, deliveries and marks at any time, read or not, exactly when an entry remains once all is quiet, and how many references the kernel holds then |
| RefProtocol.GlobalInv | internal/runtime/refs.go:45-196 | with many handles each of them satisfies the invariant |
| DeathRegistry.Registry.Attach | internal/kernel/death_registry.go:78-104 | joins the watch of a handle, or makes one with a new cookie, or fails when closed |
| DeathRegistry.Registry.Rollback | internal/kernel/death_registry.go:106-119 | the watch is no longer found, unless another one took its place |
| DeathRegistry.Registry.RemoveSub | internal/kernel/death_registry.go:139-189 | the last subscription waits for the kernel, others end at once, and a failed clear ends it |
| DeathRegistry.Registry.NotifyDead | internal/kernel/death_registry.go:191-218 | every subscription of the watch ends as dead, once |
| DeathRegistry.Registry.FinishClearing | internal/kernel/death_registry.go:295-318 | the waiting subscriptions of the watch end without an error |
| DeathRegistry.Registry.Close | internal/kernel/death_registry.go:224-248 | everything found by handle ends without an error, and nothing is found any more |
| DeathProtocol.InvStep | internal/kernel/death_registry.go:78-318 | every step keeps the shape of the registry and the place of every subscription |
| DeathProtocol.Partition | internal/kernel/death_registry.go:78-318 | while no request fails, acknowledgements are asked for and the registry is open, a subscription that nobody finishes is in exactly one of the two places |
| DeathProtocol.StrandedIff | internal/kernel/death_registry.go:106-248 | in every run, one that nobody finishes is in neither place if and only if its watch was torn or it waited when the registry closed |
| DeathProtocol.StrandedUntilClosed | internal/kernel/death_registry.go:139-248 | however the run goes on, such a subscription is finished if and only if its owner closes it |
| DeathProtocol.FailedRequestStrands | internal/kernel/death_registry.go:78-119 | a run in which a failed request strands a subscription that joined |
| DeathProtocol.CloseStrands | internal/kernel/death_registry.go:224-248 | a run in which closing the registry strands one that waits |
| DeathProtocol.HandlesWithinCookies | internal/kernel/death_registry.go:78-104 | what is found by handle is found by cookie and subscribed to, and cookies never repeat |
| DeathProtocol.DeadWasReported | internal/kernel/death_registry.go:191-218 | a subscription ends as dead only if its cookie was reported |
| DeathProtocol.ReportedEndsDead | internal/kernel/death_registry.go:191-293 | a report tells a thread to end every open subscription of the watch as dead, and one to end it without an error if and only if its owner closes it afterwards |
| DeathProtocol.ReportedYetClosed | internal/kernel/death_registry.go:139-160 | a run in which a reported subscription ends without an error |
| RpcPending.Table.Register | rpc_conn.go:358-373 | a new id, and for a two-way call a channel of its own |
| RpcPending.Table.HandleReply | rpc_conn.go:444-452 | the frame goes to the channel of its id, which is then closed, or nowhere |
| RpcPending.Table.ClearPending | rpc_conn.go:523-534 | the channel of the id is closed and forgotten, id 0 is ignored |
| RpcPending.Table.Shutdown | rpc_conn.go:552-558 | every pending channel is closed exactly once |
| RpcPending.ChannelsAreSafe | rpc_conn.go:343-404 | in every run no channel is closed twice, sent to after it was closed, or blocks the reader |
| RpcPending.ReturnsItsReply | rpc_conn.go:384-396 | a call that returns a parcel returns the peer's reply to that very request |
| RpcPending.NobodyWaits | rpc_conn.go:536-560 | after a shutdown no call registered before is ever pending again, and its channel is closed once the threads that took it are done |
| RpcPending.CancelRemovesIff | rpc_conn.go:397-403 | in every run, with any steps of other threads between reading the id and clearing it: a cancelled call removes nothing if its frame was free, the entry of the later call that had the frame, and its own if and only if the frame answered a request of the peer with the same number |
| RpcPending.FailedWriteRemoves | rpc_conn.go:375-379 | a call whose write fails removes its own entry and no other |
| RpcPending.OwnEntryStays | rpc_conn.go:397-521 | a run in which the entry of a cancelled call stays |
| RpcPending.OtherEntryTaken | rpc_conn.go:397-521 | a run in which cancelling one call removes the entry of another |
| RpcHandles.Session.RegisterLocalHandler | rpc_conn.go:241-258 | the next handle of this side's parity, 32-bit wrap-around included |
| RpcHandles.Session.PrepareParcel | rpc_conn.go:406-433 | accepts exactly parcels whose every object this session knows |
| RpcHandles.Session.ResolveObject | rpc_conn.go:296-317 | an own handle becomes the local handler, any other is imported |
| RpcHandles.HandlesKnown | rpc_conn.go:159-176 | in every run handles keep their parity, imports are exports of the other side, and each handle under way has exactly one exporter |
| RpcHandles.ReusedIff | rpc_conn.go:241-258 | in every run, however long, the next handle is one in use if and only if the side has made at least 2^31 - 1 registrations as a server or 2^31 as a client |
| RpcHandles.ThereAndBack | rpc_conn.go:241-317 | an object sent out is remote on the other side and, sent back, resolves to the original handler |
| ServiceRegistry.Registry.Add | rpc_service_manager.go:85-118 | registers, wakes every waiter of the name and calls every watcher of it once |
| ServiceRegistry.Registry.Enqueue | rpc_service_manager.go:128-135 | gives the service, or a place at the end of the queue |
| ServiceRegistry.Registry.RemoveWaiter | rpc_service_manager.go:150-169 | takes exactly this waiter out |
| ServiceRegistry.Registry.WatchRegistrations | rpc_service_manager.go:200-226 | a new watcher, called at once if the service is there |
| ServiceRegistry.Registry.TryUnregister | rpc_service_manager.go:355-379 | succeeds exactly for the registered binder without clients |
| ServiceProtocol.QueuedNotRegistered | rpc_service_manager.go:85-148 | in every run a name with queued waiters is not registered and no waiter is closed twice |
| ServiceProtocol.AddWakesAll | rpc_service_manager.go:102-117 | a registration takes out all waiters, and none that stayed is forgotten |
| ServiceProtocol.NoLostRegistration | service_manager_support.go:102-149 | a client in its select, with the name registered, has the binder in its slot or a callback on its way |
| ServiceProtocol.WaitReturnsRegistered | service_manager_support.go:102-149 | what a wait returns was registered under the name |
| Looper.Worker.HandleCommands | internal/kernel/looper_worker.go:104-172 | does exactly what the complete commands ask for, in order, and fails exactly on a bad tail or a oneway transaction that cannot be taken over |
| Looper.Worker.HandleTransaction | internal/kernel/looper_worker.go:174-219 | dispatch, at most one reply, and the buffer freed last in every case |
| Looper.Decomposes | internal/kernel/looper_worker.go:104-172 | every buffer is its complete supported commands and a tail that holds none |
| Looper.DecomposesOnce | internal/kernel/looper_worker.go:104-172 | and in only one way |
| Looper.Accounted | internal/kernel/looper_worker.go:119-219 | one matching acknowledgement per reference command, one reply per synchronous transaction, none per oneway, one free per buffer |
| Looper.ExecutedPrefix | internal/kernel/looper_worker.go:104-172 | what is carried out are all commands, or those up to the transaction that ends the walk |

## Left out

- Integers: Go's `int` is unbounded here, so the overflow checks of sizes near 2^63 do not occur; 8, 16, 32 and 64 bit values and casts of lengths to int32 are explicit.
- Request ids, death cookies, watch ids: 64-bit counters do not wrap around.
- Time: contexts, deadlines and timeouts appear as steps that may happen at any moment, and error values only as far as control flow depends on them.
- Aliasing: watches, subscriptions, channels and waiters are known by numbers instead of pointers.
- `ensureHandleAcquired` and `waitForServiceWithNotifications` as single procedures: their steps are interleaved with those of other threads, so they appear as steps of RefProtocol and ServiceProtocol.
- Strings in the 8-bit format, weak binders, parcel file descriptors and the ownership of descriptors.
- Objects: binder resolvers are taken to be configured; what they return for a handle is the handle itself.
- DynamicValues: reflection on pointers and user types; map keys that are floats, which Go does not compare by their bits, or binders, which it compares by identity.
- DynamicIO.ReadDynamicValue: a map key that is a float, a binder or not a scalar counts as a failure, because keys here are compared by value.
- DynamicIO.ReadEntries: the same restriction on keys.
- AidlTypes.Val: the inactive fields of a union's Go struct, which are neither written nor read.
- AidlCodec: descriptors and custom parcelables; an interface travels as the binder its registrar returns, and only that binder is modelled; encodings are shorter than 2^31 bytes.
- AidlIO.Write: raw maps with a list or map inside whose body takes 2^31 bytes or more; the code casts its length unchecked.
- AidlIO: the readers run as the functions of AidlCodec; only the writers go back and change what they wrote.
- AidlCall: the driver's translation of handles between processes; stability, interface version and hash transactions, and the registrar passed along with interface arguments.
- DeathProtocol.State: requests may fail at any time, which is more than the code allows.
- RpcHandles: unregistration and shutdown, after which handles are no longer known; stability labels.
- RpcPending: encoding of frames; of a frame only its id is kept.
- ServiceRegistry: client callbacks, listing, debug information and the caches of service managers.
- Looper: the contents of replies and failures of driver writes; the similar loop for transaction threads, `parseDriverResponses`.
- Handwritten codecs of the service manager, and `parcelableEnd`.
- The AIDL parser, constant expressions, and the printing of Go source.
- Networking, TLS, the driver itself, commands and demos.
