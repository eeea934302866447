# NPB containers and the mutable shared-memory store, in Dafny

This project models two parts of the repository and proves what they promise.

**The container codec** (`src/npb`). `encode` walks a model tree, lays its arrays out behind a
JSON manifest and a 64-byte header, and writes everything in place into a buffer that may hold
anything; `decode` parses the header and rebuilds the tree with views of the buffer. Arrays above
a threshold may go to an external store, and `VineyardStore` reuses the ids of arrays it has
resolved.

**The shared-memory store** (`examples/zeromq_mutable_shm_chain/mstore`). A daemon hands out
capability tokens for shared objects over length-prefixed frames; a client keeps an LRU cache of
mappings whose lifetime depends on cache ownership and on lease counts.

Check it with `dafny verify dfyconfig.toml`.

| modules | models |
|---|---|
| `Core`, `ByteOrder`, `Format` | bytes, fixed-width integers, the header |
| `Shapes`, `Trees` | what a shape counts; trees by the paths that lead into them |
| `Model`, `Blob`, `Manifest`, `Layout`, `Container` | trees, references, the walk, the layout, the in-place encoder |
| `Restore`, `RoundTrip`, `Exactness`, `Nodes` | the decoder, the reference meaning of a tree, the round trip, and all three node by node |
| `Vineyard`, `Relay`, `Chain`, `Pipelines`, `Witness` | the store with id reuse, one stage, pipelines of stages, models of the library laws |
| `Registry`, `Server`, `Capabilities` | the capability registry, the daemon's dispatch, what holds of every run |
| `Mapping`, `ClientCache`, `Lru` | one mapping, the sequential client, the cache order |
| `Lifetime`, `Leases` | the cache under threads, step by step at the granularity of its locks |
| `Stream`, `Serving`, `Session` | frames over chunked sockets, the daemon's loop, client and daemon byte by byte |
| `ClientRegistry` | caching client, registry and all other clients together |

How the pieces are connected: code that updates state in place is a class or a method with loops,
proved against a specification function (`ManifestTree`, `ContainerBytes`, `BlobRefOf`, `Put`,
`Get`, `Validate`, `Issue`, `Lru.Access`, `ParseFrame`, ...); the theorems are about those
functions and about the runs they generate. Threads, and client and daemon, are step relations
whose steps use the same functions (`Mapping.Acquire`, `Server.Handle`, `Stream.DecodeFrame`).

Library behaviour enters as values with laws, and each law has a concrete model in `Witness`:
`from_json(to_json(m)) == m`, `np.dtype(d.str) == d` for plain dtypes, `int` and `str` on what the
codec writes, fresh object ids, and `loads(dumps(m)) == m` for control messages. NumPy's own
invariant (the payload has exactly the bytes of its shape) and distinct dictionary keys are the
predicate `Proper`.

Places where the code does less than one might expect:

- `SharedObject.close` checks and sets `_released` without a lock (client.py:154-158), so two threads
  that close the same object at once can release twice. `Leases.RaceHarmsExactly` says when that does
  harm, for every state that runs without such a race reach. `Leases.MappingsOutliveLeases` holds of
  all interleavings in which no two threads are between that check and that assignment for one object;
  this is sufficient, not necessary, since a race on a mapping that nobody else can get at harms nobody.
- `Client.close` does not wait for opens whose answer has arrived; such an open puts its mapping into
  the cache of a closed client (`Leases.LateOpenLeaks`). `Leases.FinishedRunReclaimsExactly` says when
  a finished run has let go of everything.
- `encode` accepts trees that do not come back: literal sentinel dictionaries, zero-width dtypes,
  hand-made invalid `BlobRef`s, and top-level values that are no dictionary (of root models).
  `Exactness.RoundTripExactly` says these are all of them, and `Exactness.SentinelIsLost` shows one.
- `issue_token` lets a lifetime of NaN through: `nan <= 0` is false, `min` keeps NaN, and no clock
  reading reaches it (registry.py:127-155), so a token that soon expires can derive one that never
  does. `Server.GrantAttenuatesExactly` gives the exact condition,
  `Capabilities.EndlessTokenOutlivesItsIssuer` a run. (An int beyond the floats raises OverflowError
  there, which reaches the client as an internal error.)
- `VineyardStore` confuses references whose views agree in address, size, dtype and shape.
  `Chain.StageForwardsExactly` says that besides a threshold that does not fit the message this is the
  only way a stage changes it.

The documentation of `encoded_size` promises the exact number of bytes that `encode` will produce.
With a store the call performs the puts itself (_codec.py:60-62), so `Layout.SizeForetellsEncode`
compares it with an analysis that starts from the same store; only without externalisation does it
foretell what a later `encode` writes.

## Model

| member | source | states |
|---|---|---|
| `Format.AlignUp` | src/npb/_format.py:55-57 | the result is a multiple of the alignment, not below the value and less than one alignment above it |
| `Format.AlignUpIsLeast` | src/npb/_format.py:55-57 | no smaller multiple reaches the value |
| `Format.HeaderByteByByte` | src/npb/_format.py:30 | the 64 bytes of a header one by one: `NPB1`, version 1, no flags, frame size 65536, the schema id, every number with its least significant byte first, four zeros |
| `Format.ParseUndoesPack` | src/npb/_format.py:72-125 | the header that `encode` packs is accepted with its fields, on the exact buffer and on every longer one |
| `Format.PackedIsJudged` | src/npb/_format.py:94-114 | for any fields whatever, the outcome of parsing their packed form: the first fault that applies, in the order of the source, or the fields |
| `Format.ForeignHeaders` | src/npb/_format.py:76-99 | too small, a wrong magic and nonzero flags are reported exactly on the buffers that show them |
| `Format.PackUndoesParse` | src/npb/_format.py:72-125 | repacking any accepted header reproduces its first 60 bytes |
| `Format.AcceptsExactlyPackedHeaders` | src/npb/_format.py:76-125 | `parse_header` returns a header if and only if it is coherent, fits the buffer, and the buffer starts with its 60 packed bytes |
| `Format.HeaderIgnoresSuffix` | src/npb/_format.py:100-114 | the header check depends on nothing behind the stated container length |
| `ByteOrder.ReadsWrittenLE` | src/npb/_format.py:30 | a value that fits into w little-endian bytes reads back |
| `ByteOrder.WritesReadLE` | src/npb/_format.py:30 | any w bytes are the little-endian form of what they read as |
| `ByteOrder.ReadsWrittenBE` | examples/zeromq_mutable_shm_chain/mstore/protocol.py:14 | the same for the big-endian length of a control frame |
| `ByteOrder.WritesReadBE` | examples/zeromq_mutable_shm_chain/mstore/protocol.py:14 | and its converse |
| `ByteOrder.DigitsLE` | src/npb/_format.py:30 | byte i of a little-endian field is the digit of 256 to the power i |
| `ByteOrder.DigitsBE` | examples/zeromq_mutable_shm_chain/mstore/protocol.py:14 | byte i of a big-endian field of w bytes is the digit of 256 to the power w - 1 - i |
| `Model.LookupExactly` | src/npb/_blob.py:38-43 | a lookup yields a value exactly if the dictionary has that entry, and nothing exactly if it lacks the key |
| `Shapes.ProductCountsElements` | src/npb/_codec.py:363-367 | the product that the size check multiplies up is the number of index tuples within the shape |
| `Shapes.ProductSplits` | src/npb/_codec.py:363-365 | and it may be taken in any grouping |
| `Blob.ShapeExactly` | src/npb/_blob.py:43 | which values `tuple(int(dim) for dim in shape)` accepts, strings and dictionaries included, and what it makes of them |
| `Blob.ReadsExactly` | src/npb/_blob.py:33-75 | `from_manifest` returns a reference if and only if the six fields spell it out and it has names, no negative number, a plain dtype and the bytes of its shape; only an overflowing `int()` is not turned into the one refusal |
| `Blob.FromManifest` | src/npb/_blob.py:33-75 | the parse with its size loop computes the specification `BlobRefOf`, in the source's order of evaluation, the uncaught OverflowError of `int()` included |
| `Blob.RefRoundTrip` | src/npb/_blob.py:22-75 | a written reference reads back as itself if it is valid and is refused if it is not, so validity is the exact condition |
| `Manifest.Builder.constructor` | src/npb/_codec.py:157-158 | a walk starts with cursor 0 and no arrays |
| `Manifest.Builder.Run` | src/npb/_codec.py:51-105 | the walk over mutable cursor, array list and store computes the specification `ManifestTree`: manifest, new state and first error |
| `Manifest.Builder.RunItems` | src/npb/_codec.py:93-103 | lists and tuples are walked left to right through the one cursor |
| `Manifest.Builder.RunEntries` | src/npb/_codec.py:81-91 | dictionaries are walked in order and keep their keys |
| `Manifest.ItemsStopAtError` | src/npb/_codec.py:93-103 | an exception ends the walk: nothing after it is visited or stored |
| `Manifest.EntriesStopAtError` | src/npb/_codec.py:81-91 | the same inside a dictionary |
| `Manifest.WalkPacks` | src/npb/_codec.py:64-76 | every walk keeps the array list packed (aligned, in order, gaps under 64 bytes, ending at the cursor) and only appends to it |
| `Manifest.PackedExtents` | src/npb/_codec.py:64-66 | what packing means from outside: alignment, order, disjointness, gaps, exact end |
| `Manifest.ManifestByExample` | src/npb/_codec.py:68-79 | the wire form of an array and of a reference, spelled out |
| `Nodes.AnalysisFailsExactly` | src/npb/_codec.py:142-173 | what stops an encode, exactly: a negative threshold, a threshold without a store (both before the store is touched), or an array with an object or structured dtype at some path of the tree |
| `Layout.RefsMatchArrays` | src/npb/_codec.py:64-103 | unless the tree holds sentinel dictionaries, the array references in the manifest and the array list correspond one to one, in order, with equal offset, size, dtype and shape |
| `Layout.LayoutOfAnyTree` | src/npb/_codec.py:157-190 | for every document that encodes: arrays absolutely 64-byte aligned, ordered, disjoint, less than 64 bytes apart, ending exactly at data_bytes; and without sentinel dictionaries, references and arrays one to one |
| `Layout.SizeForetellsEncode` | src/npb/_codec.py:193-221 | for every policy `encoded_size` fails exactly when `encode`'s analysis fails, with the same effect on the store, and is the length of that container; without externalisation it has no effect at all |
| `Container.PlansAreLaid` | src/npb/_codec.py:175-190 | every plan of `_analyze_model` is packed and starts its data on a frame boundary |
| `Container.PayloadHolds` | src/npb/_codec.py:293-305 | in the data section each array stands at its offset behind a gap of zeros |
| `Container.WriteArrays` | src/npb/_codec.py:291-305 | whatever the buffer held, the copy loop leaves exactly the data section, ends with previous_end at its length, and touches nothing else |
| `Container.PrepareOutput` | src/npb/_codec.py:114-137 | too small is reported exactly when the buffer is shorter than the container, and then nothing was written; otherwise the first data_start bytes are zero and the rest is as before |
| `Container.WriteContainer` | src/npb/_codec.py:271-312 | over any old contents the first total_size bytes become one sequence fixed by header, metadata and arrays; later bytes are unchanged |
| `Container.ContainerInFiveParts` | src/npb/_codec.py:271-312 | that sequence is header, metadata, zeros, payload, zeros, of length total_size |
| `Container.ContainerPartByPart` | src/npb/_codec.py:271-312 | the same parts by their positions, byte for byte |
| `Container.SumSplits` | src/npb/_codec.py:64-66 | the sum in the size bounds is the sum of the array sizes |
| `Container.Encode` | src/npb/_codec.py:224-312 | end to end: error of the analysis, too small (buffer untouched), field overflow, or a buffer that starts with the container of the plan, with bytes beyond it unchanged and the store as the walk left it |
| `Container.PackedIsTight` | src/npb/_codec.py:64-66 | a packed list is at least the sum of the array sizes and at most 63 bytes per neighbouring pair longer |
| `Container.SizeIsTight` | src/npb/_codec.py:175-181 | total_size is the least frame multiple that holds everything, the max with FRAME_SIZE is redundant, and it is at most 64 + metadata + arrays + 63 per neighbouring pair + 2 * 65535 |
| `Container.PlansAreCoherent` | src/npb/_codec.py:175-190 | the header of every plan passes the geometry checks of `parse_header` |
| `Restore.Containment` | src/npb/_codec.py:325-384 | for every buffer whatever, with any store or none: a successful decode is a dictionary without tuples, and each of its arrays is a view in the data section, at its address, behind header and metadata and inside the container, or the store's answer to a get; the check against the buffer size never fires (the fault can only be the store's own) |
| `Restore.ContainmentWithoutStore` | src/npb/_codec.py:342-384 | without a store: every array is such a view, and the check never fires |
| `Restore.RestoresExactly` | src/npb/_codec.py:345-384 | for every array reference whatever: it becomes an array if and only if that array is plain, fits its shape, has the size, dtype and shape that the fields spell out, and lies at their offset in the data section |
| `Restore.OverflowPasses` | src/npb/_codec.py:346-352 | an `int()` that overflows is not turned into a format error |
| `Restore.BadBuffersAreRefused` | src/npb/_codec.py:412-429 | a bad header and metadata that are no JSON are refused for that reason, with the store untouched |
| `Restore.SchemaMismatchExactly` | src/npb/_codec.py:486-496 | for every buffer: typed decode refuses a class with another id or version, before the store is asked anything, and nobody else |
| `Vineyard.ContainmentWithVineyard` | src/npb/_codec.py:325-384 | with a VineyardStore: every array is such a view or a view of a stored object, and the check never fires |
| `Restore.SuffixIndependence` | src/npb/_codec.py:412-460 | for every accepted buffer the outcome of a decode depends on the first encoded_bytes bytes only |
| `Restore.StoreNeverMissing` | src/npb/_codec.py:463-505 | with a store, typed decode agrees with the generic one: the complaint about unresolved references is never made |
| `Restore.RestoreReadsDataOnly` | src/npb/_codec.py:315-409 | restoring a manifest reads nothing behind the data section |
| `RoundTrip.SentinelsAreSeen` | src/npb/_codec.py:325-345 | the decoder takes a manifest dictionary for a reference exactly if the user's dictionary was a literal sentinel |
| `RoundTrip.InlineReadsBack` | src/npb/_codec.py:345-384 | an inline reference turns into a view with the array's contents, and is refused exactly for zero-width dtypes |
| `RoundTrip.ManifestIsWellFormed` | src/npb/_codec.py:42-105 | the manifest of every proper tree is JSON with distinct keys, so the JSON law applies to it |
| `RoundTrip.RestoreIsIdeal` | src/npb/_codec.py:315-409 | restoring the manifest of a tree gives the tree's reference meaning, defined without any layout |
| `RoundTrip.CarriedIsReadable` | src/npb/_codec.py:412-439 | a buffer that starts with a container yields its header, its metadata slice and its arrays in place |
| `RoundTrip.DecodeMeetsIdeal` | src/npb/_codec.py:224-460 | encode then decode gives the reference meaning of the tree, for every policy, every lawful store and every longer buffer, errors of references included |
| `Exactness.RoundTripExactly` | src/npb/_codec.py:224-460 | for everything that encodes inline, the decoded tree is the normal form of the original if and only if the tree is a dictionary without sentinel dictionaries, zero-width dtypes and invalid references; any other such tree is refused for not being an object |
| `Nodes.AdmissibleExactly` | src/npb/_codec.py:315-409 | that condition, node by node over the paths of the tree |
| `Nodes.NormalFormNodewise` | src/npb/_codec.py:93-103 | the normal form has the same nodes at the same paths: scalars, references, keys, and the dtype, shape and bytes of arrays; lists and tuples are lists, addresses are gone |
| `Nodes.MeaningNodewise` | src/npb/_codec.py:325-384 | the reference meaning, node by node: the normal form with each reference replaced by the array it denotes, if there is a store |
| `Nodes.MeaningExistsExactly` | src/npb/_codec.py:325-340 | a tree has a meaning if and only if each reference at any path is valid and, with a store, names its kind and denotes an array |
| `Nodes.OnlyItsOwnClass` | src/npb/_codec.py:484-496 | a container of a document is refused as SchemaMismatch by every class with another id or version, the store untouched, and by the class itself only if the store says so |
| `Nodes.StoreRequiredExactly` | src/npb/_codec.py:462-505 | typed decode of an encoded document without a store, for every policy of the encoder: an invalid reference at some path is refused; else a store is asked for exactly if some path leads to a reference or to an array at or above the threshold; else it succeeds |
| `Exactness.SentinelIsLost` | src/npb/_codec.py:325-329 | a concrete tree that encodes and does not come back: a nested `{"$blob": null}`, refused from every buffer that carries its encoding |
| `Exactness.ExternalizingPreservesMeaning` | src/npb/_codec.py:51-79 | for every threshold, encoding with a lawful store and decoding with it, now or later, gives the same outcome as encoding everything inline |
| `Vineyard.VineyardStore.PutArray` | src/npb/_vineyard.py:129-153 | reuse of a resolved id or one client put, as the specification `Put` says; unsupported dtypes change nothing |
| `Vineyard.VineyardStore.GetArray` | src/npb/_vineyard.py:155-204 | the error branches in order, else the view, registered under its key, as the specification `Get` says |
| `Vineyard.PutObeysLaw` | src/npb/_vineyard.py:125-153 | after a put of a faithful array its reference denotes its contents, earlier objects are served as before, and the index still agrees with the store |
| `Vineyard.GetObeysLaw` | src/npb/_vineyard.py:155-204 | a get changes no object and keeps the index in agreement |
| `Vineyard.VineyardIsLawful` | src/npb/_vineyard.py:102-204 | the store meets the law that the codec theorems ask of a store |
| `Vineyard.PutIsFaithfulExactly` | src/npb/_vineyard.py:129-153 | a put is answered by a reference to the array's own contents if and only if it is not 0-d on a miss, and has the registered view's contents on a hit |
| `Vineyard.MissStoresContents` | src/npb/_vineyard.py:145-153 | a put that stores is answered by a reference, from offset 0, to a new object with dtype, shape and bytes of the array; a 0-d array gains a dimension |
| `Vineyard.ServesExactly` | src/npb/_vineyard.py:157-199 | a reference denotes the bytes of its object from its offset on, with its dtype and shape and at the address of these bytes, if and only if it is in bounds and valid; the other faults by their first cause |
| `Vineyard.IdSurvivesExactly` | src/npb/_vineyard.py:102-127 | after two resolves, the first view is put back under its own reference if and only if the references are equal or the views differ in address, size, dtype or shape |
| `Relay.DecodeRegisters` | src/npb/_vineyard.py:122-123 | after a decode every reference of the message has its key registered |
| `Relay.Reencodes` | src/npb/_codec.py:60-62 | walking the decoded tree with the same store reproduces the layout and the manifest, with its references renamed by the index, and puts nothing |
| `Relay.RelabelsNothing` | src/npb/_vineyard.py:125-127 | renaming leaves a manifest as it is if and only if it leaves each of its references |
| `Relay.RenamesNoneIfApart` | src/npb/_vineyard.py:102-109 | an index that knows all references of a message renames none of them if and only if no two of them share a key |
| `Relay.WholeObjectsKeepApart` | src/npb/_vineyard.py:102-120 | references as `put_array` makes them, to objects with memory of their own, never collide in the index |
| `Relay.KeysApartExactly` | src/npb/_vineyard.py:102-109 | keys are apart if and only if references whose views agree in address, size, dtype and shape are the same |
| `Chain.StageReads` | src/npb/_codec.py:315-340 | a stage reads the original contents |
| `Relay.OnlySuitingReproduces` | src/npb/_codec.py:54-62 | if a stage writes the message's manifest again, its threshold externalises what the message refers to and leaves its arrays inline |
| `Chain.StageForwardsExactly` | src/npb/_codec.py:224-312 | a stage with any threshold or none reads the contents that went in, and forwards the message byte for byte if and only if its threshold externalises exactly what the message refers to and no two references resolve to views with one key; with such a threshold it puts nothing |
| `Chain.ThroughBoth` | src/npb/_vineyard.py:62-68 | stages behind others start on the message, the objects and the put count that those left |
| `Chain.PutsOncePerArray` | src/npb/_codec.py:60-62 | an encode puts each array at or above the threshold once, unless the store resolved it before, and nothing else |
| `Trees.CountExactly` | src/npb/_codec.py:51-62 | the number of such arrays is the number of paths that lead to them |
| `Chain.ChainIsStable` | src/npb/_vineyard.py:62-68 | for any number of stages, each with its own index and threshold: the message (so every object id) never changes, every stage reads the original contents, and the daemon has served exactly one put per new array of the document in total |
| `Witness.ConcreteIsLawful` | src/npb/_codec.py:176 | the laws asked of the JSON, int, str and dtype calls can be met |
| `Pipelines.TreeDeparts` | src/npb/_codec.py:51-105 | every tree of plain arrays encodes, and all references written for it lead to whole, nonempty objects with memory of their own |
| `Pipelines.DepartingMessagesTravel` | src/npb/_vineyard.py:62-68 | for such a tree the conditions of chain stability hold, from what a caller can check before the first encode |
| `Pipelines.PipelineIsStable` | src/npb/_vineyard.py:62-68 | so a pipeline of stages with empty indexes, whose thresholds send the same arrays to the store, forwards the message byte for byte, every stage reads exactly the tree that went in, in normal form, and each array at or above the threshold is put exactly once in total |
| `Witness.DaemonsExist` | src/npb/_vineyard.py:151 | so can fresh object ids and separate memory for every object |
| `Witness.MessagesAreLawful` | examples/zeromq_mutable_shm_chain/mstore/protocol.py:17-39 | so can the law of the control messages |
| `Registry.NormalizeCloses` | examples/zeromq_mutable_shm_chain/mstore/registry.py:29-46 | for names and collections alike: accepted exactly if every name is one of the five ("admin" alone stands for all), and then what was asked for, read with write, and info with anything: the least closed set that contains the request |
| `Registry.RequiredNames` | examples/zeromq_mutable_shm_chain/mstore/registry.py:112-116 | a single required name asks for itself alone, a collection for its closure |
| `Registry.LifetimeIsChecked` | examples/zeromq_mutable_shm_chain/mstore/registry.py:150-153 | a lifetime is accepted exactly if it is a positive, infinite or NaN number; the rest is InvalidRequest or an uncaught exception |
| `Registry.Registry.constructor` | examples/zeromq_mutable_shm_chain/mstore/registry.py:54-57 | a registry starts empty |
| `Registry.Registry.CreateObject` | examples/zeromq_mutable_shm_chain/mstore/registry.py:59-86 | the object and its owner token, or a refusal that changes nothing |
| `Registry.Registry.ValidateToken` | examples/zeromq_mutable_shm_chain/mstore/registry.py:104-134 | the checks in their order, computing the specification `Validate` |
| `Registry.Registry.IssueToken` | examples/zeromq_mutable_shm_chain/mstore/registry.py:136-158 | delegation with Python's `min` of its own and the issuer's expiry, from a second clock reading, for every float that may be asked for (NaN and infinities included), or a refusal that changes nothing: InvalidRequest for what is not positive, an internal error for ints beyond the floats and for non-numbers |
| `Registry.Registry.RevokeToken` | examples/zeromq_mutable_shm_chain/mstore/registry.py:160-168 | the target is marked revoked, nothing else changes |
| `Registry.Registry.DeleteObject` | examples/zeromq_mutable_shm_chain/mstore/registry.py:170-177 | the object goes, and the loop removes exactly its tokens |
| `Server.StepKeepsInv` | examples/zeromq_mutable_shm_chain/mstore/server.py:267-335 | every request keeps: tokens name live objects, carry their generation, have closed permissions and none that their issuer lacks |
| `Server.RunKeepsInv` | examples/zeromq_mutable_shm_chain/mstore/server.py:267-335 | so does every run |
| `Server.GrantAttenuatesExactly` | examples/zeromq_mutable_shm_chain/mstore/registry.py:149-157 | a granted token never has a permission that its issuer lacks; it outlives its issuer if and only if it was asked for with a lifetime of NaN from a token whose time ends |
| `Server.StepKeepsTimely` | examples/zeromq_mutable_shm_chain/mstore/registry.py:149-157 | while no token outlives its issuer, a request leaves it so if and only if it is not such a grant |
| `Server.RunKeepsTimely` | examples/zeromq_mutable_shm_chain/mstore/registry.py:149-157 | so no token ever outlives its issuer in runs in which no grant asks for NaN |
| `Capabilities.AttenuationAlongDerivation` | examples/zeromq_mutable_shm_chain/mstore/registry.py:136-158 | along a whole derivation every ancestor is on record and has all the token's permissions; and if no token outlives its own issuer, the token outlives no ancestor |
| `Capabilities.AttenuationEverywhere` | examples/zeromq_mutable_shm_chain/mstore/registry.py:88-158 | in every reachable state: integrity of every token, and permissions within those of every ancestor; and if no grant of the run asked for NaN, an expiry no later than any ancestor's finite one |
| `Capabilities.EndlessTokenOutlivesItsIssuer` | examples/zeromq_mutable_shm_chain/mstore/registry.py:151-155 | that condition is needed: a run of three requests after which a token that was granted NaN seconds is accepted for ever, also when its issuer has expired |
| `Capabilities.AcceptsExactly` | examples/zeromq_mutable_shm_chain/mstore/registry.py:104-134 | in a reachable state `validate` amounts to four checks on the token; the stale-generation branch is unreachable |
| `Capabilities.RefusalsHaveReasons` | examples/zeromq_mutable_shm_chain/mstore/registry.py:110-134 | each reason of `validate`, if and only if: unnamed or foreign token, unknown permission, missing object, revoked, expired, lacking a permission, in this order |
| `Capabilities.StepAcceptance` | examples/zeromq_mutable_shm_chain/mstore/registry.py:160-177 | one request changes the standing of an issued token exactly if it revokes that token or deletes its object |
| `Capabilities.RunAcceptance` | examples/zeromq_mutable_shm_chain/mstore/registry.py:104-177 | over any run a token is accepted at the end if and only if it would have been at the start (at that time of day) and nothing cancelled it; revoking its issuer does not |
| `Capabilities.RejectionIsPermanent` | examples/zeromq_mutable_shm_chain/mstore/registry.py:104-134 | an issued token that is refused once is refused for good |
| `Capabilities.GrantDelivers` | examples/zeromq_mutable_shm_chain/mstore/registry.py:136-158 | a granted token is accepted for exactly the permissions asked for (closed), until its own expiry and no longer than its issuer's, or for ever if NaN was asked for |
| `Capabilities.InfoTellsStanding` | examples/zeromq_mutable_shm_chain/mstore/server.py:305-313 | what info reports about a token is what the daemon does: it lists exactly the operations for which the token is accepted at that moment, and the expiry until which it will be |
| `Capabilities.RefusedRequests` | examples/zeromq_mutable_shm_chain/mstore/server.py:288-335 | why each request about an object is refused: the reason of `validate`, or its own, in the order of the source |
| `Capabilities.CreateDelivers` | examples/zeromq_mutable_shm_chain/mstore/registry.py:59-86 | creation succeeds exactly for a positive size and records it, and its token is accepted for every permission at any time; the alias `admin` as one required name is the exception that validate refuses to everybody |
| `Capabilities.CancellingCancels` | examples/zeromq_mutable_shm_chain/mstore/registry.py:160-177 | after a revocation the token is refused as revoked, after a deletion because the object is gone |
| `Capabilities.Isolation` | examples/zeromq_mutable_shm_chain/mstore/registry.py:117-134 | no request about one object changes any validation outcome of another, down to the reason |
| `Capabilities.DeleteIsExact` | examples/zeromq_mutable_shm_chain/mstore/registry.py:170-177 | a deletion removes one object and exactly its tokens, with everything derived from them |
| `Capabilities.DeletedStaysDeleted` | examples/zeromq_mutable_shm_chain/mstore/registry.py:170-177 | a deleted object is never back |
| `Capabilities.RecordsStand` | examples/zeromq_mutable_shm_chain/mstore/registry.py:70-86 | while an object lives its record, size included, stays as it was created |
| `ClientCache.MappingState.AcquireLease` | examples/zeromq_mutable_shm_chain/mstore/client.py:25-29 | one more lease, unless the mapping is closed |
| `ClientCache.MappingState.ReleaseLease` | examples/zeromq_mutable_shm_chain/mstore/client.py:31-35 | one lease less, and the close if that frees the mapping |
| `ClientCache.MappingState.SetCachedFlag` | examples/zeromq_mutable_shm_chain/mstore/client.py:37-40 | the flag, and the close if that frees the mapping |
| `ClientCache.MappingState.MaybeCloseLocked` | examples/zeromq_mutable_shm_chain/mstore/client.py:42-50 | closed only if uncached and unleased, and not while a buffer is exported |
| `ClientCache.SharedObject.Close` | examples/zeromq_mutable_shm_chain/mstore/client.py:154-158 | released once, a second close changes nothing |
| `ClientCache.Client.CacheGet` | examples/zeromq_mutable_shm_chain/mstore/client.py:292-305 | a live entry becomes the newest, a closed one is dropped and unflagged, and exactly one counter moves |
| `ClientCache.Client.CachePut` | examples/zeromq_mutable_shm_chain/mstore/client.py:307-319 | the cache becomes the newest `cache_size` keys with this one last; exactly the mappings that left are unflagged, the put mapping is not even if it was cached under this key; evictions are counted |
| `ClientCache.Client.Shrink` | examples/zeromq_mutable_shm_chain/mstore/client.py:316-319 | the eviction loop drops the oldest entries, no more than needed, and unflags exactly those |
| `ClientCache.Client.ClearCache` | examples/zeromq_mutable_shm_chain/mstore/client.py:321-342 | exactly the matching entries go, in number as returned, exactly their mappings are unflagged, and an unknown mode changes nothing |
| `ClientCache.ClearLeavesExactly` | examples/zeromq_mutable_shm_chain/mstore/client.py:332-338 | a clear leaves exactly the keys that differ from one of its filters in object, token or mode, in their order; without filters it leaves none |
| `ClientCache.Client.Open` | examples/zeromq_mutable_shm_chain/mstore/client.py:401-429 | who gets a lease, on which mapping, and what becomes of every other mapping; the keys follow `Lru.Access` |
| `Lru.RecencyIsByLastAccess` | examples/zeromq_mutable_shm_chain/mstore/client.py:303 | `Recency` is the independent notion: the distinct keys in the order of their last accesses |
| `Lru.CacheIsMostRecentFrom` | examples/zeromq_mutable_shm_chain/mstore/client.py:292-319 | between clears: from any start within the capacity (such as what a filtered clear leaves), after any run of cached opens the cache is exactly the last `cache_size` distinct keys among the starting ones and those opened successfully, in last-access order |
| `Lru.CacheIsMostRecent` | examples/zeromq_mutable_shm_chain/mstore/client.py:292-319 | from the empty cache: the last `cache_size` distinct successfully opened keys |
| `Lru.LastNIsTheEnd` | examples/zeromq_mutable_shm_chain/mstore/client.py:316-319 | the newest n keys are the last n of the order |
| `Lru.LargerCacheHitsToo` | examples/zeromq_mutable_shm_chain/mstore/client.py:316-319 | when all opens succeed, from the same start, a hit at one capacity is a hit at every larger one |
| `Lifetime.StaleNeverHappens` | examples/zeromq_mutable_shm_chain/mstore/client.py:298-302 | the cache never holds a closed mapping while its lock is free, so the closed branch of `_cache_get` is dead |
| `Lifetime.StepKeepsInv` | examples/zeromq_mutable_shm_chain/mstore/client.py:15-71 | every step of every thread, before and after `Client.close`, keeps leases counted, flags in line with the cache, and closed mappings final |
| `Leases.MappingsOutliveLeases` | examples/zeromq_mutable_shm_chain/mstore/client.py:154-170 | under all interleavings without a race inside one object's close: the lease count is the number of acquired, unreleased objects, leased and cached mappings are open, a failed acquire sits on a closed mapping |
| `Leases.ClosesOnlyWhenFree` | examples/zeromq_mutable_shm_chain/mstore/client.py:42-50 | in every step whatever, a mapping is closed only when uncached, unleased and unexported, and never reopened |
| `Leases.ClosesExactly` | examples/zeromq_mutable_shm_chain/mstore/client.py:31-50 | a release or an unflagging closes the mapping if and only if it leaves it unleased and uncached while no buffer is exported |
| `Leases.OthersLeaveOpen` | examples/zeromq_mutable_shm_chain/mstore/client.py:15-50 | no other step closes a mapping, changes its flag or takes a lease, except acquire |
| `Leases.CacheOrderIsLru` | examples/zeromq_mutable_shm_chain/mstore/client.py:292-342 | the threads' critical sections order the cache as the sequential client does |
| `Leases.FailedCloseIsHarmless` | examples/zeromq_mutable_shm_chain/mstore/client.py:154-170 | close of an object whose acquire failed steals no lease |
| `Leases.WaitingExactly` | examples/zeromq_mutable_shm_chain/mstore/client.py:401-429 | an open is under way from its answer until its mapping is attached or given up, and only `Client.close` shuts the client |
| `Leases.FinishedRunReclaimsExactly` | examples/zeromq_mutable_shm_chain/mstore/client.py:478-484 | when no open is under way, every object is released and no clear is pending, the client has let go of every mapping (closed it, or met a live export) if and only if its cache is empty |
| `Leases.EverythingIsReclaimed` | examples/zeromq_mutable_shm_chain/mstore/client.py:478-484 | if no open overlaps `Client.close` (two critical sections: the clear, then `_closed`), the client lets go of every mapping once all objects are released |
| `Leases.RaceHarmsExactly` | examples/zeromq_mutable_shm_chain/mstore/client.py:154-158 | from every state that runs without such a race reach, with a thread past the check in `close`: a second one can pass it, too; after both releases the lease count is right if and only if no other object holds the mapping, and the mapping is closed under a live lease if and only if exactly one other object holds it and neither cache nor export keeps it open |
| `Leases.RacingCloseStealsALease` | examples/zeromq_mutable_shm_chain/mstore/client.py:154-158 | an instance that is reachable from the start |
| `Leases.LateOpenLeaks` | examples/zeromq_mutable_shm_chain/mstore/client.py:421-426 | the condition on open is needed: an open answered before `_closed` is set attaches its mapping after `Client.close` and leaves it open for good |
| `Stream.DecodesExactly` | examples/zeromq_mutable_shm_chain/mstore/protocol.py:24-39 | `decode_frame` accepts exactly a length of at most 4 MiB followed by that many bytes of a JSON object |
| `Stream.EncodesExactly` | examples/zeromq_mutable_shm_chain/mstore/protocol.py:17-21 | `encode_frame` refuses exactly what is over 4 MiB; else the four length bytes, most significant first, and the text |
| `Stream.ParsesExactly` | examples/zeromq_mutable_shm_chain/mstore/protocol.py:54-59 | a receive, exactly: the message of the frame at the front, EOF inside a frame, a complaint about a length over 4 MiB with only the length taken, or about a frame that holds no object |
| `Stream.FrameComesOff` | examples/zeromq_mutable_shm_chain/mstore/protocol.py:17-39 | a frame at the front of any stream comes off whole and leaves the rest |
| `Stream.FramesComeBack` | examples/zeromq_mutable_shm_chain/mstore/protocol.py:54-59 | a concatenation of frames comes back message by message, in order, with the rest intact |
| `Stream.CutFrameIsEof` | examples/zeromq_mutable_shm_chain/mstore/protocol.py:42-59 | a stream cut inside a frame ends in EOF, never in a message |
| `Stream.RecvExact` | examples/zeromq_mutable_shm_chain/mstore/protocol.py:42-51 | for every chunking: exactly the next size bytes, EOF only on a shorter stream, and an error of the transport only if the transport raises one |
| `Stream.RecvFrame` | examples/zeromq_mutable_shm_chain/mstore/protocol.py:54-59 | for every chunking the receive is one `ParseFrame` of the stream, result and rest, unless the transport raises |
| `Stream.RecvFrameWithFd` | examples/zeromq_mutable_shm_chain/mstore/protocol.py:78-124 | for every chunking: the frame with the rest intact, or the same error, or a complaint about bytes beyond the frame that really are there |
| `Stream.SendFrame` | examples/zeromq_mutable_shm_chain/mstore/protocol.py:62-75 | the whole frame goes out, or nothing because it is too long, or, if the transport raises, a beginning of it, which is empty unless the socket is broken; sendmsg and sendall split without loss |
| `Serving.SendReply` | examples/zeromq_mutable_shm_chain/mstore/server.py:246-254 | the reply, or in its place one error payload (when it is too long, or its send raises before any byte on a socket that still works), goes out whole, or in part if the transport raises |
| `Serving.OneMoreFrame` | examples/zeromq_mutable_shm_chain/mstore/server.py:218-220 | receiving one more frame extends the run of parsed messages by one |
| `Serving.ServeConnection` | examples/zeromq_mutable_shm_chain/mstore/server.py:214-260 | for every chunking: the requests handled are the frames at the front of the stream, each handled once in the state that the one before left, with one reply each, in order, and at most a beginning of one more frame after them; if nothing fails and nobody stops the daemon, the connection ends only where the stream ends or shows an error, which is answered by one complaint, or at a request that no reply fits |
| `Session.AssessFrame` | examples/zeromq_mutable_shm_chain/mstore/protocol.py:102-124 | a proper beginning of a frame asks for more, the whole frame yields its message |
| `Session.StepKeepsInv` | examples/zeromq_mutable_shm_chain/mstore/client.py:242-252 | every step of client, daemon and wire keeps each request and each reply in one piece and every return paired |
| `Session.RepliesArePaired` | examples/zeromq_mutable_shm_chain/mstore/client.py:242-267 | in every run with arbitrary chunking, failures and reconnects, each reply that `_request` returns is the daemon's answer to that very request, and none is returned twice |
| `Session.FreeLockMeansSilence` | examples/zeromq_mutable_shm_chain/mstore/client.py:245-252 | while the request lock is free, a kept connection has nothing on its way in either direction |
| `Session.HandledAtMostOnce` | examples/zeromq_mutable_shm_chain/mstore/server.py:214-260 | on every connection, also one given up, requests are handled in order and at most once each |
| `Session.StreamStaysInStep` | examples/zeromq_mutable_shm_chain/mstore/protocol.py:113-118 | the extra-bytes branch, and every other malformed-frame branch, is unreachable on both sides |
| `Session.RequestsComplete` | examples/zeromq_mutable_shm_chain/mstore/client.py:242-267 | the runs exist: after any run, while the lock is free, a request whose frame and reply fit into one read is answered in five steps with what the daemon computes for it, on the connection that the client keeps, or on a new one if it keeps none |
| `Session.CloseIsFinal` | examples/zeromq_mutable_shm_chain/mstore/client.py:478-484 | once closed, the client returns no reply any more |
| `Session.FailureDropsConnection` | examples/zeromq_mutable_shm_chain/mstore/client.py:245-252 | a request that fails (an error, a request that is too long, a malformed reply) frees the lock and gives its connection up |
| `ClientRegistry.StepKeepsInv` | examples/zeromq_mutable_shm_chain/mstore/client.py:414-429 | every step of this client and of all others keeps each cached entry backed by the validate call that opened it |
| `ClientRegistry.CacheChangesExactly` | examples/zeromq_mutable_shm_chain/mstore/client.py:401-476 | what each step does to the cache: a cached open follows the LRU order, a confirmed delete takes the keys of its object, a clear those its filters select, nothing else changes it |
| `ClientRegistry.CachedWasAuthorised` | examples/zeromq_mutable_shm_chain/mstore/server.py:296-303 | in every run each cached (object, token, mode) was accepted for that very mode when it was opened |
| `ClientRegistry.HitOutlivesOnlyCancelled` | examples/zeromq_mutable_shm_chain/mstore/client.py:176-180 | a cached entry would be refused by the daemon now if and only if its token has been revoked, has expired or went with its object |
| `ClientRegistry.DeleteIsFinal` | examples/zeromq_mutable_shm_chain/mstore/client.py:470-476 | after a confirmed delete no later open of that object hits the cache or is granted, whatever everybody does |

## Left out

- Manifest.Builder.Run: `_json_fallback` for NumPy scalars and `UnicodeEncodeError`s of `to_json` are not modelled; the tree starts as scalars, arrays, references, lists, tuples and dictionaries.
- Container.Encode: type and contiguity checks of `out` (_codec.py:119-128) are carried by the array type; source arrays do not alias `out`, and the copy of a zero-width dtype is taken to succeed.
- RoundTrip.InlineReadsBack: non-contiguous sources appear as their C-order bytes; strides are not modelled.
- Vineyard.VineyardStore.GetArray: the objects of the model are those that the client resolves to contiguous ndarrays; an id of anything else is refused like a missing one. A hand-made reference whose size is no multiple of the itemsize, or whose shape has a negative dimension, is refused as BlobShape, where the source floors the count (_vineyard.py:181-194) and lets `reshape` infer a dimension; references from `from_manifest` or `put_array` are never like that.
- Vineyard.PutObeysLaw: resolved memory stays mapped and unchanged, which the store's immutability provides outside this model; `Faithful` says it of the array at hand.
- Chain.ChainIsStable: the keys of the message's references are required to differ and the thresholds to suit the message; `Chain.StageForwardsExactly` shows that both are needed, and `Pipelines.PipelineIsStable` that trees of arrays meet them when no empty array is externalised and the thresholds split the arrays alike.
- Restore.StoreNeverMissing: Pydantic validation after the decode is not modelled.
- Registry.Registry.CreateObject: the size is an int already; `int()` of the request's value (server.py:277-280) is not modelled. Nor are permission arguments that are not a string or a collection of strings.
- Registry.Registry.IssueToken: clock readings and sums are exact; rounding of floats is not modelled.
- Registry.Registry.DeleteObject: regions and their closing are not modelled, and `Registry.close` is left out.
- Capabilities.RejectionIsPermanent: token hashes name tokens, fresh ids and hashes are new, and the clock does not run backwards; these are conditions of a run.
- Capabilities.RunAcceptance: revoking a token does not revoke tokens derived from it, and the statement says so.
- ClientCache.Client.CachePut: a mapping that is cached under another key is not put; `open` never does that.
- ClientCache.Client.Open: connecting, mapping a descriptor and its failures are one answer `granted`; `create` and the control calls without cache effects are left out here.
- Leases.EverythingIsReclaimed: an exported buffer may keep its mapping open; that the interpreter frees it later is not modelled.
- Leases.MappingsOutliveLeases: races inside `close` of an object whose mapping nobody else can get at are harmless but not covered.
- Lifetime.StepKeepsInv: fork handling (client.py:208-227) and asynchronous exceptions are outside the steps; a cached open may fail if its mapping is evicted before `acquire`, so only safety is claimed.
- Stream.RecvFrameWithFd: descriptors in ancillary data are not modelled, and nothing is claimed about closing them.
- Serving.ServeConnection: a socket that fails once stays failed, as a blocking stream socket does; a request with a descriptor attached is not modelled.
- Session.RepliesArePaired: one client and its connections; other clients appear as arbitrary changes of the daemon's state.
- Session.StepKeepsInv: the Windows pipe transport, which keeps message boundaries itself, is left out.
- Witness.ConcreteIsLawful: the concrete text form is a prefix code, not the JSON grammar.
- `Fault`, `Refusal` and `Trouble` name each error branch; exception classes that share a branch share a constructor.
- `peek` is `ParseHeader`; `persist`, `exists`, `release` and `delete` of blob stores would only add easy members.
- Schema decorators, ZeroMQ and iceoryx2 transports, backends, listeners, thread start-up and shutdown, command line and benchmarks.
- SHA-256, uuid and token randomness are an arbitrary hash function with fresh values.
