# Helix honeypot: a verified model

This project models the stateful and the algebraic parts of the Helix honeypot in Dafny and
proves what they promise, for all inputs, all states and all runs. `dafny verify dfyconfig.toml`
checks everything.

**The Kubernetes object store.** `StoreModel` is the keyed store as a value: objects under
(group, version, resource, namespace, name), one revision counter, a byte counter, watchers with
channels of capacity 4, and a counter for generated names. `ObjectStore` is the mutable store,
method by method, proved to compute exactly that. Over every run: `StoreRuns` has the limits, the
revision law, the byte accounting and the generated names; `Watching` has the watch history and
the watch-then-list protocol; `Paging` and `ListRequests` have the paged listing and its continue
tokens; `Aliasing` puts the store, its channels and its callers on one heap of shared, mutable maps
and shows that treating objects as values is right. `Json` is what `map[string]any` holds, with the
length `encoding/json` gives it and the copy that encoding and decoding makes, for strings of any
bytes (`Utf8`), for the typed string maps that protobuf bodies bring and for objects too deep to be
decoded again; `Encoding` has the texts themselves, against which lengths and strings are measured.
`Selectors` is the label and field matching.

**The controller emulation.** `ControllerModel` and `Convergence` describe and analyse the
reconciler (Deployment to ReplicaSet to Pod, or workload to Pod), `Cascade` the deletion of what a
workload owns, `Controller` is their mutable form and `PodNames` the name generation.

**Documents and wire formats.** `Pointers` and `Patch` (JSON Patch, RFC 6902 with pointers of
RFC 6901), `Merge` (the merge patch, compared with RFC 7396), `Wire` (the protobuf field
splitters), `Nesting` (the depth scanner in front of the JSON parser of the AI sensor).

**The log shipper.** `Shipper` is the emitters, the runner and the closer of a batch shipper as
interleaved steps.

**The Docker host.** `DockerModel` is the host's state machine, `Docker` its mutable form.

**Configuration.** `Names` holds the two sets of name validators, `EnvTokens` the honeytoken
variable, `ConfigRules` the honeytoken and namespace rules, and `Seeding`, `SeedGuarantee` and
`Seeder` what is in the store before the first request. `Base64` is the encoding of Secret values.
`Text`, `Order` and `Sums` carry the strings, sorting and totals the others need.

## Findings

Some expected properties are false of the code. Each has a lemma at a concrete input and the exact
condition under which it holds.

- A watch replays exactly while every stored object names its own key in its metadata
  (`Watching.ReplayFromSnapshot`, `Watching.ReplayNeedsAddress`). The create handler leaves a
  namespace in the metadata of a cluster-scoped object, and the patch handler restores the name but
  not the namespace, so a client that keeps objects by their metadata can misplace them
  (`Watching.StrayIsMisplaced`).
- A watch with selectors is told nothing of an object that leaves the selection
  (`Watching.RelabelledStays`). It replays to what is selected, throughout a run, precisely while
  none does (`Watching.ReplayExactly`).
- The byte counter is charged for the caller's object but later reduced by the stored copy, and the
  two can differ both ways. An integer such as 9999999999999999999 comes back from the copy as a
  float that prints one digit more, so the counter can fall short (`StoreRuns.AccountingCanDrift`).
  A protobuf body can bring bytes that are no UTF-8, which are charged six bytes each and come back
  as a character of three, so the counter can also stay too high for good
  (`StoreRuns.InvalidTextOverstates`). And an object nested more than 10000 deep, as a JSON Patch
  path can make it, is encoded but not decoded again: it is charged in full and stored empty
  (`StoreRuns.DeepObjectIsEmptied`). The counter is exact all through a run precisely when every
  accepted put's copy keeps its length (`StoreRuns.AccountingExact`). An exact counter at the end
  says less: the drifts can cancel (`StoreRuns.DriftsCanCancel`). Numbers only drift up, text and
  nesting only down, each exactly when it is not kept (`StoreRuns.NumbersDriftUp`,
  `StoreRuns.TextDriftsDown`).
- Stored objects carry a resourceVersion precisely while every accepted put can be decoded again
  (`StoreRuns.VersionsThroughout`, `StoreRuns.DeepObjectIsEmptied`).
- An `Emit` that passed its `closed` check before `Close` can put its event into a queue that
  nobody reads any more, neither sent nor counted (`Shipper.LateEmitCanBeStranded`). From a state in
  which `Close` can begin this is possible if and only if some `Emit` is past that check
  (`Shipper.StrandingExactly`); every event whose `Emit` had finished is accounted for in any case
  (`Shipper.CloseAccountsForAll`).
- The reconciler lists one page, and pages also end at 1 MiB, so it sees all of a namespace
  precisely when both limits allow (`ControllerModel.SeesAllExactly`). Five pods of the largest size
  are too many: deleting their Deployment leaves one (`Cascade.CascadeCanLeavePods`). With one owner
  per pod a cascade is complete precisely when every owned ReplicaSet is listed and each owner's pods
  are, among those that the owners before it leave (`Cascade.NothingRemainsExactly`,
  `Cascade.ShownOnce`); one-page listings ensure it. A ReplicaSet that names its Deployment twice has
  two turns (`Cascade.TwoReferencesClear`). A workload keeps exactly those unwanted pods that the
  page does not show (`Convergence.WorkloadConvergesExactly`).
- Owners are matched by name alone. With one-page listings a deletion takes what the workload owns,
  and no more, precisely when nothing refers to a namesake of another kind only
  (`Cascade.NamesakesExactly`, `Cascade.NamesakesAreTaken`).
- A reconcile of a Deployment is idempotent on pods, ReplicaSets and counts precisely when no wanted
  pod name was held by a pod of an older ReplicaSet: such a pod is reaped after its name was tried,
  so the next reconcile adds it (`Convergence.DeploymentSettles`). The pods come out exactly as
  wanted precisely when nobody else holds a wanted name (`Convergence.DeploymentConvergesExactly`).
  `Convergence.HeldNameIsMissed` is an input that fails both.
- A template hash is said to change with the template, and does so only up to collisions: a changed
  template rolls out precisely when its hash is another one (`Convergence.RollsOutExactly`,
  `PodNames.TemplatesAgree`), and different templates can share one
  (`PodNames.TemplatesCanAgree`).
- `mergeObject` keeps null members of an object that lands where the destination has none, and
  replaces an object by a typed map of a protobuf patch. It is MergePatch of RFC 7396 precisely when
  neither happens to matter (`Merge.MergeAgrees`), and idempotent precisely when no such object has
  null members (`Merge.MergeIdempotent`). Inputs: `Merge.NestedNullIsKept`,
  `Merge.TypedPatchReplaces`.
- A written JSON Patch value is read back precisely when it became an object member, because
  pointers do not pass through arrays (`Patch.WriteThenRead`, `Patch.InsertedIsNotRead`);
  add-then-remove restores a document precisely at array positions and at absent members of existing
  parents (`Patch.AddThenRemove`, `Patch.RemovalDoesNotRestore`).
- A continue token belongs to its query precisely while the texts joined by NUL differ
  (`ListRequests.TokenOfAnother`), which they do for different queries without a NUL
  (`ListRequests.IdentityInjective`) but need not with one (`ListRequests.IdentitiesCanCollide`).
- The last value of a honeytoken entry loses its trailing white space (`EnvTokens.PrintThenParse`);
  printing and parsing is lossless precisely without it (`EnvTokens.RoundTripExactly`,
  `EnvTokens.TrailingSpaceIsLost`).

## Model

| member | source | states |
|---|---|---|
| ObjectStore.ObjectStore.constructor | honeypots/k8s/handler/state.go:64-71 | A new store is empty, at revision 1000, with no watcher and no bytes. |
| ObjectStore.Marshal | honeypots/k8s/handler/state.go:79 | The length of the encoding is the structural `EncodedLength`, whatever order a map yields its members in. |
| ObjectStore.MarshalTexts | honeypots/k8s/handler/api.go:2515-2527 | The same for the typed string maps that protobuf bodies bring. |
| Encoding.RenderedLength | honeypots/k8s/handler/state.go:79 | Every text of a value, with its members in any order and its strings escaped as encoding/json does, is as long as the value is charged. |
| Encoding.TreeOf | honeypots/k8s/handler/state.go:79 | Every value has such a text. |
| ObjectStore.ObjectStore.Put | honeypots/k8s/handler/state.go:73-113 | The whole new state of an accepted put (copy kept, or an empty object where the copy cannot be decoded again; bytes, revision, one copy of the event to each interested watcher, full channels closed), the state unchanged after each refusal, which refusal it is, and the stamp left in the caller's object. What is kept of the object, and when a put is accepted, is said by `StoreRuns.PutKeepsMembers` and `StoreRuns.PutAcceptedExactly`. |
| ObjectStore.ObjectStore.Admit | honeypots/k8s/handler/state.go:79-106 | The order of the checks: object size, existence for ADDED, object count, total bytes. |
| ObjectStore.ObjectStore.Get | honeypots/k8s/handler/state.go:115-123 | The stored object's copy, or nothing; the store is unchanged. |
| ObjectStore.ObjectStore.Delete | honeypots/k8s/handler/state.go:176-190 | Removes the key, gives back its bytes, takes one revision and sends a DELETED event with the object's old resourceVersion; a missing key changes nothing. |
| ObjectStore.ObjectStore.DeleteMatching | honeypots/k8s/handler/state.go:192-210 | Exactly the selected objects go, one revision each, and the count returned is how many there were. |
| ObjectStore.ObjectStore.PublishLocked | honeypots/k8s/handler/state.go:264-282 | In any order of the watcher map, each interested watcher gets the event or, when its channel is full, is unregistered with its channel closed. |
| ObjectStore.Wants | honeypots/k8s/handler/state.go:265-273 | A watcher is sent an event exactly when it is interested in it as `StoreModel` says; objects are filtered as they are stored, after the copy. |
| ObjectStore.ObjectStore.Watch | honeypots/k8s/handler/state.go:243-253 | Registers a watcher under a new identifier with an empty open channel. |
| ObjectStore.ObjectStore.Unwatch | honeypots/k8s/handler/state.go:255-262 | Unregisters and closes once; a second call does nothing. |
| ObjectStore.ObjectStore.NextName | honeypots/k8s/handler/state.go:219-236 | The prefix with the next number padded to 20 digits, if that is a valid name and the counter is not exhausted; otherwise the counter stays. |
| ObjectStore.ObjectStore.ListPage | honeypots/k8s/handler/state.go:125-174 | The page, its end and the number of matches are those of the sorted listing, whatever order the map yields the objects in; `ListRequests.ListedExactly`, `ListRequests.PageItems` and `ListRequests.PageLength` say which that are. |
| Order.Sort | honeypots/k8s/handler/state.go:143-148 | Sorting yields the one strictly ordered sequence of the given places. |
| Order.SortedUnique | honeypots/k8s/handler/state.go:143-148 | A set of places has one strictly ordered listing, so no listing depends on map iteration. |
| Order.BeforeExactly | honeypots/k8s/handler/state.go:143-148 | The order is by namespace, and within one by name. |
| Text.LessExactly | honeypots/k8s/handler/state.go:143-148 | Of two strings the smaller one has the smaller byte at the first difference, or is a proper prefix. |
| Utf8.CoerceFixes | honeypots/k8s/handler/state.go:311-324 | Encoding and decoding a string gives it back exactly when it is valid UTF-8. |
| Encoding.QuotedReads | honeypots/k8s/handler/state.go:311-324 | For every string of bytes, reading its escaped text gives what the copy is said to hold. |
| Utf8.CoerceLength | honeypots/k8s/handler/state.go:79 | What is read back never encodes longer, and encodes alike exactly when it is the same. |
| Selectors.ObjectMatches | honeypots/k8s/handler/api.go:3006-3056 | The loops over label and field requirements accept exactly the objects that meet every requirement. |
| Selectors.LabelMeaning | honeypots/k8s/handler/api.go:3006-3056 | `=` and `==` select by the text at metadata.labels.key, `!=` by anything else there, also nothing. |
| Selectors.FieldMeaning | honeypots/k8s/handler/api.go:3016-3052 | Where each field is read, as a path into the object: an Event's object under involvedObject or else regarding, reasons and components at the key or else at source.component; `==` does as `=`, `!=` the opposite. |
| Selectors.SelectorRoundTrip | honeypots/k8s/handler/api.go:3058-3083 | Any requirements with plain keys and values, written out between commas, are read back in order. |
| Selectors.SupportedFields | honeypots/k8s/handler/api.go:3085-3101 | A field selector may name exactly these fourteen fields. |
| Selectors.SelectedAlikeExactly | honeypots/k8s/handler/api.go:3006-3056 | Any two objects are selected by the same selectors exactly when every label, and every field a selector may name, reads alike. |
| Selectors.CloneMatches | honeypots/k8s/handler/api.go:3006-3056 | An object and its copy are selected by the same selectors exactly when their labels and fields read alike, as they do for an object of valid text without typed maps that can be decoded again. |
| Selectors.CopyCanStopMatching | honeypots/k8s/handler/api.go:3006-3056 | With a byte that is no text in a label, the copy does not match a selector that the object matched. |
| Json.CloneLength | honeypots/k8s/handler/state.go:311-324 | Decoding the encoding of valid text never gives something that encodes shorter, and encodes alike exactly when every integer prints as many digits as its float64 image. |
| Json.CloneNoLonger | honeypots/k8s/handler/state.go:311-324 | With such numbers it never gives something that encodes longer, and encodes alike exactly when all text is valid UTF-8. |
| Json.CopyFixes | honeypots/k8s/handler/state.go:311-324 | An object is its own copy exactly when it holds only what a decoder makes (floats, valid text, no typed maps) and nests at most 10000 deep. |
| Json.CloneObjectTwice | honeypots/k8s/handler/state.go:311-324 | A copy of a copy is the copy. |
| StoreRuns.RunSound | honeypots/k8s/handler/state.go:243-282 | In every run each registered watcher has its own open channel and every other channel is closed: no send on, and no second close of, a closed channel. |
| StoreRuns.RunWithinLimits | honeypots/k8s/handler/state.go:73-113 | From the fresh store, every run keeps at most 4096 objects, the byte counter within 32 MiB, and the resourceVersions of stored objects that are not empty pairwise distinct and at most the revision, which is 1000 plus the number of mutations. |
| StoreRuns.PutKeepsMembers | honeypots/k8s/handler/state.go:73-113 | After an accepted put that can be read back, every ASCII member of the object but metadata, and every ASCII member of its metadata but resourceVersion, is stored as the caller's copied value, or missing if the caller had none; resourceVersion is the new revision in digits; a get returns just this; and no other key changes. |
| StoreRuns.PutKeepsAll | honeypots/k8s/handler/state.go:73-113 | With keys of valid UTF-8 the stored object is exactly the caller's with every member copied and resourceVersion set. |
| StoreRuns.PutAcceptedExactly | honeypots/k8s/handler/state.go:79-106 | A put is accepted exactly if the stamped object encodes to at most 256 KiB, an ADDED names a new key, a new key finds fewer than 4096 objects, and the counter, less what the key held, stays within 32 MiB; "already exists" is told exactly to an ADDED of a present key that is small enough. |
| StoreRuns.VersionsThroughout | honeypots/k8s/handler/state.go:73-110 | All stored objects carry a resourceVersion throughout a run exactly when each accepted put can be decoded again. |
| StoreRuns.StepRevision | honeypots/k8s/handler/state.go:73-190 | Each operation takes exactly one revision if it changes the stored objects and none otherwise, and without a mutation objects and bytes stay as they were. |
| StoreRuns.RevisionGrows | honeypots/k8s/handler/state.go:73-190 | Over any run from any state the revision grows by the number of mutations. |
| StoreRuns.AccountingExact | honeypots/k8s/handler/state.go:73-106 | The byte counter equals the encodings of the stored objects after every prefix of a run exactly when each accepted put's copy encodes to the length of what was put. |
| StoreRuns.StepExact | honeypots/k8s/handler/state.go:73-190 | In any state, an operation leaves the difference between counter and stored bytes as it was exactly when it is no accepted put or one whose copy keeps its length. |
| StoreRuns.NumbersDriftUp | honeypots/k8s/handler/state.go:79-110 | An accepted put of valid text makes the counter exceed what is stored exactly when it cannot be decoded again, and keeps it exact exactly when it can and its numbers keep their length. |
| StoreRuns.TextDriftsDown | honeypots/k8s/handler/state.go:79-110 | An accepted put with such numbers never makes it fall short, and keeps it exact exactly when it can be decoded again and its text is valid UTF-8. |
| StoreRuns.KeptRunBounded | honeypots/k8s/handler/state.go:73-106 | On runs whose puts all keep their length every stored object is at most 256 KiB and all together at most 32 MiB. |
| StoreRuns.AccountingCanDrift | honeypots/k8s/handler/state.go:79-110 | One put of a Deployment with 9999999999999999999 replicas leaves the counter one byte short. |
| StoreRuns.InvalidTextOverstates | honeypots/k8s/handler/api.go:2495-2527 | One put of a ConfigMap with a byte that is no text leaves the counter three bytes too high, and it stays so when the object is deleted. |
| StoreRuns.DeepObjectIsEmptied | honeypots/k8s/handler/state.go:311-324 | An object of 10000 to 40000 nested members is accepted and stored as an empty one without a version, and all but two bytes of what it was charged stay in the counter when it is deleted. |
| StoreRuns.DriftsCanCancel | honeypots/k8s/handler/state.go:79-110 | The two drifts can cancel: a run of two such puts ends exact although neither put kept its length. |
| StoreRuns.NamesDistinct | honeypots/k8s/handler/state.go:219-236 | No run generates the same name twice, for any mix of prefixes. |
| StoreRuns.NamesCountUp | honeypots/k8s/handler/state.go:219-236 | The name is the prefix and then the next number, in 20 digits below the maximum; the counter goes up by one exactly when it is not exhausted and the name is valid, and nothing else changes. |
| StoreRuns.SuffixDecides | honeypots/k8s/handler/state.go:225-228 | Two generated names are equal only if their numbers are: the fixed width keeps prefixes apart. |
| Text.PaddedInjective | honeypots/k8s/handler/state.go:228 | Zero-padding to 20 digits is injective. |
| Text.DecimalRoundTrip | honeypots/k8s/handler/state.go:77 | A printed revision reads back as the number, so resourceVersions compare as numbers. |
| Watching.WatchHistory | honeypots/k8s/handler/state.go:243-282 | Over every run, what a watcher received followed by what waits in its channel is exactly the sequence of mutations its scope and selectors ask for, since it registered; once it is closed, a prefix of it. |
| Watching.AskedFor | honeypots/k8s/handler/state.go:264-273 | An event is for a watcher exactly when group, version and resource are the watcher's, its namespace is that of the object or empty, and the object matches both its selectors. |
| Watching.DroppedExactly | honeypots/k8s/handler/state.go:255-282 | In any state of a run a step unregisters a watcher exactly when it is the watcher's own departure or an event it asked for that finds four waiting. |
| Watching.ReplayFromSnapshot | honeypots/k8s/handler/api.go:1990-2059 | For puts of objects that name their own key, and while no object leaves the selection: replaying all events since registration (upsert, or remove on DELETED, by the name and namespace in the object) on what was selected at any later moment gives what is selected at present: older events do no harm and nothing is missed. |
| Watching.ReplayExactly | honeypots/k8s/handler/state.go:264-282 | The replay is right after every prefix of a run exactly when no accepted put replaces an object the selectors select by one they do not. |
| Watching.UnfilteredSelectsAll | honeypots/k8s/handler/state.go:264-282 | Without selectors everything in the scope is selected, and nothing leaves. |
| Watching.RelabelledStays | honeypots/k8s/handler/state.go:264-282 | A pod whose label is changed away from a watch's selector leaves without an event. |
| Watching.ReplayNeedsAddress | honeypots/k8s/handler/api.go:1904-1947 | In any state within the run limits, an accepted put is replayed to what the store then holds exactly when the copy's metadata names the key it is stored under, or when an empty copy changes neither that place nor the one it is found at. |
| Watching.StrayIsMisplaced | honeypots/k8s/handler/api.go:1529-1556 | A cluster-scoped object created with a namespace in its metadata is accepted, and a client that replays the watch holds it at the wrong place. |
| Watching.WatchThenList | honeypots/k8s/handler/api.go:2018-2058 | A client that watches, is sent the first page as ADDED events and then its channel, holds exactly what its selectors select whenever the channel is drained, if the listing fitted one page, the watcher was not dropped and nothing left the selection. |
| Watching.StepVisible | honeypots/k8s/handler/state.go:73-190 | One operation changes what is selected at a place exactly as its event, if any, says, except that an object that leaves the selection goes unannounced. |
| Watching.SnapshotSelected | honeypots/k8s/handler/api.go:2018-2035 | The listed objects, replayed as ADDED events on nothing, are what the selectors select. |
| ListRequests.PageIsLargest | honeypots/k8s/handler/state.go:150-173 | A page is the longest run of matches within the item limit (`ListRequests.PageLength`) and 1 MiB, and never empty while matches remain. |
| ListRequests.ListedExactly | honeypots/k8s/handler/state.go:125-142 | A place is listed exactly when an object is stored under the resource at that place, the namespace is the one asked for or none was, and the object matches the selectors. |
| ListRequests.PageItems | honeypots/k8s/handler/state.go:150-173 | The items of a page are the copies of the objects at its places, in order. |
| ListRequests.PageLength | honeypots/k8s/handler/state.go:150-173 | With a limit from 1 to 100 a page holds at most that many, and exactly that many unless the matches end or one more item would pass 1 MiB; any other limit is a limit of 100. |
| ListRequests.FirstPageLength | honeypots/k8s/handler/api.go:1464-1520 | A first request with limit n from 1 to 100 gets at most n items, exactly n unless nothing remains or bytes end the page, a token exactly when something remains, and the right remaining count. |
| ListRequests.LimitsDecide | honeypots/k8s/handler/api.go:3110-3122 | A malformed limit, or one outside 0 to 1000, is a bad request; none, 0 and 101 to 1000 answer as 100 does. |
| ListRequests.AnsweredExactly | honeypots/k8s/handler/api.go:3124-3144 | A request is answered with a page exactly if its field selector and limit are valid, its token is empty or one of this query at this revision with an offset within the listing, and it asks for no other version. |
| ListRequests.OnePage | honeypots/k8s/handler/state.go:150-173 | A listing fits one page exactly when it has at most 100 items which are at most 1 MiB or at most one. |
| ListRequests.PagesConcatenate | honeypots/k8s/handler/api.go:1464-1520 | On an unchanged store, following continue tokens with any valid limits gives a prefix of the full listing, and all of it, ending without a token, after at most as many requests as matches. |
| ListRequests.ListingOrder | honeypots/k8s/handler/state.go:125-149 | The full listing holds each matching object exactly once, in strict (namespace, name) order. |
| ListRequests.TokenExpires | honeypots/k8s/handler/api.go:3124-3144 | A token is refused after any run with a mutation, and otherwise answers as it did. |
| ListRequests.OldToken | honeypots/k8s/handler/api.go:3124-3144 | A token of any earlier revision is refused. |
| ListRequests.TokenOfAnother | honeypots/k8s/handler/api.go:3124-3144 | A current token of one query is refused by another exactly when the joined texts that identify them differ. |
| ListRequests.IdentityInjective | honeypots/k8s/handler/api.go:1464-1520 | Those texts differ exactly when the queries do, as long as no part holds a NUL. |
| ListRequests.IdentitiesCanCollide | honeypots/k8s/handler/api.go:1464-1520 | With a NUL in a selector, two different accepted queries share their tokens. |
| Aliasing.NothingShared | honeypots/k8s/handler/state.go:107-123 | In every reachable state of the heap no map or slice is reachable from two of: the store, a waiting event, another waiting event, a caller. |
| Aliasing.RunRepresents | honeypots/k8s/handler/state.go:107-123 | Whatever callers write into the maps they hold in between, the store and the channels hold what the same operations on values give. |
| Aliasing.PutMeans | honeypots/k8s/handler/state.go:107-110 | Keeping a copy of the caller's stamped map and delivering one more copy to each served watcher does to the values exactly what `StoreModel.Put` does. |
| Aliasing.DeleteMeans | honeypots/k8s/handler/state.go:176-190 | Delivering the copies and removing the object does exactly what `StoreModel.Delete` does. |
| Aliasing.CallersChangeNothing | honeypots/k8s/handler/api.go:1904-1947 | A request that reads, decodes and rewrites maps, a half-applied patch list included, and is then refused leaves every stored object and every waiting event as it was. |
| Aliasing.AllocSound | honeypots/k8s/handler/state.go:311-324 | Decoding puts the value on new nodes that point only at one another, and the result stands for that value. |
| Aliasing.WriteInvisible | honeypots/k8s/handler/state.go:107-123 | One write by a caller, anywhere it can reach, touches neither a stored object nor a waiting event. |
| PodNames.ComputeFnv32 | honeypots/k8s/handler/controller.go:66-72 | The loop computes the 32-bit hash with wrap-around. |
| PodNames.SuffixFor | honeypots/k8s/handler/controller.go:55-64 | The five letters are the base-26 digits of the hash, lowest first. |
| PodNames.KnownHash | honeypots/k8s/handler/controller.go:66-72 | The hash has the published 32-bit FNV-1a values at "" and "a". |
| PodNames.SuffixLetters | honeypots/k8s/handler/controller.go:55-64 | A suffix is five letters of the first 26 of the alphabet, for the digits of the hash of seed, slash and index. |
| PodNames.SuffixesAgree | honeypots/k8s/handler/controller.go:55-64 | Two suffixes are the same exactly when these hashes agree modulo 26 to the fifth. |
| PodNames.TemplatesAgree | honeypots/k8s/handler/controller.go:74-84 | The same for two template hashes, through the hexadecimal digits of the hash of the template, which tell hashes apart. |
| PodNames.TemplatesCanAgree | honeypots/k8s/handler/controller.go:74-84 | Two different templates have one hash. |
| ControllerModel.Page | honeypots/k8s/handler/state.go:150-173 | A listing page shows existing names only, the first ones in order, ending at 100 names or before the object that would take it past 1 MiB. |
| ControllerModel.SeesAllExactly | honeypots/k8s/handler/controller.go:243-259 | The reconciler sees every name exactly when there are at most 100 objects, which together are at most 1 MiB or at most one. |
| Controller.FirstPage | honeypots/k8s/handler/state.go:125-174 | The loop that fills the page by count and bytes ends where the longest fitting page ends. |
| Controller.RankNames | honeypots/k8s/handler/state.go:143-148 | The listing order does not depend on the order in which the map yields the names. |
| Controller.Controller.OwnedPodNames | honeypots/k8s/handler/controller.go:489-504 | Exactly the pods on the page with an owner of that name. |
| Controller.Controller.DeploymentReplicaSets | honeypots/k8s/handler/controller.go:243-259 | Exactly the ReplicaSets on the page with that owner, in listing order, each as often as it names the owner. |
| Controller.Controller.CreatePods | honeypots/k8s/handler/controller.go:121-129 | Adds each wanted name that is free and not refused, and touches no other pod. |
| Controller.Controller.SyncOwnedPods | honeypots/k8s/handler/controller.go:110-129 | Reaps the owned pods that are not wanted and adds the free wanted names, in any order of the sets. |
| Controller.Controller.MaterializePods | honeypots/k8s/handler/controller.go:91-134 | The state after the reconcile of a workload that owns its pods. |
| Controller.Controller.MaterializeDeployment | honeypots/k8s/handler/controller.go:136-241 | The state after the reconcile of a Deployment, with the puts that the store refuses as an input. What that comes to for each pod and ReplicaSet is said by `Convergence.DeploymentFrames` and `Convergence.DeploymentWrites`. |
| Controller.Controller.SyncDeploymentStatus | honeypots/k8s/handler/controller.go:268-283 | Writes the counts of an existing Deployment and nothing else. |
| Controller.Controller.ReapOwnedPods | honeypots/k8s/handler/controller.go:285-299 | The cascade after a Deployment was deleted. |
| Controller.Controller.RespawnDeletedPod | honeypots/k8s/handler/controller.go:429-485 | Reconciles the first existing controller of the deleted pod, if any. |
| Controller.Controller.DeleteDeployment | honeypots/k8s/handler/api.go:1949-1968 | Deletes the Deployment and runs the cascade; a missing one changes nothing. |
| Controller.Controller.DeleteWorkload | honeypots/k8s/handler/api.go:1949-1968 | Deletes a workload of any kind and runs the cascade on its name; a missing one changes nothing. |
| Controller.Controller.DeletePod | honeypots/k8s/handler/api.go:1949-1968 | Deletes the pod and lets its controller respawn it; a missing one changes nothing. |
| Convergence.WorkloadConverges | honeypots/k8s/handler/controller.go:91-134 | Afterwards the workload owns exactly the wanted names that nobody else holds and whose creation was not refused, and those unwanted pods that the listing did not show; foreign pods, ReplicaSets and Deployments are untouched and new pods have wanted names. |
| Convergence.WorkloadConvergesExactly | honeypots/k8s/handler/controller.go:91-134 | It owns nothing unwanted exactly when the listing shows all its unwanted pods, which it does whenever the namespace's pods fit one page. |
| Convergence.StatefulSetPods | honeypots/k8s/handler/controller.go:30-53 | A StatefulSet wants name-0, name-1 and so on, as many as its replicas, up to 64. |
| Convergence.StatefulSetCount | honeypots/k8s/handler/controller.go:30-53 | No two of those names are equal. |
| Convergence.DaemonSetPods | honeypots/k8s/handler/controller.go:84-110 | A DaemonSet wants a pod for each node, up to 64, whatever its replicas. |
| Convergence.JobPods | honeypots/k8s/handler/controller.go:84-110 | A Job wants a single pod. |
| Convergence.ReplicaSetPods | honeypots/k8s/handler/controller.go:30-53 | A Deployment's ReplicaSet wants as many pods under its own name as the Deployment has replicas, up to 64. |
| Convergence.DeploymentConverges | honeypots/k8s/handler/controller.go:136-241 | With listings that fit one page by count and bytes, one owner per pod and no refusal: the current ReplicaSet has the desired count, every older owned one has none and owns no pod, the status counts equal the desired count, and the current ReplicaSet owns the wanted pods that nobody else held. |
| Convergence.DeploymentConvergesExactly | honeypots/k8s/handler/controller.go:136-241 | It owns exactly the wanted pods if and only if nobody else held a wanted name. |
| Convergence.RoomFitsOnePage | honeypots/k8s/handler/controller.go:243-259 | The one-page condition holds whenever the namespace has room for the wanted pods and one more ReplicaSet, both in number (100) and in bytes (1 MiB). |
| Convergence.DeploymentFrames | honeypots/k8s/handler/controller.go:136-241 | In every state, whatever is refused or not listed: unrelated pods, ReplicaSets, Deployments and workloads are as before, pods that stay are unchanged, every new pod is a wanted one of the current ReplicaSet, and at most that ReplicaSet is new. |
| Convergence.DeploymentWrites | honeypots/k8s/handler/controller.go:136-241 | A new current ReplicaSet is controlled by the Deployment and has its template, count and status; an existing one is only scaled, and not put again at the same count; each older one ends at zero; of the Deployment only what it reports changes. |
| Convergence.RollsOutExactly | honeypots/k8s/handler/controller.go:74-84 | With a changed template the former ReplicaSet is scaled to zero exactly when the template hash is another one; otherwise it stays the current one, with the former template. |
| Convergence.DeploymentSettles | honeypots/k8s/handler/controller.go:136-241 | A second reconcile changes no pod, ReplicaSet or count if and only if no wanted name was held by a pod of an older ReplicaSet. Its status put still takes a revision. |
| Convergence.DeploymentSettlesInRoom | honeypots/k8s/handler/controller.go:136-241 | The same with every condition on the state before the first reconcile: room, in number and in bytes, for what both may put. |
| Convergence.HeldNameIsMissed | honeypots/k8s/handler/controller.go:136-241 | One replica whose name a pod of an older ReplicaSet has: the reconcile leaves the Deployment without its pod, and a second one changes the state. |
| Convergence.Composed | honeypots/k8s/handler/controller.go:136-241 | The sequence of steps equals the closed form of the reconciled state, field by field. |
| Convergence.RetirePods | honeypots/k8s/handler/controller.go:217-238 | Retiring older ReplicaSets one by one removes exactly the pods owned by one of them. |
| Convergence.RetireSets | honeypots/k8s/handler/controller.go:217-238 | It scales exactly those to zero whose put is accepted, keeps every object, and changes nothing but sets and pods. |
| Convergence.PodDeletionReconciles | honeypots/k8s/handler/controller.go:429-485 | Deleting a pod of a Deployment's ReplicaSet runs that Deployment's reconcile on what is left. |
| Convergence.DeletedPodRespawns | honeypots/k8s/handler/controller.go:429-485 | After the deletion the ReplicaSet again owns exactly its wanted pods, if the listings fit one page. |
| Convergence.NewPodRespawns | honeypots/k8s/handler/controller.go:429-485 | Any pod that a reconcile of a live Deployment has made comes back when it is deleted: no hypothesis on the pod but that it is new. Afterwards the current ReplicaSet owns its wanted pods, the deleted one included. |
| Convergence.NewPodRespawnsInRoom | honeypots/k8s/handler/controller.go:429-485 | The same with all conditions on the state before the first reconcile. |
| Convergence.DeletedWorkloadPodRespawns | honeypots/k8s/handler/controller.go:429-485 | The same for a pod that a StatefulSet, DaemonSet or Job controls, whatever is refused and however much the namespace holds; only unwanted pods off the page stay. |
| Convergence.NewWorkloadPodRespawns | honeypots/k8s/handler/controller.go:429-485 | So does any pod that the reconcile of a StatefulSet, DaemonSet or Job has made. |
| Convergence.NobodyRespawns | honeypots/k8s/handler/controller.go:429-485 | A pod without a controller reference, or whose first controller is gone, stays deleted, and nothing else happens. |
| Convergence.BareReplicaSetReconciles | honeypots/k8s/handler/controller.go:429-485 | The deletion of a pod whose ReplicaSet has no live Deployment reconciles that ReplicaSet with its own count and template. |
| Cascade.DeploymentCascade | honeypots/k8s/handler/controller.go:285-296 | Deleting a Deployment removes exactly it, its ReplicaSets, its own pods and their pods, if both listings fit one page. |
| Cascade.NothingOwnedRemains | honeypots/k8s/handler/controller.go:285-296 | Then no ReplicaSet or pod owned by it, and no pod owned by one of those ReplicaSets, is left. |
| Cascade.OnlyTheDeletedGoes | honeypots/k8s/handler/api.go:1949-1968 | Of the Deployments and other workloads exactly the deleted one goes. |
| Cascade.CascadeSparesOthers | honeypots/k8s/handler/controller.go:285-296 | In every state, whatever the listings show, the cascade removes only what refers to the Deployment's name, directly or through a ReplicaSet that does. |
| Cascade.NothingRemainsExactly | honeypots/k8s/handler/controller.go:285-296 | Nothing owned outlives the deletion when the listing shows every owned ReplicaSet and, at the turn of each owner, with the pods of the owners before it gone, the listings show all the pods it owns. With one owner per pod this is necessary too. |
| Cascade.ShownExactly | honeypots/k8s/handler/controller.go:285-296 | For any owners in any order, each with any number of turns in a row: the reaping leaves just the pods of nobody named exactly when at each turn the listings show all that owner's pods. |
| Cascade.ShownOnce | honeypots/k8s/handler/controller.go:489-504 | For an owner with one turn that is one listing of the pods that the owners before it do not own. |
| Cascade.CascadeCanLeavePods | honeypots/k8s/handler/controller.go:285-296 | Five pods of 256 KiB do not fit one page, and one of them outlives the deletion of its Deployment and ReplicaSet. |
| Cascade.TwoReferencesClear | honeypots/k8s/handler/controller.go:249-257 | With a second reference to the Deployment the ReplicaSet of those five pods has a second turn, and nothing remains. |
| Cascade.NamesakesExactly | honeypots/k8s/handler/controller.go:285-296 | With one-page listings, the deletion of a workload of any kind takes exactly what it owns by kind and name, and its ReplicaSets' pods, if and only if nothing that is taken names a namesake of another kind only. |
| Cascade.NamesakesAreTaken | honeypots/k8s/handler/api.go:1949-1968 | Deleting Deployment "web" takes the pod of StatefulSet "web", and deleting that one takes the Deployment's ReplicaSet. |
| Pointers.ParsePointer | honeypots/k8s/handler/api.go:2829-2838 | The loop yields the unescaped segments; the empty path has none. |
| Pointers.PointerRoundTrip | honeypots/k8s/handler/api.go:2829-2838 | For every non-empty list of segments, escaping, joining and parsing gives the list back (section 4 of RFC 6901). |
| Pointers.FirstSlashOptional | honeypots/k8s/handler/api.go:2829-2838 | A pointer may leave out its first slash. |
| Pointers.OrderMatters | honeypots/k8s/handler/api.go:2834-2835 | Replacing "~0" before "~1" would read the segment "~1" back as a slash. |
| Patch.ResolvePatchTarget | honeypots/k8s/handler/api.go:2840-2867 | The walk finds what the recursive reading of the pointer finds, through objects only. |
| Patch.PatchWrite | honeypots/k8s/handler/api.go:2869-2917 | The iterative walk, the leaf write and the rebuilding of its parents equal the recursive write. |
| Patch.ApplyJSONPatch | honeypots/k8s/handler/api.go:2789-2827 | The loop over the operations stops at the first failure with what was written so far; what each operation does is said by the laws below. |
| Patch.ApplyConcat | honeypots/k8s/handler/api.go:2789-2827 | A list does what its first part does and, if that succeeds, what the rest does after it. |
| Patch.AddSets | honeypots/k8s/handler/api.go:2816-2819 | add and replace succeed at an object member, which then resolves to the value; every pointer diverging from it resolves as before. |
| Patch.RemoveClears | honeypots/k8s/handler/api.go:2820-2823 | remove succeeds at an object member, which is then missing; every diverging pointer resolves as before. |
| Patch.CopyCopies | honeypots/k8s/handler/api.go:2801-2819 | copy to an object member makes it resolve as the source does, refuses a missing source, and leaves every diverging pointer as before, a diverging source included. |
| Patch.TestDecides | honeypots/k8s/handler/api.go:2793-2800 | test never changes the document, and succeeds exactly if the path resolves to a value that prints like the given one. |
| Patch.PrintedWhole | honeypots/k8s/handler/api.go:2958-2968 | For decoded values printing alike is being equal. |
| Patch.UnknownIgnored | honeypots/k8s/handler/api.go:2815-2824 | Any other operation succeeds and changes nothing. |
| Patch.MoveFrames | honeypots/k8s/handler/api.go:2801-2819 | A move refuses a missing source and leaves every pointer that diverges from both places as before. |
| Patch.MemberWritten | honeypots/k8s/handler/api.go:2881-2890 | In an existing object a write sets the member, or deletes it, and keeps all others. |
| Patch.ItemWritten | honeypots/k8s/handler/api.go:2891-2914 | In an existing array a write at n inserts before item n, for n up to the length, or takes item n out, for n below it; the other items keep their order. |
| Patch.OnlyNumbersAddress | honeypots/k8s/handler/api.go:2895-2902 | "-" and any text that does not begin like a number address no array place. |
| Patch.WriteSucceeds | honeypots/k8s/handler/api.go:2869-2956 | A write succeeds exactly at a member of an object (existing or created on the way) or at an array index in range. |
| Patch.RefusedWriteChangesNothing | honeypots/k8s/handler/api.go:2869-2956 | A refused write leaves the document as it was, although the walk creates missing parents. |
| Patch.WriteThenRead | honeypots/k8s/handler/api.go:2840-2917 | After a successful write the pointer resolves to the value, or to nothing after a removal, when the leaf is an object member, and to nothing when it is an array position. |
| Patch.InsertedIsNotRead | honeypots/k8s/handler/api.go:2840-2917 | A value inserted at the front of an array is there, and the pointer that put it there finds nothing. |
| Patch.WriteFrames | honeypots/k8s/handler/api.go:2869-2956 | Every pointer that diverges from the written one resolves as before, even when parents are created. |
| Patch.AddThenRemove | honeypots/k8s/handler/api.go:2869-2917 | Adding and removing at one pointer restores the document exactly at an array position or at an absent member of an existing parent (sections 4.1 and 4.2 of RFC 6902). |
| Patch.RemovalDoesNotRestore | honeypots/k8s/handler/api.go:2869-2917 | Removing what was added under a missing parent leaves the parent behind; removing what was added over a member leaves nothing of it. |
| Patch.MoveMoves | honeypots/k8s/handler/api.go:2801-2819 | A move to a diverging pointer puts the value there and leaves nothing at its source. |
| Merge.MergeObject | honeypots/k8s/handler/api.go:2770-2784 | The loop over the patch in any order computes the recursive merge. |
| Merge.MergedMember | honeypots/k8s/handler/api.go:2770-2784 | What becomes of each member: kept if not named, gone if null, merged if both are objects, otherwise replaced. |
| Merge.MergeFrames | honeypots/k8s/handler/api.go:2770-2784 | Whatever the patch does not name, at any depth, reads as before. |
| Merge.MergeAgrees | honeypots/k8s/handler/api.go:2770-2784 | On an object copied out of the store it equals MergePatch of section 2 of RFC 7396 exactly when every object of the patch that lands where the destination has none is free of null members, and every typed map of the patch that lands on an object names all its members. |
| Merge.MergeIdempotent | honeypots/k8s/handler/api.go:2770-2784 | Merging the patch twice equals merging it once exactly when every object of the patch that lands where the destination has none is free of null members. |
| Merge.FreshMerge | honeypots/k8s/handler/api.go:2770-2784 | Where the destination has no object, RFC 7396 keeps the patch itself exactly when it has no null member. |
| Merge.NestedNullIsKept | honeypots/k8s/handler/api.go:2770-2784 | A null below a member that the destination lacks is kept, against RFC 7396, and removed by a second merge. |
| Merge.TypedPatchReplaces | honeypots/k8s/handler/api.go:2128-2152 | A ConfigMap patched with a protobuf body loses the entries that the patch does not name. |
| Wire.ProtoBytesFields | honeypots/k8s/handler/api.go:2434-2458 | The loop ends and splits the message as the recursive reading does, or reports it malformed. |
| Wire.ProtoVarintFields | honeypots/k8s/handler/api.go:2460-2484 | The same for the varint fields. |
| Wire.MessageBytes | honeypots/k8s/handler/api.go:2434-2458 | For every message of tagged fields, groups included, reading its encoding gives for each number its length-delimited payloads in order. |
| Wire.MessageVarints | honeypots/k8s/handler/api.go:2460-2484 | And for each number the last varint written under it, or none. |
| Wire.CutMessageRefused | honeypots/k8s/handler/api.go:2434-2484 | A message that ends anywhere inside a field is refused as a whole, by both splitters. |
| Wire.BadTagRefused | honeypots/k8s/handler/api.go:2434-2484 | So is one with field number 0, a reserved wire type or the end of a group that was not begun, after any fields and before anything. |
| Wire.PayloadSkips | honeypots/k8s/handler/api.go:2445-2452 | Skipping a field of any wire type, nested groups included, consumes exactly its encoding. |
| Wire.VarintRoundTrip | honeypots/k8s/handler/api.go:2460-2484 | Every 64-bit value written as a varint is read back with its exact length, whatever follows. |
| Wire.ProtoStringMap | honeypots/k8s/handler/api.go:2515-2527 | The loop keeps the last value of each key and passes over entries that do not parse. |
| Wire.StringMapRoundTrip | honeypots/k8s/handler/api.go:2515-2527 | A string map written as entries of one field, among any other fields, is read back as that map. |
| Wire.MapRoundTrip | honeypots/k8s/handler/api.go:2515-2527 | So any map is read back, in whatever order its entries were written. |
| Nesting.WithinDepth | honeypots/ai/ai.go:329-355 | The quote, escape and depth loop refuses exactly what the scan calls too deep. |
| Nesting.ScannerDecidesDepth | honeypots/ai/ai.go:329-355 | For every JSON tree and every text of it (any white space, any string escapes) the scanner accepts exactly when containers nest at most 32 deep. |
| Shipper.ExecutionInv | logger/sink.go:100-177 | In every interleaving of emitters, runner and closer: conservation, batch limits and the closing order hold in every state. |
| Shipper.NothingLost | logger/sink.go:100-177 | Accepted events are the finished batches, the current batch and the queue, in order; the dropped count is the refused emits plus the events of batches that failed twice. |
| Shipper.AttemptsPerBatch | logger/sink.go:162-177 | Over every execution: a batch that was given up had exactly two failed attempts and no other, and a delivered one exactly one successful attempt after at most one that failed; each was ended by its last attempt. |
| Shipper.SecondFailureDrops | logger/sink.go:162-177 | An attempt adds to the dropped count exactly if it is the second failure of its batch, and then the size of the batch; a first failure keeps the batch for another attempt. |
| Shipper.GoesOutExactly | logger/sink.go:125-160 | In the normal loop a delivery begins exactly at a tick with a batch that is not empty, or with the event that makes it 64 events or 256 KiB, and is of all that was collected. |
| Shipper.RefusedExactly | logger/sink.go:100-110 | An Emit is refused and counted exactly if it finds the flag set or 1024 events queued; otherwise its event joins the queue at the end. |
| Shipper.BatchLimits | logger/sink.go:125-160 | Every batch but what the final drain sends has 1 to 64 events and less than 256 KiB before its last one. |
| Shipper.CloseAccountsForAll | logger/sink.go:114-123 | Once the runner has exited, each event whose Emit finished before Close began was refused and counted, or went out in a batch that was delivered or counted. |
| Shipper.StrandingExactly | logger/sink.go:100-123 | In any reachable state in which Close can begin: some interleaving leaves an event in the queue after the runner exited if and only if some Emit is past its check of the flag. |
| Shipper.NothingLeftBehind | logger/sink.go:114-177 | If none is, then in every interleaving all accepted events have gone out in batches once the runner exited. |
| Shipper.LateEmitCanBeStranded | logger/sink.go:100-112 | The smallest such run: one Emit that overlaps Close leaves its event in the queue for good, uncounted. |
| Docker.Sensor.constructor | honeypots/docker/docker.go:65-69 | The host starts with one running container named "web". |
| Docker.Sensor.Lookup | honeypots/docker/docker.go:331-345 | The loop with its running match finds the same container in any order of the map. |
| Docker.Sensor.CreateContainer | honeypots/docker/docker.go:219-244 | Which refusal, or the new container, its bytes and its name. |
| Docker.Sensor.OnContainerRequest | honeypots/docker/docker.go:248-304 | Delete, start, stop, kill, restart and exec: the answer and the whole new state. |
| Docker.Sensor.Release | honeypots/docker/docker.go:259-265 | Frees the container's bytes and deletes exactly its execs, in any order of the map. |
| DockerModel.RunInv | honeypots/docker/docker.go:219-304 | Over every sequence of requests with fresh identifiers: names unique, bytes equal to the sum of sizes and at most 8 MiB, at most 128 containers and 128 execs, every exec's container alive. |
| DockerModel.HostRunInv | honeypots/docker/docker.go:65-69 | So all this holds whatever is asked of a host since it started. |
| DockerModel.CreateThenDelete | honeypots/docker/docker.go:219-267 | Creating a container and deleting it restores the host exactly. |
| DockerModel.CreateExactly | honeypots/docker/docker.go:219-244 | A container is made exactly if the image has 1 to 256 characters, there are fewer than 128 containers, its bytes fit 8 MiB, an identifier was drawn, and the name is valid and not taken; then it is "created" and nothing else changes; every refusal leaves the host as it was. |
| DockerModel.DeleteExactly | honeypots/docker/docker.go:255-267 | A deletion without force of a running container answers 409 and changes nothing; every other deletion of a container that is found answers 204 and takes the container, its bytes and its execs. |
| DockerModel.LifecycleExactly | honeypots/docker/docker.go:273-283 | start and restart leave it running, stop and kill exited; 304 exactly if it was so already and this is no restart; nothing else changes. |
| DockerModel.ExecExactly | honeypots/docker/docker.go:284-297 | An exec needs a running container, fewer than 128 execs and an identifier, refused in that order, and belongs to that container. |
| DockerModel.OthersOnlyRead | honeypots/docker/docker.go:268-304 | Every other request on a container changes nothing, and answers 200 exactly for the inspection of one that is found. |
| DockerModel.ExecOnlyReads | honeypots/docker/docker.go:305-325 | Requests on an exec change nothing; start answers 501 and inspection 200 exactly for an exec that exists. |
| DockerModel.DeletionReleases | honeypots/docker/docker.go:255-267 | Deletion frees exactly the container's bytes and takes exactly its execs. |
| DockerModel.LifecycleIdempotent | honeypots/docker/docker.go:273-283 | Repeating start, stop or kill changes nothing and answers 304; restart always answers 204. |
| DockerModel.ExecAfterLifecycle | honeypots/docker/docker.go:273-297 | After stop or kill an exec on the same reference is refused, after start or restart it never is for that reason, and the exec belongs to that container. |
| DockerModel.FindDecides | honeypots/docker/docker.go:331-345 | A reference resolves to a container exactly when it is its identifier, or no identifier and the only one it fits by name or by a prefix of at least 12 characters. |
| Names.ValidObjectName | honeypots/k8s/handler/api.go:2741-2757 | Accepts exactly the DNS subdomains. |
| Names.ValidNamespaceName | honeypots/k8s/handler/api.go:2759-2761 | Accepts exactly the DNS labels. |
| Names.ValidSecretDataKey | honeypots/k8s/handler/state.go:638-649 | Accepts exactly 1 to 253 letters, digits, '-', '_' and '.'. |
| Names.ValidTokenName | config/config.go:513-528 | Accepts exactly the same names as the API's validator. |
| Names.ValidDNSLabel | config/config.go:620-630 | Accepts exactly the same labels as the API's validator. |
| EnvTokens.ParseEnvHoneytokens | config/config.go:278-316 | The loops compute the parse of the whole variable, each error with its entry number. |
| EnvTokens.PrintThenParse | config/config.go:278-316 | Printing 1 to 64 tokens with valid names, namespaces and keys and values free of ',' and ';', in any order of their data, and parsing gives the tokens, each last value without its trailing white space. |
| EnvTokens.SpellingsAgree | config/config.go:278-316 | In whatever order a token's data is written, it is that token. |
| EnvTokens.RoundTripExactly | config/config.go:278-316 | The very same tokens come back exactly when no last value ends in white space. |
| EnvTokens.TrailingSpaceIsLost | config/config.go:278-316 | Two tokens of which the first comes back without the last space of its value. |
| ConfigRules.ValidateNamespaces | config/config.go:534-549 | Accepts exactly at most 64 pairwise distinct DNS labels. |
| ConfigRules.ValidHoneytokenType | config/config.go:632-644 | Accepts exactly "Opaque" and a subdomain and a label around one slash, within 256 characters. |
| ConfigRules.ValidateHoneytokens | config/config.go:551-618 | Accepts exactly at most 64 valid tokens, distinct by namespace and name, within the entry and byte totals. |
| ConfigRules.SecretIdInjective | config/config.go:583-587 | The joined identifier tells (namespace, name) pairs apart. |
| Base64.RoundTrip | honeypots/k8s/handler/state.go:634 | Decoding an encoded value gives its bytes back. |
| Base64.EncodeLength | honeypots/k8s/handler/state.go:628-634 | The encoded length is the one the budget is charged with, and no character needs a JSON escape. |
| Seeder.EncodeSecretData | honeypots/k8s/handler/state.go:618-636 | In any order of the map it succeeds exactly when there are at most 512 entries with valid keys and the keys and encoded values add up to at most 256 KiB; then every value is encoded. |
| Seeder.CollectNamespaces | honeypots/k8s/handler/state.go:343-378 | The order in which namespaces are seeded: built in, needed by a honeytoken, configured; each once, at most 128. |
| Seeder.SeedItem | honeypots/k8s/handler/state.go:284-300 | One seeded object: metadata filled in, put as ADDED, counted only if stored, none after 512. |
| SeedGuarantee.PreparedExactly | honeypots/k8s/handler/state.go:284-300 | Seeding writes the version, the kind if the catalog has one, and the metadata; every other member stays. |
| SeedGuarantee.SeedMetadataExactly | honeypots/k8s/handler/state.go:284-300 | Into the metadata it writes name, identifier, a namespace that is not empty, and the creation time unless there is one; every other member stays. |
| Seeder.PrepareSecret | honeypots/k8s/handler/state.go:457-489 | Which honeytoken becomes a Secret, and with what. |
| Seeder.Seed | honeypots/k8s/handler/state.go:326-489 | The store after seeding is that of the seed list in its order, followed by whatever comes later. |
| SeedGuarantee.HoneytokensSeeded | honeypots/k8s/handler/state.go:326-489 | Every honeytoken of a configuration that passes validation is in the store after seeding, with its type and encoded data and beside its Namespace, whatever is seeded after it. |
| SeedGuarantee.ValuesReadBack | honeypots/k8s/handler/state.go:618-636 | Reading such a Secret and decoding its values gives exactly the configured data. |
| SeedGuarantee.NamespacesSeeded | honeypots/k8s/handler/state.go:343-378 | For a valid configuration the seeded namespaces are exactly the built-in and the configured ones, each once; the limit of 128 never cuts one off. |
| SeedGuarantee.NoneSkipped | honeypots/k8s/handler/state.go:457-489 | No honeytoken that validation accepts is passed over by the checks of the seeding. |
| SeedGuarantee.SecretSmall | honeypots/k8s/handler/state.go:284-300 | The Secret of a valid honeytoken, metadata included, encodes to at most 180224 bytes. |
| SeedGuarantee.SmallItemsStored | honeypots/k8s/handler/state.go:284-300 | Small objects under new, distinct keys are all stored while the object and byte budgets last. |
| SeedGuarantee.SeedsNameThemselves | honeypots/k8s/handler/state.go:284-300 | A seeded object names its own key, as the watch replay needs. |
| SeedGuarantee.SeedAllTally | honeypots/k8s/handler/state.go:332-341 | Whatever is seeded, earlier objects keep their contents and each item costs at most one revision and 256 KiB. |

## Left out

- HTTP plumbing, echo contexts, status bodies, TLS, listeners, schema and OpenAPI serving, tables, synthetic logs and metrics, discovery documents, AI reply bodies, the TCP, UDP and HTTP sensors, `defense`, `generator` and `internal/netlimit`: input and output, constant data, or easy members.
- StoreModel.Put: the revision and the watcher identifiers are unbounded where the code counts in 64 bits; a decoded value that cannot be encoded again is not modelled.
- Json.EncodedLength: numbers carry the text that is printed; how a float64 is printed is not computed.
- SeedGuarantee.SeedsNameThemselves: for names and namespaces of valid UTF-8 and bodies that can be decoded again, which validated and built-in ones are.
- ListRequests.PagesConcatenate: the revision and the page of one request are read in one step, where the code takes the lock twice; the base64 and JSON of a token and the digest of its query are the decoded values and the digested text.
- Watching.WatchThenList: flushing, heartbeats and the time limit of a watch are not modelled; the client is the reader of the channel.
- Aliasing.RunRepresents: the stamp that put writes into the caller's object is one of the caller's writes; which watchers are interested is left open, so every choice of deliveries is covered; `Aliasing.PutMeans` and `Aliasing.DeleteMeans` take the store's own choice.
- Controller.Controller.MaterializeDeployment: pods carry their owners and template; node names, addresses, Events, Endpoints and rollout revisions are not modelled; which puts the store refuses, and how long an accepted object encodes, are inputs.
- Convergence.DeploymentConverges: assumes that both listings of the namespace fit one page by count and bytes, that no pod names two owners, and that no put is refused, as the reconciler itself does.
- Cascade.NothingRemainsExactly: that the condition is necessary is proved for pods with one owner each and for Deployments that own no ReplicaSet of their own name; a pod of two owners can be reaped at the turn of either.
- Patch.PatchWrite: works on immutable trees; that `copy` shares its subtree, so that a later write through one place shows at the other, is not captured. `replace` at an array index inserts and `remove` of a missing member succeeds, as in the code; no conformance to RFC 6902 is claimed there.
- Merge.MergeObject: works on immutable trees; the in-place update of the destination is not captured.
- Wire.ProtoBytesFields: the typed decoders built on the field splitters are not modelled.
- Nesting.WithinDepth: the JSON parser behind the scanner is not modelled.
- Shipper.ExecutionInv: batches leave on size, bytes or a tick that may come at any time; the pause between the two attempts and the sinks' own work are not modelled.
- Docker.Sensor.CreateContainer: identifiers are inputs and fresh; the name pattern is a predicate on the name; listing and inspection answers are not modelled.
- EnvTokens.PrintThenParse: the printer is the model's own, since the code has none.
- Seeder.Seed: the clock, the UID digest, the kinds of the catalog and the bodies of the sixteen fixed cluster objects are inputs; legacy tokens and everything seeded after the honeytokens are an arbitrary list.
- SeedGuarantee.HoneytokensSeeded: takes UIDs of 36 characters, a start time of 20 and kinds of at most 63, which is what the code produces.
