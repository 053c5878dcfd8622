# A verified model of the CEL admission polyfill

The polyfill lets clusters without `ValidatingAdmissionPolicy` use it: policies and bindings live in a
custom API group, a webhook evaluates them, clients and a proxy translate between the native group
`admissionregistration.k8s.io` and the custom group `admissionregistration.x-k8s.io`. This project models
the parts of it that hold state or translate data, in Dafny, and proves what they promise. `dafny verify
dfyconfig.toml` checks everything.

| part of the program | files |
|---|---|
| the controller's work queue, workers and shutdown | `WorkQueue`, `Keys`, `ControllerProtocol`, `ControllerQueue`, `ControllerFreshness`, `ControllerProgress`, `ControllerDrain`, `ControllerRuns`, `ControllerLosses`, `Controller` |
| the group-rewriting proxy | `Replacement`, `LineStream`, `Interceptor` |
| the schema cache | `SchemaCache`, `SchemaCacheProtocol` |
| JSON conversion and the translating clients | `Json`, `Conversion`, `ApiServer`, `TransformedClient`, `PolicyClient` |
| the generated deep copies | `DeepCopy`, `Sharing`, `Blanks` |
| the informer factory | `InformerFactory` |
| validators, the policy plugin and the webhook's handler | `Validators`, `Webhook` |

How the parts are modelled:

- **The controller** is a protocol: events of the informer, expiring delays, the steps of `Run` and of each
  worker, over the store, the pending events and the work queue (`ControllerProtocol`). A run is any legal
  sequence of steps. The class `Controller` is the source's object; each of its methods is proved to make
  steps of the protocol and no others, so what is proved of all runs holds of it. The `workqueue` library is
  given by its contract: `Add` is dropped once shutting down, a key being processed is only marked dirty,
  `Done` puts a dirty key back, `Get` reports shutdown only when no key waits.
- **The proxy** rewrites strings with leftmost non-overlapping replacement. What `ReplaceAll` means is
  pinned down independently: it joins the pieces of the one leftmost cutting of the text. The body of a
  request is a stream cut by a `bufio.Scanner`.
- **The schema cache** is modelled twice: one caller at a time, over histories of discovery changes, resolves
  and purges; and with any number of goroutines, one step per lock section and one clock tick per step.
- **Conversion** works on Go values and JSON trees described by types, field names and `omitempty`. The native
  types have the same fields and tags as the custom ones.
- **The translating client** is compared with a server that stores native objects, over whole histories.
- **Deep copies** work on the heap: a pointer leads to a cell, a slice to an array. The content of a struct is
  a value of the very types that conversion works on. Every copy is told whether `out` is the very struct `in`
  (`onItself`); then what is read through `in` is what has just been written through `out`, pointer by pointer
  and slice by slice, as in the source.
- **The informer factory** is a class and a step machine; a step is a section under the factory's lock or the
  end of a goroutine.
- **Validators** form trees of compositions. What a validator answers may depend on every call made before.

Where the code and its comments or names disagree, the model follows the code:

- A deletion that the informer missed is delivered as a tombstone, from which no key can be taken
  (`pkg/controller/generic.go:66-74`), so it can be lost for good. `ControllerLosses.MissedDeletion` says
  exactly when: if the key was not outstanding at the time, was recorded as present or about to be, and
  neither its object changes nor its reconciliation fails afterwards. `MissedDeletionLoses` gives runs.
- A failure that is requeued while the queue drains is dropped. `ControllerDrain.RetriedExactly`: the key is
  reconciled again if and only if it was marked dirty meanwhile. `ControllerLosses.RetryLost` gives, for every
  key whose reconciliation can fail, a run in which it is not.
- The promise that keys get reconciled holds exactly of keys that a worker looks up under themselves
  (`UpToDateExactly`): keys with a leading slash or a second slash are left behind.
- If the context is cancelled before a worker enters its loop, `Run` returns with the queue as it was
  (`DrainOnShutdown`; `ControllerLosses.UnattendedIsLeft` is such a run for any key).
- The proxy writes the lines of a request without their line ends, and nothing from the first over-long line on
  (`StreamLosesLineEnds`, `StreamStopsAtLongLine`); the server gets the rewritten body only if that is one line
  (`RequestBodyExact`).
- The schema cache is meant to be purged when a CRD changes, but its handlers purge the kind of the CRD object
  itself, not the kind that it defines (`pkg/controller/schemaresolver/resolver.go:48-63`).
  `HandlersRefineExactly`: with every change announced by its event, resolving returns what discovery says in
  all histories exactly if the two kinds are the same; `WidgetsAreMissed` is a kind for which they are not.
- The comments on `DeepCopyInto` ask only that `in` is not nil, but a struct that is copied onto itself is
  blanked: behind each pointer and in each slice there are zeros afterwards
  (`pkg/apis/admissionregistration.x-k8s.io/v1alpha1/zz_generated.deepcopy.go:350-385`). The content is kept
  exactly if `out` is not `in`, or there was nothing but zeros to begin with (`DeepCopyPolicyInto` and the three
  like it); `FailIsLost` is a policy that is not kept. `DeepCopy` itself always copies into something new.
- Objects converted to the native type carry `apiregistration.k8s.io/v1alpha1`, which is not the native group
  (`pkg/controller/admissionregistration.x-k8s.io/v1alpha1/injected_client.go:94`): an object with its proper
  version never comes back as it was (`NativeRoundTrip`).
- A write through the translating client whose answer cannot be converted is reported as failed although it
  has been made. `TransformedClient.MisreportedExactly` says when, `CreatedThoughRefused` gives such a write,
  and `PolicyClientNeverMisreports` shows that the JSON converters never come to it.

## Model

| member | source | states |
|---|---|---|
| `Keys.KeyRoundTrip` | pkg/controller/generic.go:204 | the key of a namespace and name splits back into them if and only if neither holds a slash |
| `Keys.LookupIsExact` | pkg/controller/generic.go:196-225 | the lister is asked for the very key that was taken if and only if the key splits and has no leading slash |
| `Keys.EventKeyLooksUp` | pkg/controller/lister.go:26-64 | the key enqueued for an object looks up that object, namespaced or not |
| `Keys.KeysExactly` | pkg/controller/generic.go:196-214 | what keys look like, how they are split, and which key each lister looks up |
| `Keys.SecondSlashIsRefused` | pkg/controller/generic.go:204-208 | a key with two slashes does not split |
| `WorkQueue.AddKeepsValid` | pkg/controller/generic.go:73 | adding a key keeps the queue's invariant: waiting keys are the dirty ones not in process, each once |
| `WorkQueue.GetKeepsValid` | pkg/controller/generic.go:149 | taking a key keeps the queue's invariant, moves the first waiting key to processing, where it waits no more and is not dirty, and moves no other |
| `WorkQueue.DoneKeepsValid` | pkg/controller/generic.go:162 | reporting a key done keeps the queue's invariant, also when the key waits again |
| `ControllerProtocol.InitInv` | pkg/controller/generic.go:40-60 | the protocol starts in its invariant |
| `ControllerProtocol.StepInv` | pkg/controller/generic.go:62-226 | every step keeps the invariant: valid queue, one holder for each key in process, workers only where `Run` has got to, waiting keys attended during shutdown |
| `ControllerProtocol.RunInv` | pkg/controller/generic.go:62-226 | every run keeps the invariant |
| `ControllerQueue.ChangesExactly` | pkg/controller/generic.go:79-106 | which event announces which change of the store |
| `ControllerQueue.DeliverExactly` | pkg/controller/generic.go:66-106 | handling an event marks exactly the key dirty that it calls for: that of an object added, updated with a new version, or deleted and delivered; nothing during shutdown |
| `ControllerQueue.DelaysExactly` | pkg/controller/generic.go:178-182 | a failed key is delayed, and dirty when the delay is over; neither during shutdown |
| `ControllerQueue.TakenInOrder` | pkg/controller/generic.go:147-152 | in every run, workers take keys in the order in which they came to wait, none left out and none twice |
| `ControllerQueue.FailuresAreCounted` | pkg/controller/generic.go:178-185 | in every run, the limiter's count for a key is the number of its requeues since it was last forgotten |
| `ControllerQueue.CancelledStaysOut` | pkg/controller/generic.go:124-128 | a worker that has not started when the context is cancelled never enters its loop |
| `ControllerQueue.UnsyncedReconcilesNothing` | pkg/controller/generic.go:110-118 | if the cache is not synced, `Run` gives up and nothing is ever handed to `reconcile` |
| `ControllerQueue.EndsInTurn` | pkg/controller/generic.go:132-144 | shutdown follows cancelling, draining ends with no key in process, and `Run` returns when all workers have exited |
| `ControllerFreshness.StepCovered` | pkg/controller/generic.go:62-226 | every step keeps a key covered: up to date or on its way to a worker that has yet to read, and announced if a worker reads something stale |
| `ControllerFreshness.NoLostUpdate` | pkg/controller/generic.go:62-226 | in every run before shutdown, a key that is not up to date has a pending event, is dirty, delayed or held by a worker that is yet to read the store, to hand over what is stored now, or to requeue |
| `ControllerFreshness.QuietIsUpToDate` | pkg/controller/generic.go:62-226 | whenever nothing is pending anywhere, every key is up to date |
| `ControllerLosses.UpToDateExactly` | pkg/controller/generic.go:196-226 | the promise of being up to date in quiet states holds in all runs of exactly the keys that look themselves up |
| `ControllerLosses.LeftBehind` | pkg/controller/generic.go:204-208 | for any other key there is a run that leaves it behind for good |
| `ControllerLosses.MissedDeletion` | pkg/controller/generic.go:102-105 | after a deletion delivered as a tombstone, whenever all is quiet again: the key is up to date if and only if it has been read since or was neither recorded as present nor about to be; and it has been read if and only if it was outstanding, or its object changed or its reconciliation failed since |
| `ControllerLosses.RereadsExactly` | pkg/controller/generic.go:62-226 | up to a point where a key is not outstanding, a worker has read it if and only if it was outstanding before, or its object has changed or its reconciliation failed |
| `ControllerLosses.RereadRunCovers` | pkg/controller/generic.go:196-226 | once a worker reads a key, nothing lost earlier matters: the key is covered from then on |
| `ControllerLosses.MissedDeletionLoses` | pkg/controller/generic.go:66-74 | for any key that a worker looks up under itself there is a run in which a tombstone deletion leaves it out of date in a quiet state; for the others see `LeftBehind` |
| `ControllerLosses.RetryLost` | pkg/controller/generic.go:178-182 | for any key whose reconciliation can fail there is a run in which it fails while the queue drains, is never tried again, and is left out of date |
| `ControllerLosses.UnattendedIsLeft` | pkg/controller/generic.go:122-141 | for any key there is a run in which it is accepted and still waits when `Run` has returned, no worker having entered its loop |
| `ControllerProgress.SettlingEnds` | pkg/controller/generic.go:62-194 | without changes to the store and without failures, a run of handlers, delays and workers is bounded by the work there is |
| `ControllerProgress.ComesToRest` | pkg/controller/generic.go:147-194 | before shutdown, with a worker in its loop, such steps lead to a state where nothing is pending anywhere |
| `ControllerProgress.EventuallyUpToDate` | pkg/controller/generic.go:62-226 | from any point of any run before shutdown, with a worker in its loop, any such steps can be continued to a rest in which every key that looks itself up is up to date |
| `ControllerDrain.OneWorkerPerKey` | pkg/controller/generic.go:147-194 | in every run no two workers hold the same key |
| `ControllerDrain.CallsBalance` | pkg/controller/generic.go:149-188 | in every run, each key a worker takes is reconciled once, then takes one of Forget and AddRateLimited, then one Done, up to the key it holds |
| `ControllerDrain.WaitingIsHandedOver` | pkg/controller/generic.go:147-225 | a key that waits and later waits no more has been handed to `reconcile` in between |
| `ControllerDrain.DrainOnShutdown` | pkg/controller/generic.go:122-145 | when `Run` returns all workers have exited, and the queue is empty if and only if some worker entered its loop or nothing was ever accepted |
| `ControllerDrain.AcceptedIsReconciled` | pkg/controller/generic.go:132-145 | every key accepted at any point has been handed to `reconcile` after that point when `Run` returns, given that some worker entered its loop |
| `ControllerDrain.HandedOverExactly` | pkg/controller/generic.go:122-194 | from any point on until `Run` returns with a worker having entered its loop, a key is handed to `reconcile` if and only if it waits at that point or is accepted later |
| `ControllerDrain.RetriedExactly` | pkg/controller/generic.go:178-182 | until `Run` returns, a failed key is reconciled again if and only if it was dirty when requeued or is accepted later; during shutdown, if and only if it was dirty |
| `ControllerDrain.ReturnedIsDrained` | pkg/controller/generic.go:137-141 | after `Run` has returned, queue, dirty set and processing set are empty, given that some worker entered its loop |
| `ControllerDrain.NeverStuck` | pkg/controller/generic.go:132-145 | from shutdown on, until `Run` returns, some worker or `Run` itself can make a step |
| `ControllerDrain.DrainingEnds` | pkg/controller/generic.go:132-145 | workers and `Run` make a bounded number of steps after shutdown, whatever the informer, the clock and the reconciler do |
| `Controller.Controller.Enqueue` | pkg/controller/generic.go:66-74 | the key of the object is added, nothing is if no key can be taken |
| `Controller.Controller.OnAdd` | pkg/controller/generic.go:80-82 | the handler makes the delivery step of the protocol |
| `Controller.Controller.OnUpdate` | pkg/controller/generic.go:83-101 | likewise for updates, those with an unchanged resource version or without metadata being dropped |
| `Controller.Controller.OnDelete` | pkg/controller/generic.go:102-105 | likewise for deletions, tombstones being dropped |
| `Controller.Controller.Reconcile` | pkg/controller/generic.go:196-226 | the reconciler is given what the store holds under the key's namespace and name; which errors ask for a retry; the steps taken are a run of the protocol |
| `Controller.Controller.ProcessNext` | pkg/controller/generic.go:149-192 | one turn of the loop is a run of the protocol that ends with the worker idle and shrinks a draining queue |
| `Controller.Controller.RunWorker` | pkg/controller/generic.go:147-194 | a worker runs the protocol until no key waits, hands over every key that waited, and then exits if the queue is shutting down or else waits in `Get` |
| `Replacement.ReplaceAllIsJoin` | cmd/interceptor/main.go:58-78 | replacing is joining the pieces of a cutting of the text with the replacement, where joining them with the pattern gives the text |
| `Replacement.SegmentsAreLeftmost` | cmd/interceptor/main.go:58-78 | each cut of that cutting is at the first occurrence in the rest of the text |
| `Replacement.LeftmostCutsAreUnique` | cmd/interceptor/main.go:58-78 | a text has only one leftmost cutting, so the two rows above admit no other replacement |
| `Replacement.ReplacingBack` | cmd/interceptor/main.go:58-78 | replacing back restores every text without the replacement, if the replacement cannot overlap itself |
| `Replacement.NoneLeft` | cmd/interceptor/main.go:58-78 | no occurrence of the pattern is left, if pattern and replacement overlap neither the pattern nor each other |
| `Replacement.ReplaceAllLength` | cmd/interceptor/main.go:58-78 | each occurrence changes the length by the same difference |
| `Replacement.ReplaceAllActs` | cmd/interceptor/main.go:58-78 | without an occurrence nothing changes; with one, the result holds the replacement |
| `LineStream.StreamBody` | cmd/interceptor/main.go:62-70 | the scanner loop writes the rewritten lines up to the first that does not fit |
| `LineStream.StreamRefinesWhole` | cmd/interceptor/main.go:62-70 | if every line fits, the stream is the whole rewritten body without its line ends |
| `LineStream.StreamIsWholeExactly` | cmd/interceptor/main.go:62-70 | the stream is the rewritten body if and only if the body is a single line that fits and does not end with a carriage return |
| `LineStream.StreamLosesLineEnds` | cmd/interceptor/main.go:65-69 | the stream is never longer than the rewritten body, and shorter as soon as there is a line end |
| `LineStream.StreamStopsAtLongLine` | cmd/interceptor/main.go:65-69 | complete lines that fit are passed on whatever follows; from the first over-long line on nothing is |
| `LineStream.RewriteFirstLine` | cmd/interceptor/main.go:65-69 | cutting off the first line commutes with rewriting the whole text |
| `LineStream.LinesExactly` | cmd/interceptor/main.go:63-66 | how a body is cut into lines, with and without carriage returns and a last line feed |
| `LineStream.StreamExactly` | cmd/interceptor/main.go:62-70 | a line of less than 64 Ki characters is rewritten and passed on without its ending, a longer one ends the stream |
| `Interceptor.NamesApart` | cmd/interceptor/main.go:58-78 | the two group names meet themselves and each other at no offset other than themselves at the front |
| `Interceptor.NamesExactly` | cmd/interceptor/main.go:53-78 | the two names, and what each is rewritten to |
| `Interceptor.JoinPathExactly` | cmd/interceptor/main.go:52 | the target's path and the client's are joined by one slash, whichever brings one |
| `Interceptor.RequestUndone` | cmd/interceptor/main.go:58-78 | rewriting a response undoes rewriting a request if and only if the text is free of the custom name |
| `Interceptor.ResponseUndone` | cmd/interceptor/main.go:58-78 | rewriting a request undoes rewriting a response if and only if the text is free of the native name |
| `Interceptor.RewritingIsComplete` | cmd/interceptor/main.go:58-78 | no native name is left in a request, no custom name in a response |
| `Interceptor.RewritingLengths` | cmd/interceptor/main.go:58-81 | lengths change by two for each occurrence, and occurrences of one name become as many of the other |
| `Interceptor.RequestBodyRefines` | cmd/interceptor/main.go:62-70 | the streamed request body is the rewritten body without line ends, if every line fits |
| `Interceptor.RequestBodyExact` | cmd/interceptor/main.go:62-70 | exactly when the server receives the rewritten body itself |
| `Interceptor.ResponseGuardFires` | cmd/interceptor/main.go:52-75 | the response is rewritten if and only if the request was or the joined path names the custom group by itself |
| `Interceptor.ProxyRequest.Rewrite` | cmd/interceptor/main.go:50-71 | new path, raw path, Accept header, length and body of the outgoing request; all but the target unchanged if the path does not name the native group |
| `Interceptor.ProxyResponse.ModifyResponse` | cmd/interceptor/main.go:72-86 | the body is rewritten without a custom name left, both lengths are that of the new body, a read error is passed on; nothing changes for other paths |
| `SchemaCache.SchemaController.ResolveSchemaFromCache` | pkg/controller/schemaresolver/resolver.go:101-107 | answers from the cache and tells whether there was an entry |
| `SchemaCache.SchemaController.ResolveSchema` | pkg/controller/schemaresolver/resolver.go:75-88 | a cached answer, error or not, or else what discovery says, which is then cached |
| `SchemaCache.SchemaController.PurgeCRDFromCache` | pkg/controller/schemaresolver/resolver.go:90-99 | the loop removes exactly the entries with the group and the kind, and keeps the others as they are |
| `SchemaCache.CacheIsFirstFetch` | pkg/controller/schemaresolver/resolver.go:75-99 | after every history, a kind is cached if and only if it was resolved since its last purge, with the answer of the first such fetch |
| `SchemaCache.ResultIsFirstFetch` | pkg/controller/schemaresolver/resolver.go:75-88 | what resolving returns after every history: the first fetch since the last purge, or else discovery now |
| `SchemaCache.RefinesDirect` | pkg/controller/schemaresolver/resolver.go:75-99 | if every change was followed by a purge, resolving returns what discovery says |
| `SchemaCache.StaleWithoutPurge` | pkg/controller/schemaresolver/resolver.go:75-88 | as long as a cached kind is not purged, resolving returns the cached answer whatever discovery says |
| `SchemaCache.SchemaController.OnAdd` | pkg/controller/schemaresolver/resolver.go:48-51 | the entries of the CRD object's own group and kind are removed, and nothing else |
| `SchemaCache.SchemaController.OnUpdate` | pkg/controller/schemaresolver/resolver.go:52-59 | those of the old object's and of the new object's own group and kind |
| `SchemaCache.SchemaController.OnDelete` | pkg/controller/schemaresolver/resolver.go:60-63 | those of the deleted object's own group and kind |
| `SchemaCache.HandlerNotices` | pkg/controller/schemaresolver/resolver.go:47-64 | after any history, a change and the handling of its event, resolving returns the new answer if and only if the kind was not cached, it is the own kind of a CRD object of the event, or the answer is the same as before |
| `SchemaCache.HandlersRefineExactly` | pkg/controller/schemaresolver/resolver.go:23-64 | in all histories with every change announced by its event, resolving returns what discovery says if and only if the CRD object's own group and kind are those of the kind |
| `SchemaCache.OtherKindMisses` | pkg/controller/schemaresolver/resolver.go:47-64 | for any other own kind there is a history with every change announced in which resolving returns the old answer |
| `SchemaCache.WidgetsAreMissed` | pkg/controller/schemaresolver/resolver.go:50 | such a kind, for CRD objects with their type meta and for those without |
| `SchemaCacheProtocol.RunInv` | pkg/controller/schemaresolver/resolver.go:75-107 | in every interleaving at most one goroutine holds the write lock and every answer is what discovery said at its time |
| `SchemaCacheProtocol.PurgeFreshens` | pkg/controller/schemaresolver/resolver.go:90-99 | after a purge nothing fetched earlier is in the cache or on its way there |
| `SchemaCacheProtocol.RunFresh` | pkg/controller/schemaresolver/resolver.go:75-107 | every run keeps that so |
| `SchemaCacheProtocol.FreshAfterPurge` | pkg/controller/schemaresolver/resolver.go:75-107 | in every interleaving, cached entries and the answers to calls that began after a purge were fetched after it |
| `SchemaCacheProtocol.CurrentAfterPurge` | pkg/controller/schemaresolver/resolver.go:75-107 | such a call returns what discovery says now, if that has not changed since the purge |
| `SchemaCacheProtocol.CallsExactly` | pkg/controller/schemaresolver/resolver.go:75-93 | when a call begins, and what taking the lock and returning change |
| `SchemaCacheProtocol.StepsExactly` | pkg/controller/schemaresolver/resolver.go:75-107 | which steps change the cache and which discovery |
| `SchemaCacheProtocol.CachedIsServed` | pkg/controller/schemaresolver/resolver.go:75-78 | a call whose kind is cached when it looks is resolved with that entry, there and then |
| `SchemaCacheProtocol.ServedFromCache` | pkg/controller/schemaresolver/resolver.go:75-78 | in every run such a call has that entry until it returns, never takes the write lock and never asks discovery |
| `SchemaCacheProtocol.MissIsFetched` | pkg/controller/schemaresolver/resolver.go:76-81 | a call whose kind is not cached goes on to ask discovery |
| `SchemaCacheProtocol.FetchIsCached` | pkg/controller/schemaresolver/resolver.go:80-87 | what discovery says then, error or not, is cached and returned |
| `SchemaCacheProtocol.PurgeIsExact` | pkg/controller/schemaresolver/resolver.go:90-99 | a purge takes away the entries with its group and its kind, and no others |
| `SchemaCacheProtocol.StaleInRuns` | pkg/controller/schemaresolver/resolver.go:75-88 | in every interleaving without a purge of a cached kind that nobody is fetching, the entry stays, and later calls are answered by it whatever discovery says |
| `SchemaCacheProtocol.AnsweredAsAlone` | pkg/controller/schemaresolver/resolver.go:75-107 | in every run with one call at a time, calls are answered as `SchemaCache.Result` says of the history that the run amounts to |
| `Json.RoundTrip` | pkg/controller/admissionregistration.x-k8s.io/v1alpha1/injected_client.go:69-74 | for every type and value, marshalling and reading back gives the normal form |
| `Json.NormalizeExact` | pkg/apis/admissionregistration.x-k8s.io/v1alpha1/types.go:76-578 | a value is its own normal form if and only if it holds no empty slice under `omitempty` |
| `Json.NormalizeClears` | pkg/apis/admissionregistration.x-k8s.io/v1alpha1/types.go:76-578 | a normal form has the same type and no empty slice under `omitempty` |
| `Json.NormalizeTwice` | pkg/controller/admissionregistration.x-k8s.io/v1alpha1/injected_client.go:69-74 | normalizing is idempotent |
| `Json.NormalizeFieldAt` | pkg/apis/admissionregistration.x-k8s.io/v1alpha1/types.go:76-578 | fields are normalized one by one and pointers stay nil or non-nil |
| `Json.MemberExactly` | pkg/apis/admissionregistration.x-k8s.io/v1alpha1/types.go:76-578 | a field is written under its name unless it has `omitempty` and is an empty string, zero, nil or an empty slice |
| `Json.ValuesExactly` | pkg/controller/admissionregistration.x-k8s.io/v1alpha1/injected_client.go:69-74 | how texts, numbers, library values, nil, pointers and slices are written |
| `Conversion.ResourcesWellFormed` | pkg/apis/admissionregistration.x-k8s.io/v1alpha1/types.go:76-578 | the described resource types are fit for JSON: distinct member names, no pointer to a nullable |
| `Conversion.TagsExactly` | pkg/apis/admissionregistration.x-k8s.io/v1alpha1/types.go:76-578 | which fields of the resource types have `omitempty` |
| `Conversion.NamesExactly` | pkg/apis/admissionregistration.x-k8s.io/v1alpha1/types.go:76-578 | the names of all their fields |
| `Conversion.VersionsExactly` | pkg/controller/admissionregistration.x-k8s.io/v1alpha1/injected_client.go:76-94 | the version strings that the converters write, and that one of them is not the native version |
| `Conversion.ConvertedExactly` | pkg/controller/admissionregistration.x-k8s.io/v1alpha1/injected_client.go:63-133 | field by field: a conversion writes the version over an API version that is not empty and otherwise does what JSON does |
| `Conversion.ThroughJson` | pkg/controller/admissionregistration.x-k8s.io/v1alpha1/injected_client.go:69-74 | marshalling and unmarshalling a well-typed value gives its normal form |
| `Conversion.NativeToCRDPolicy` | pkg/controller/admissionregistration.x-k8s.io/v1alpha1/injected_client.go:63-79 | nil for nil, or else the normal form with the custom version where there was one |
| `Conversion.CRDToNativePolicy` | pkg/controller/admissionregistration.x-k8s.io/v1alpha1/injected_client.go:81-97 | nil for nil, or else the normal form with the version that the code writes |
| `Conversion.NativeToCRDPolicyBinding` | pkg/controller/admissionregistration.x-k8s.io/v1alpha1/injected_client.go:99-115 | likewise for bindings |
| `Conversion.CRDToNativePolicyBinding` | pkg/controller/admissionregistration.x-k8s.io/v1alpha1/injected_client.go:117-133 | likewise for bindings |
| `Conversion.ThereAndBack` | pkg/controller/admissionregistration.x-k8s.io/v1alpha1/injected_client.go:63-133 | two conversions give the normal form under the second version, and exactly when they change nothing |
| `Conversion.CRDRoundTrip` | pkg/controller/admissionregistration.x-k8s.io/v1alpha1/injected_client.go:63-133 | custom to native and back is the normal form if and only if the version was empty or the custom one, and the value itself if and only if it also had no empty slices |
| `Conversion.NativeRoundTrip` | pkg/controller/admissionregistration.x-k8s.io/v1alpha1/injected_client.go:63-133 | native to custom and back is the normal form up to the version, never for a proper native version, and idempotent |
| `Conversion.TypeCheckingKept` | pkg/apis/admissionregistration.x-k8s.io/v1alpha1/types.go:92-105 | whether `status.typeChecking` is present survives any conversion |
| `TransformedClient.TransformedClient.Create` | pkg/controller/transformed_client.go:23-40 | converts, creates, converts back; a failing conversion in leaves the store alone, one out does not undo the write |
| `TransformedClient.TransformedClient.Update` | pkg/controller/transformed_client.go:42-59 | likewise |
| `TransformedClient.TransformedClient.UpdateStatus` | pkg/controller/transformed_client.go:61-78 | likewise |
| `TransformedClient.TransformedClient.Delete` | pkg/controller/transformed_client.go:80-82 | passes the request on |
| `TransformedClient.TransformedClient.DeleteCollection` | pkg/controller/transformed_client.go:84-86 | passes the request on |
| `TransformedClient.TransformedClient.Get` | pkg/controller/transformed_client.go:88-100 | converts what it gets |
| `TransformedClient.TransformedClient.List` | pkg/controller/transformed_client.go:102-121 | the loop answers as `ListExactly` says; the list's own metadata is gone |
| `TransformedClient.ConvertNext` | pkg/controller/transformed_client.go:110-118 | the first item that cannot be converted decides |
| `ApiServer.CreateExactly` | pkg/controller/transformed_client.go:29 | when the server stores a new object, and where |
| `ApiServer.ReplaceExactly` | pkg/controller/transformed_client.go:48-67 | when it replaces one, and by what |
| `ApiServer.GetAndDeleteExactly` | pkg/controller/transformed_client.go:80-89 | which object it returns and deletes |
| `ApiServer.FoldExactly` | pkg/controller/transformed_client.go:123-144 | what a cache holds after one more event |
| `TransformedClient.ListExactly` | pkg/controller/transformed_client.go:102-121 | the answer to a list: every stored object, converted, in order; or else the error of the first that cannot be converted |
| `TransformedClient.WritesExactly` | pkg/controller/transformed_client.go:23-78 | what Create, Update and UpdateStatus ask of the server and answer, for an object that can and one that cannot be converted, either way |
| `TransformedClient.OthersExactly` | pkg/controller/transformed_client.go:80-100 | what Get, Delete and DeleteCollection ask and answer |
| `TransformedClient.OutcomesAt` | pkg/controller/transformed_client.go:23-121 | a history has one answer for each request, given in the state that those before it have led to |
| `TransformedClient.StepSimulates` | pkg/controller/transformed_client.go:23-121 | one request keeps the stores mirrored and gets the native server's answer, for any coherent conversion |
| `TransformedClient.ClientSimulates` | pkg/controller/transformed_client.go:23-121 | so does every history of requests, convertible or not |
| `TransformedClient.MisreportedExactly` | pkg/controller/transformed_client.go:23-78 | a request is answered with an error although it changed the store if and only if it is a write that the server makes and whose answer cannot be converted; a refused write leaves the store alone if and only if it could not be converted or the server refused it |
| `TransformedClient.ErrorsLeaveNoTrace` | pkg/controller/transformed_client.go:23-121 | over every history without such a request, the store is what the successful requests alone make of it |
| `TransformedClient.CreatedThoughRefused` | pkg/controller/transformed_client.go:29-37 | a new object whose stored form cannot be converted is stored though the client is told that creating it failed, and trying again fails because it exists |
| `TransformedClient.UnreadableInstance` | pkg/controller/transformed_client.go:29-37 | a pair of conversions and an object for which that happens |
| `TransformedClient.Watch` | pkg/controller/transformed_client.go:123-144 | the filter loop overwrites the object of each event and drops those that cannot be converted |
| `TransformedClient.WatchKeepsEvents` | pkg/controller/transformed_client.go:129-143 | order, types and foreign objects are kept; exactly the unconvertible events are dropped |
| `TransformedClient.FilterExactly` | pkg/controller/transformed_client.go:129-143 | what becomes of a single event, with its type, by what it carries |
| `TransformedClient.FilterBoth` | pkg/controller/transformed_client.go:129-143 | events are filtered one by one, in order |
| `TransformedClient.ListThenWatch` | pkg/controller/transformed_client.go:102-144 | folding converted events into a converted list is converting the fold of the raw events into the raw list |
| `PolicyClient.ConversionIsCoherent` | pkg/controller/admissionregistration.x-k8s.io/v1alpha1/injected_client.go:22-42 | the JSON converters satisfy what the simulation asks of a conversion |
| `PolicyClient.SchemaExactly` | pkg/controller/admissionregistration.x-k8s.io/v1alpha1/injected_client.go:22-42 | what the server looks at and changes in policies and bindings |
| `PolicyClient.PolicyClientSimulates` | pkg/controller/admissionregistration.x-k8s.io/v1alpha1/injected_client.go:22-42 | the wrapped clients answer every history like a server of native objects, up to both conversions, from any two stores whose objects have the same normal form |
| `PolicyClient.AnyStoreIsServed` | pkg/controller/admissionregistration.x-k8s.io/v1alpha1/injected_client.go:22-42 | in particular from any typed custom objects, whoever has written them, as a native server that has the same ones |
| `PolicyClient.MirrorsReadTheSame` | pkg/controller/admissionregistration.x-k8s.io/v1alpha1/injected_client.go:63-133 | objects that the clients have converted have the same normal form as their originals |
| `PolicyClient.ObjectsComeBack` | pkg/controller/admissionregistration.x-k8s.io/v1alpha1/injected_client.go:63-133 | what both conversions do to an object: its normal form, under the version string written |
| `PolicyClient.PolicyClientNeverMisreports` | pkg/controller/admissionregistration.x-k8s.io/v1alpha1/injected_client.go:22-42 | over every history, the clients for policies and bindings report no write as failed that has been made |
| `PolicyClient.PolicyListThenWatch` | pkg/controller/admissionregistration.x-k8s.io/v1alpha1/injected_client.go:22-42 | no event on a policy or binding is dropped, and listing then watching commutes with conversion |
| `DeepCopy.CopyPointer` | pkg/apis/admissionregistration.x-k8s.io/v1alpha1/zz_generated.deepcopy.go:104-108 | nil for nil, or else a new cell with the same content, with zero if the struct is copied onto itself |
| `DeepCopy.CopySlice` | pkg/apis/admissionregistration.x-k8s.io/v1alpha1/zz_generated.deepcopy.go:125-129 | nil for nil, or else a new array with the same elements, with as many zeros if the struct is copied onto itself; empty for empty |
| `DeepCopy.NamedRuleWithOperations.DeepCopyInto` | pkg/apis/admissionregistration.x-k8s.io/v1alpha1/zz_generated.deepcopy.go:123-132 | equal content, or blanks if copied onto itself; in either case all cells new and no two pointers or slices sharing one |
| `DeepCopy.Validation.DeepCopyInto` | pkg/apis/admissionregistration.x-k8s.io/v1alpha1/zz_generated.deepcopy.go:426-434 | equal content, or blanks if copied onto itself; in either case all cells new and no two pointers or slices sharing one |
| `DeepCopy.CopyRules` | pkg/apis/admissionregistration.x-k8s.io/v1alpha1/zz_generated.deepcopy.go:90-103 | `make` and the element loop: equal content in order or as many zeros, nil kept apart from empty, all cells new, none shared |
| `DeepCopy.CopyValidations` | pkg/apis/admissionregistration.x-k8s.io/v1alpha1/zz_generated.deepcopy.go:362-368 | likewise |
| `DeepCopy.MatchResources.DeepCopyInto` | pkg/apis/admissionregistration.x-k8s.io/v1alpha1/zz_generated.deepcopy.go:78-110 | equal content, or blanks if copied onto itself; in either case all cells new and no two pointers or slices sharing one |
| `DeepCopy.SharingShows` | pkg/apis/admissionregistration.x-k8s.io/v1alpha1/zz_generated.deepcopy.go:80-89 | two selectors that are one pointer count as sharing, so a copy has two cells in their place |
| `DeepCopy.CopyMatch` | pkg/apis/admissionregistration.x-k8s.io/v1alpha1/zz_generated.deepcopy.go:357-361 | equal content behind a new pointer, or zero; all cells new, none shared |
| `DeepCopy.PolicySpec.DeepCopyInto` | pkg/apis/admissionregistration.x-k8s.io/v1alpha1/zz_generated.deepcopy.go:350-385 | equal content, or blanks if copied onto itself; in either case all cells new and no two pointers or slices sharing one |
| `DeepCopy.TypeChecking.DeepCopyInto` | pkg/apis/admissionregistration.x-k8s.io/v1alpha1/zz_generated.deepcopy.go:177-185 | equal content, or blanks if copied onto itself; in either case all cells new and no two pointers or slices sharing one |
| `DeepCopy.PolicyStatus.DeepCopyInto` | pkg/apis/admissionregistration.x-k8s.io/v1alpha1/zz_generated.deepcopy.go:398-413 | equal content, or blanks if copied onto itself; in either case all cells new and no two pointers or slices sharing one |
| `DeepCopy.Policy.DeepCopyInto` | pkg/apis/admissionregistration.x-k8s.io/v1alpha1/zz_generated.deepcopy.go:198-205 | equal content, or blanks if copied onto itself; in either case all cells new and no two pointers or slices sharing one, the original unchanged |
| `DeepCopy.BindingSpec.DeepCopyInto` | pkg/apis/admissionregistration.x-k8s.io/v1alpha1/zz_generated.deepcopy.go:286-304 | equal content, or blanks if copied onto itself; in either case all cells new and no two pointers or slices sharing one |
| `DeepCopy.Binding.DeepCopyInto` | pkg/apis/admissionregistration.x-k8s.io/v1alpha1/zz_generated.deepcopy.go:226-232 | equal content, or blanks if copied onto itself; in either case all cells new and no two pointers or slices sharing one, the original unchanged |
| `DeepCopy.FillPolicies` | pkg/apis/admissionregistration.x-k8s.io/v1alpha1/zz_generated.deepcopy.go:323-327 | the loop over a list's policies, filling the new array in place from the old one or from itself |
| `DeepCopy.FillBindings` | pkg/apis/admissionregistration.x-k8s.io/v1alpha1/zz_generated.deepcopy.go:257-262 | the loop over a list's bindings |
| `DeepCopy.PolicyList.DeepCopyInto` | pkg/apis/admissionregistration.x-k8s.io/v1alpha1/zz_generated.deepcopy.go:317-329 | equal content at every depth, or blanks if copied onto itself; all cells new, as many as the content has pointers and slices; the original unchanged |
| `DeepCopy.BindingList.DeepCopyInto` | pkg/apis/admissionregistration.x-k8s.io/v1alpha1/zz_generated.deepcopy.go:253-265 | equal content at every depth, or blanks if copied onto itself; all cells new, as many as the content has pointers and slices; the original unchanged |
| `DeepCopy.DeepCopyPolicyInto` | pkg/apis/admissionregistration.x-k8s.io/v1alpha1/zz_generated.deepcopy.go:198-205 | what is written through `out`: the content of `in`, kept if and only if `out` is not `in`, or all of it is blank and its library keeps the metadata; if not kept, blanks; cells new and not shared |
| `DeepCopy.PolicyKeptExactly` | pkg/apis/admissionregistration.x-k8s.io/v1alpha1/zz_generated.deepcopy.go:198-205 | that condition, for any policy |
| `DeepCopy.DeepCopyPolicy` | pkg/apis/admissionregistration.x-k8s.io/v1alpha1/zz_generated.deepcopy.go:208-215 | nil for nil, or else a new policy, deeply equal, sharing nothing with what existed and no cell among its own pointers |
| `DeepCopy.DeepCopyPolicyListInto` | pkg/apis/admissionregistration.x-k8s.io/v1alpha1/zz_generated.deepcopy.go:317-329 | what is written through `out`: the content of `in`, kept if and only if `out` is not `in`, or all of it is blank and its library keeps the metadata; if not kept, blanks; cells new and not shared |
| `DeepCopy.PolicyListKeptExactly` | pkg/apis/admissionregistration.x-k8s.io/v1alpha1/zz_generated.deepcopy.go:317-329 | that condition, for any list |
| `DeepCopy.DeepCopyPolicyList` | pkg/apis/admissionregistration.x-k8s.io/v1alpha1/zz_generated.deepcopy.go:332-339 | nil for nil, or else a new list, deeply equal and separate |
| `DeepCopy.DeepCopyBindingInto` | pkg/apis/admissionregistration.x-k8s.io/v1alpha1/zz_generated.deepcopy.go:226-232 | what is written through `out`: the content of `in`, kept if and only if `out` is not `in`, or all of it is blank and its library keeps the metadata; if not kept, blanks; cells new and not shared |
| `DeepCopy.BindingKeptExactly` | pkg/apis/admissionregistration.x-k8s.io/v1alpha1/zz_generated.deepcopy.go:226-232 | that condition, for any binding |
| `DeepCopy.DeepCopyBinding` | pkg/apis/admissionregistration.x-k8s.io/v1alpha1/zz_generated.deepcopy.go:235-242 | nil for nil, or else a new binding, deeply equal and separate |
| `DeepCopy.DeepCopyBindingListInto` | pkg/apis/admissionregistration.x-k8s.io/v1alpha1/zz_generated.deepcopy.go:253-265 | what is written through `out`: the content of `in`, kept if and only if `out` is not `in`, or all of it is blank and its library keeps the metadata; if not kept, blanks; cells new and not shared |
| `DeepCopy.BindingListKeptExactly` | pkg/apis/admissionregistration.x-k8s.io/v1alpha1/zz_generated.deepcopy.go:253-265 | that condition, for any list |
| `DeepCopy.DeepCopyBindingList` | pkg/apis/admissionregistration.x-k8s.io/v1alpha1/zz_generated.deepcopy.go:268-275 | nil for nil, or else a new list, deeply equal and separate |
| `DeepCopy.FailIsLost` | pkg/apis/admissionregistration.x-k8s.io/v1alpha1/zz_generated.deepcopy.go:369-373 | a policy with failure policy Fail is not kept when copied onto itself; its failure policy is the empty string then |
| `DeepCopy.ValidationShows` | pkg/apis/admissionregistration.x-k8s.io/v1alpha1/zz_generated.deepcopy.go:426-434 | equal content of two validations is equality of every text, of the pointers' being nil, and of what they lead to |
| `DeepCopy.RuleShows` | pkg/apis/admissionregistration.x-k8s.io/v1alpha1/zz_generated.deepcopy.go:123-132 | likewise for rules, element by element of each slice |
| `DeepCopy.MatchResourcesShow` | pkg/apis/admissionregistration.x-k8s.io/v1alpha1/zz_generated.deepcopy.go:78-110 | likewise for match resources |
| `DeepCopy.PolicySpecShows` | pkg/apis/admissionregistration.x-k8s.io/v1alpha1/zz_generated.deepcopy.go:350-385 | likewise for policy specs |
| `DeepCopy.PolicyStatusShows` | pkg/apis/admissionregistration.x-k8s.io/v1alpha1/zz_generated.deepcopy.go:398-413 | likewise for statuses, with the warnings of type checking |
| `DeepCopy.PolicyShows` | pkg/apis/admissionregistration.x-k8s.io/v1alpha1/zz_generated.deepcopy.go:198-205 | likewise for policies |
| `DeepCopy.BindingSpecShows` | pkg/apis/admissionregistration.x-k8s.io/v1alpha1/zz_generated.deepcopy.go:286-304 | likewise for binding specs |
| `DeepCopy.BindingShows` | pkg/apis/admissionregistration.x-k8s.io/v1alpha1/zz_generated.deepcopy.go:226-232 | likewise for bindings |
| `DeepCopy.RuleSliceShows` | pkg/apis/admissionregistration.x-k8s.io/v1alpha1/zz_generated.deepcopy.go:90-103 | equal content of two slices of rules: both nil, or as many rules of equal content in the same order |
| `DeepCopy.ValidationSliceShows` | pkg/apis/admissionregistration.x-k8s.io/v1alpha1/zz_generated.deepcopy.go:362-368 | likewise for slices of validations |
| `DeepCopy.PolicySliceShows` | pkg/apis/admissionregistration.x-k8s.io/v1alpha1/zz_generated.deepcopy.go:321-327 | likewise for slices of policies |
| `DeepCopy.BindingSliceShows` | pkg/apis/admissionregistration.x-k8s.io/v1alpha1/zz_generated.deepcopy.go:257-263 | likewise for slices of bindings |
| `DeepCopy.PolicyListShows` | pkg/apis/admissionregistration.x-k8s.io/v1alpha1/zz_generated.deepcopy.go:317-329 | likewise for lists of policies |
| `DeepCopy.BindingListShows` | pkg/apis/admissionregistration.x-k8s.io/v1alpha1/zz_generated.deepcopy.go:253-265 | likewise for lists of bindings |
| `DeepCopy.PolicySpecParts` | pkg/apis/admissionregistration.x-k8s.io/v1alpha1/zz_generated.deepcopy.go:350-385 | the cells of a policy spec are all those that its pointers and slices lead to |
| `DeepCopy.MatchParts` | pkg/apis/admissionregistration.x-k8s.io/v1alpha1/zz_generated.deepcopy.go:78-110 | likewise for match resources |
| `DeepCopy.BindingSpecParts` | pkg/apis/admissionregistration.x-k8s.io/v1alpha1/zz_generated.deepcopy.go:286-304 | likewise for binding specs |
| `DeepCopy.PolicyStatusParts` | pkg/apis/admissionregistration.x-k8s.io/v1alpha1/zz_generated.deepcopy.go:398-413 | likewise for statuses |
| `DeepCopy.RuleParts` | pkg/apis/admissionregistration.x-k8s.io/v1alpha1/zz_generated.deepcopy.go:123-132 | likewise for rules and validations |
| `DeepCopy.ObjectParts` | pkg/apis/admissionregistration.x-k8s.io/v1alpha1/zz_generated.deepcopy.go:198-205 | likewise for policies, bindings and lists |
| `Blanks.BlankedExactly` | pkg/apis/admissionregistration.x-k8s.io/v1alpha1/zz_generated.deepcopy.go:350-385 | for every type and value, copying onto itself keeps exactly the values with nothing but zero behind pointers and in slices |
| `Blanks.ZeroStaysZero` | pkg/apis/admissionregistration.x-k8s.io/v1alpha1/zz_generated.deepcopy.go:357-368 | what is new is zero and stays zero when copied onto itself |
| `DeepCopy.PolicyTyped` | pkg/apis/admissionregistration.x-k8s.io/v1alpha1/types.go:76-578 | the content of a policy in memory is a value of the type that conversion takes |
| `DeepCopy.BindingTyped` | pkg/apis/admissionregistration.x-k8s.io/v1alpha1/types.go:76-578 | so is that of a binding |
| `InformerFactory.StepInv` | pkg/generated/informers/externalversions/factory.go:115-190 | every step keeps: started types are known and launched once with their informer, no type twice, the wait group counts launched less finished |
| `InformerFactory.RunInv` | pkg/generated/informers/externalversions/factory.go:115-190 | so does every run |
| `InformerFactory.SameAnswer` | pkg/generated/informers/externalversions/factory.go:171-190 | two calls for one type get the same informer, whatever happens in between |
| `InformerFactory.RunOncePerInformer` | pkg/generated/informers/externalversions/factory.go:123-135 | no informer is launched twice if and only if no two started types share one |
| `InformerFactory.RunOnce` | pkg/generated/informers/externalversions/factory.go:115-190 | in every run whose constructor functions make new informers, each informer's `Run` is called at most once |
| `InformerFactory.StartedExactly` | pkg/generated/informers/externalversions/factory.go:115-190 | a type is started if and only if it was asked for before some `Start` that came before shutdown |
| `InformerFactory.StartTwice` | pkg/generated/informers/externalversions/factory.go:115-137 | a second `Start` does nothing |
| `InformerFactory.NothingAfterFlag` | pkg/generated/informers/externalversions/factory.go:119-121 | nothing is launched once shutdown is flagged |
| `InformerFactory.WaitGroupIsExact` | pkg/generated/informers/externalversions/factory.go:124-132 | the wait group is never negative, and zero if and only if every launched goroutine has come to its end |
| `InformerFactory.NothingAfterReturn` | pkg/generated/informers/externalversions/factory.go:139-146 | once a `Shutdown` has returned no informer runs, now or later |
| `InformerFactory.SharedInformerFactory.InformerFor` | pkg/generated/informers/externalversions/factory.go:171-190 | the known informer, or a new one with the type's own or the default resync period |
| `InformerFactory.PeriodsAreAsConfigured` | pkg/generated/informers/externalversions/factory.go:181-187 | in every run, each informer resyncs with the period of its type, or else with the default |
| `InformerFactory.SharedInformerFactory.Start` | pkg/generated/informers/externalversions/factory.go:115-137 | the loop over the map launches every type not yet started, once, in some order, and nothing after shutdown |
| `InformerFactory.SharedInformerFactory.Shutdown` | pkg/generated/informers/externalversions/factory.go:139-146 | flags shutdown and returns with no goroutine left running |
| `InformerFactory.SharedInformerFactory.WaitForCacheSync` | pkg/generated/informers/externalversions/factory.go:148-169 | an answer for exactly the started types, that of their informers |
| `Validators.ValidateIsFlat` | pkg/validator/multi.go:26-40 | however nested, a composition makes the same calls in the same order and returns the same error as its parts in one row |
| `Validators.SomeHandlesIsFlat` | pkg/validator/multi.go:17-24 | and handles the same operations |
| `Validators.NestingIsInvisible` | pkg/validator/multi.go:9-40 | compositions of the same parts agree on Handles, error and calls |
| `Validators.CompositionLaw` | pkg/validator/multi.go:9-40 | `NewMulti(xs ++ ys)` and `NewMulti(NewMulti(xs), NewMulti(ys))` agree on Handles, error and calls, also for validators whose answers depend on earlier calls |
| `Validators.LeavesHandle` | pkg/validator/multi.go:17-24 | a composition of validators handles an operation if and only if one of them does |
| `Validators.LeavesInOrder` | pkg/validator/multi.go:26-40 | the first validator is left out, or called and its error returned, or called and passed on from |
| `Validators.ValidateAllIsExplained` | pkg/validator/multi.go:26-40 | no error means that every call made was answered without one; an error is the answer to the last call or comes from a plugin that is not ready |
| `Validators.FirstFailure` | pkg/validator/multi.go:26-40 | for validators without memory, the error and the calls are those up to the first part that fails when asked alone |
| `Validators.PassesExactly` | pkg/validator/multi.go:26-40 | for validators without memory, a composition passes if and only if each part that handles the operation passes |
| `Validators.World.CallHandles` | pkg/validator/multi.go:17-24 | the loop answers whether some validator handles the operation |
| `Validators.World.CallValidate` | pkg/validator/multi.go:26-40 | the loop's error and the calls it makes |
| `Validators.World.CallPlugin` | pkg/controller/admissionregistration.x-k8s.io/v1alpha1/plugin.go:76-94 | policy resources pass without a call, others wait until the plugin is ready or are forbidden |
| `Validators.PluginExactly` | pkg/controller/admissionregistration.x-k8s.io/v1alpha1/plugin.go:72-94 | what the plugin answers, with the exempt groups and resources written out |
| `Validators.PolicyResourcesExactly` | pkg/controller/admissionregistration.x-k8s.io/v1alpha1/plugin.go:96-104 | the exempt resources are four pairs of group and resource |
| `Webhook.ParseExactly` | pkg/webhook/server.go:304-329 | a request is read, as what its body says, if and only if nothing is wrong with it; otherwise it is refused for the first of what is wrong, of content type, empty body and body, and for nothing else |
| `Webhook.Handler.LoadObject` | pkg/webhook/server.go:139-164 | the kind is checked before the decoder's error; unregistered types are kept unstructured |
| `Webhook.LoadExactly` | pkg/webhook/server.go:139-190 | an object is read if and only if it has the request's kind and decodes or is of an unregistered type; which failures are internal errors |
| `Webhook.ConvertExtra` | pkg/webhook/server.go:193-206 | the nested loops keep nil and keys and copy values, empty ones becoming nil |
| `Webhook.ReviewResponse` | pkg/webhook/server.go:267-301 | the answer, code, reason and message for an error or none |
| `Webhook.AsFindsTheFirst` | pkg/webhook/server.go:279-284 | the status error shown is the first in the chain of wrapped errors, none if there is none |
| `Webhook.ReviewShows` | pkg/webhook/server.go:267-301 | the UID is echoed, allowed if and only if there is no error, and what a denial shows |
| `Webhook.ValidatedWasReadable` | pkg/webhook/server.go:135-238 | nothing is validated but requests whose raw objects are all of the request's kind |
| `Webhook.ReviewedExactly` | pkg/webhook/server.go:111-265 | exactly the reviewable requests are reviewed, with their UID; all others are refused without a call |
| `Webhook.AllowedExactly` | pkg/webhook/server.go:111-265 | for validators without memory, a request is allowed if and only if every validator in the composition that handles its operation passes it; if none handles it, without a call |
| `Webhook.ReviewIsExplained` | pkg/webhook/server.go:111-265 | behind an allowed review all calls passed, behind a denied one the last failed or a plugin was not ready |
| `Webhook.PolicyRequestsAreAllowed` | pkg/controller/admissionregistration.x-k8s.io/v1alpha1/plugin.go:76-104 | a readable request about a policy or binding is allowed, ready or not, without a call |
| `Webhook.OthersWaitForThePlugin` | pkg/controller/admissionregistration.x-k8s.io/v1alpha1/plugin.go:86-93 | any other is forbidden while the plugin is not ready, and its answer is the evaluator's afterwards |
| `Webhook.BypassExactly` | pkg/controller/admissionregistration.x-k8s.io/v1alpha1/plugin.go:76-104 | a readable request is answered without a call while the plugin is ready if and only if its resource is one of the four, and forbidden while it is not ready if and only if it is none of them |
| `Webhook.WebhookConfigurationsAreEvaluated` | pkg/controller/admissionregistration.x-k8s.io/v1alpha1/plugin.go:96-104 | a request about another resource of the native group is put to the evaluator |
| `Webhook.CallsAreAboutTheRequest` | pkg/webhook/server.go:135-232 | every call that a request leads to has its name, namespace, kind, resource, operation, user and extra, the object read from its raw object and the old object read from its raw old object |
| `Webhook.UnreadIsRefused` | pkg/webhook/server.go:112-116 | a request that is not read is a bad request, for what is wrong, without a call |
| `Webhook.LoadRefusals` | pkg/webhook/server.go:143-163 | how each thing wrong with a raw object is answered |
| `Webhook.UnreadableIsRefused` | pkg/webhook/server.go:141-189 | the old object is looked at first; what is wrong is answered without a call |
| `Webhook.UnwritableIsRefused` | pkg/webhook/server.go:240-244 | a review that cannot be marshalled is an internal error |
| `Webhook.Handler.HandleWebhookValidate` | pkg/webhook/server.go:111-265 | exactly one answer for each request, and the calls behind it |

## Left out

- `cmd/cel-admission-polyfill/main.go`: flags, signals, client construction and the wait groups of `main` are process wiring.
- Evaluation of CEL expressions, match rules, failure policies and validation actions is done by `k8s.io/apiserver`, which is not part of this model; the evaluator is an arbitrary function.
- TLS, HTTP servers and sockets, `webhook.Run` and `pkg/pki` are input and output or library cryptography.
- Generated clientsets, fakes, listers and scheme registration are request builders without branching.
- `Patch`, `Apply` and `ApplyStatus` of the translating client only panic.
- Reflection in `getItems` and `listWithItems` is plain access to an Items field.
- Timers and back-off are open delays: a delayed key may expire at any time, the plugin's polls are any sequence of answers. Logging and metrics are left out.
- Items of the work queue are strings, as `enqueue` adds nothing else; the branch for other items (`pkg/controller/generic.go:170-176`) is not modelled.
- The listers' `List` methods call back into the client library's indexer and are not modelled.
- Equal resource versions mean equal content; a stored object is its version.
- The libraries' contracts are taken as given: `workqueue`, the shared informer's ordered delivery, `bufio.Scanner`, `encoding/json` on these types, `sync` locks and wait groups, `httputil.ReverseProxy`.
- Strings are sequences of characters; JSON is a tree of values, so escaping, UTF-8 repair and number formats are not modelled.
- Object metadata, label selectors and conditions are opaque values that conversion carries over unchanged; of metadata only name and resource version are looked at.
- The native types in `k8s.io/api` are not part of this model; they are taken to have the custom types' fields and tags.
- API server behaviour is the typed client's contract only: names, resource versions, spec and status updates; admission, defaulting, namespaces, field selectors, the clearing of the status of a new object, and updates that change nothing are left out.
- Interceptor.ProxyRequest.Rewrite: `SetURL` joins plain paths as the code does; the branch for escaped paths is a library's, so the joined raw path is given.
- Interceptor.ProxyRequest.Rewrite: the query string, other headers and the transport are not modelled.
- SchemaCacheProtocol.FreshAfterPurge: the discovery request under the write lock happens at one instant; an answer that discovery gives late counts as given at that instant.
- Controller.Controller.RunWorker: events that other goroutines deliver while the method runs are in the protocol, not in the method.
- ControllerProgress.EventuallyUpToDate: that a goroutine which can move does move is the scheduler's, and that failures stop is the reconciler's; the lemma says that they get there if so.
- DeepCopy: structs that a pointer or slice leads to are values in cells and arrays, and slices are whole arrays, so capacity and sub-slices are not modelled; `DeepCopyInto` of a struct inside another returns the new struct, and is told whether `out` is `in`.
- DeepCopy: what the library makes of metadata that is copied onto itself is an arbitrary function, which makes nothing of nothing.
- DeepCopy.DeepCopyPolicyInto: `out` must not be a cell that `in` leads to, which Go's types rule out.
- InformerFactory: `Start` is one step under the lock, since goroutines that end meanwhile can be counted after it; options other than resync periods, and `ForResource`, are left out.
- InformerFactory.RunOnce: assumes that constructor functions make a new informer at every call, as the generated ones do.
- Validators: contexts are never cancelled, as the handler passes `context.TODO()`; a validator that panics or does not return is not modelled.
- Webhook.AllowedExactly: about validators whose answers do not depend on earlier calls; `ReviewIsExplained` says of all others what is behind a review.
- Webhook.ReviewedExactly: assumes that a review can be marshalled; the branch for failure is in `HandleWebhookValidate`.
- Webhook: texts of refusals, formatted by libraries, are values that carry what the text is made from; the health endpoint is left out.
