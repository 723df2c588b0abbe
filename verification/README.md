# Verification of the two-cluster federation operator

A guest cluster mirrors its custom resources (images, artefacts, application
onboardings, application deployments, availability zones) onto the cluster of a
partner, the host, over the host's Kubernetes API or over REST. This project models
the operator's hard logic in Dafny 4.11 and proves properties of it over every input,
every run and every interleaving.

`dafny verify dfyconfig.toml` checks the whole project.

## What is modelled

- **The mirrored-resource protocol** (`Model`, `Protocol`, `Outcomes`, `Safety`, `Creation`,
  `Drain`, `Controllers`). A world holds the guest store, the host store, the federations and
  the history of creations and host states. A step is a user's create or delete, one
  reconcile of one resource (any call in it may fail, the partner call with or without
  effect), one reconcile of a mirror by the host's operator, a host status write, a REST callback,
  any change of the federations, or a reconcile of a federation being deleted.
  `Controllers` is the imperative form: an operator object whose five reconcilers
  update its stores with the loops and branches of the controllers; each is proved
  to be exactly the protocol step. `Outcomes` says what each kind of step does in terms of
  what is stored, with the states and times written out. `Safety` proves one invariant over all runs and
  from it reference closure, absence of orphan mirrors, the causal chain and the
  freeze. `Drain` proves that deleting a whole federation ends, and in which order.
- **Host federation lifetime** (`Lifetime`): the deadline arithmetic of
  `federationExpiry`, over every clock and over timely runs.
- **Watcher registry** (`Watchers`): interleaved starts and stops, and the bulk stop
  and restart used when a federation is locked and unlocked.
- **Deferred write-back** (`WriteBack`): JSON merge patches (section 2 of RFC 7396)
  and the two-phase write at the end of every reconcile.
- **Data algorithms**: instance identifiers in base 62 (`Base62`), zone updates and
  zone comparison (`Zones`), the admission policy with its printed id list and its
  runs (`AdmissionPolicy`), the path of an image over REST (`ImageTransfer`), the
  strings that are hashed into names (`Naming`).

### Assumptions

- One reconcile is one atomic step that reads what is stored; specifications do not
  change; labels and finalizers are changed by the controllers only. Ids need not be
  unique, and a host delete may take effect later (the mirror is only marked while it
  holds a finalizer).
- The version-5 UUID hash is injective, so a name stands for the string hashed into
  it. A federation becomes AVAILABLE only with a generated context id (36 characters).
- The contexts reached over REST, and the partner's namespace for a context, are fixed
  for a run. The guest store holds guest resources, the host store their mirrors.
- SHA-256 gives any 256-bit value; JSON writing and reading are inverse; a deep copy
  is a value copy. Calls that may fail take their outcome as a parameter. Maps are
  iterated in any order.

### Where the code does not do what one might expect

Each with its exact condition.

- A new guest resource stores PENDING even when its gate is closed, so a blocked
  creation is not tried again, though the reconcile asks to be called again.
  `TriedOnce` says exactly when it is, `BlockedForGood` that otherwise it never comes.
  A gate that finds no image or artefact indexes an empty list; the reconcile aborts
  and PENDING is still stored.
- A permanent error while looking up the federation stores the failed state even
  while the federation is not AVAILABLE (`FreezeStep`).
- A start that comes between the two halves of a stop of its key makes a second live
  watcher (`OneWinner`, `TwoWinnersInFlight`). Watch keys do not say the kind, so
  resources of different kinds with one name share a watcher and stop each other's
  (`OwnWatchers`, `StopsAnother`).
- A creation that lands on a mirror still being deleted loses it (`CreatedKeepsMirror`).
- The annotation that lets a locked federation stop its watchers is also used up when
  the federation is available, so locking one that was available stops none
  (`LockStopsOnlyFirst`, `NoStopAfterAvailable`).
- A finalizer list is replaced as a whole by a merge patch (`FinalizersAreReplaced`).
- The policies do not look at zones and federations (`PolicyDecides`).
- A reconcile exactly on the renewal date locks a host federation a day early
  (`LocksEarly`), one exactly on the stored expiry asks for no next call (`Stalls`,
  `StalledForGood`); timely runs avoid the stored deadlines. That the first call comes
  before 23 hours is a hypothesis of `TimedRun`: the reconcile that sets the dates asks
  for no next call (`Initialise`), nor does the policy step after it
  (internal/controller/federation_controller.go:260-267).
- A federation whose context id changes after its policy was set (a REST renewal can
  do this, internal/rest/federation_rest.go:573) is locked out until the next policy
  call of its role, and removing one of two federations with one id locks the other
  out (`NextKeeps`, `PoliciesStayRight`, `MovedFederationIsLockedOut`,
  `SharedIdIsDropped`).
- The deployment key joins two variable-length ids and is not injective
  (`DeploymentKeysEqual`, `DeploymentKeyCollides`); no other result here needs it to be.
  The federation key is injective for dates with equally many digits
  (`FederationKeyInjective`, `FederationKeysMeet`).
- The zone comparison is not symmetric (`SymmetricExactly`).
- The repository location is compared with the address of a new value, so it is sent
  even when it is empty (internal/multipart/formdata.go:177). A host that refuses an
  image it could read shows in the image's state only, not as an error (`CreateImage`).
- Several tests expect states the controllers do not store
  (internal/controller/image_controller_test.go:91 expects READY where the controller
  stores PENDING); the model follows the controllers.

## Model

| member | source | states |
|---|---|---|
| Safety.NextKeeps | internal/controller/artefact_controller.go:79-260 | every step, with any failure in it, keeps the invariant: references closed, mirrors owned, history causal, labels and finalizers in order |
| Safety.BodySound | internal/controller/image_controller.go:148-235 | whatever branch a reconcile takes and whichever call fails, what it did keeps the invariant and what it wants to store is safe: a label only of its own key, a finalizer dropped only when nothing names the resource and no live mirror is left |
| Safety.ReconcileKeeps | internal/controller/image_controller.go:94-146 | the invariant survives the write-back too, when either patch fails |
| Safety.ReferenceClosure | internal/controller/applicationdeployment_controller.go:160-256 | in every run, a resource created on the partner and still stored has present, with its finalizer, every image, artefact, onboarding and (on Kubernetes) zone it names |
| Safety.NoOrphanMirrors | internal/controller/image_controller.go:162-187 | in every run, a live mirror has a guest resource with the same content that holds its finalizer, and everything it names is still stored |
| Safety.CausalHistory | internal/controller/artefact_controller.go:217-244 | in a causal history a need of a creation was met on the host before it, after the dependency itself was created with its own needs met, recursively |
| Safety.CausalChain | internal/controller/applicationonboarding_controller.go:219-243 | in every run a mirror is created only after the host held the wanted state of each dependency, down to the images |
| Safety.GuestNeverAhead | internal/k8s/image_k8s.go:77-95 | on Kubernetes the guest shows no state, its initial and failed ones apart, that the host did not store earlier on a mirror made before |
| Safety.GatePassed | internal/controller/artefact_controller.go:217-240 | a passed gate found for every dependency a labelled stored resource in the wanted state |
| Safety.GateCloses | internal/controller/applicationdeployment_controller.go:205-248 | so when it passes all references are closed, and the host held the wanted states |
| Safety.FreezeStep | internal/controller/util.go:106-125 | while the unique federation is not AVAILABLE a reconcile leaves the world as it is, except exactly when listing federations failed for good: then only the state becomes failed |
| Safety.FreezeRun | internal/controller/image_controller.go:156-159 | over any stretch of a run in which the federation is not AVAILABLE, whatever else happens, nothing of its context is created on the partner by either path, no mirror of it is updated or deleted, and no finalizer or label of its resources changes |
| Safety.FreezeCallsNobody | internal/controller/image_controller.go:156-159 | in such a stretch no reconcile of the context depends on any answer of the partner, in what it stores or returns |
| Outcomes.OpenExactly | internal/controller/util.go:31-57 | a reconcile goes ahead exactly when one federation, and only one, has the context id and it is AVAILABLE; the lookup fails exactly when there is not one only |
| Outcomes.Unserved | internal/controller/image_controller.go:94-146 | when there is none or several, or listing fails for good, a resource that is not being deleted becomes failed and nothing else changes; the reconcile is tried again |
| Outcomes.Unread | internal/controller/image_controller.go:79-90 | a resource that is gone is left alone, and one that cannot be read is tried again |
| Outcomes.FinalizerFirst | internal/controller/image_controller.go:184-188 | the first reconcile stores the finalizer and nothing else |
| Outcomes.GuestShowsHost | internal/k8s/image_k8s.go:77-95 | a reconcile of a known resource on Kubernetes stores exactly the state of the mirror, or failed when there is none or its read fails for good; what it returns |
| Outcomes.GuestCatchesUp | internal/k8s/image_k8s.go:77-95 | over runs: once a mirror keeps a state, one reconcile that can read and store makes the guest show it, and it goes on showing it as long as the mirror keeps it and no reconcile fails for good |
| Outcomes.RestWaits | internal/controller/image_controller.go:224-225 | over REST a known resource changes by callbacks only |
| Outcomes.GateOutcome | internal/controller/applicationdeployment_controller.go:205-248 | the gate in full, by induction over the dependencies: with all before the m-th standing ready, a failing lookup up to there is an error, and the m-th asks for 15 seconds when found, 30 seconds for a missing zone or onboarding, and aborts for a missing image or artefact |
| Outcomes.GatePassesExactly | internal/controller/artefact_controller.go:217-240 | with no failing lookup the gate passes exactly when, for every dependency, the first listed resource with its label is READY (images, artefacts), ONBOARDED (onboardings) or AVAILABLE (zones) |
| Outcomes.CreatesWhenMet | internal/controller/applicationonboarding_controller.go:215-243 | a reconcile writes a mirror exactly when a new resource of an open federation finds everything it names, kind by kind, standing so, and the apply takes effect |
| Outcomes.CreationWrites | internal/k8s/util_k8s.go:112-159 | what it writes: the mirror under the shared name with the guest content, a new one without state, an old one keeping its state; no other mirror changes |
| Outcomes.MirrorNames | internal/controller/applicationdeployment_controller.go:256 | label and mirror name are one text: id and context id, for deployments context, application and instance |
| Outcomes.TryStores | internal/controller/artefact_controller.go:213-246 | what a try leaves stored, whichever patch fails: PENDING, NOT_AVAILABLE for zones, the state a REST client chose, or failed; the label at once for images, artefacts and zones, after success for the others; nothing after a failed metadata patch, only the label after a failed status patch, unless a REST client stored its state at once |
| Outcomes.TryReplies | internal/controller/artefact_controller.go:213-246 | and what it returns, for each verdict of the gate and each failed patch |
| Creation.CreatesExactly | internal/controller/image_controller.go:194-222 | a reconcile writes a mirror exactly when the resource has no state, its gate passes and the call takes effect |
| Creation.TriedOnce | internal/controller/artefact_controller.go:213-246 | after a try, on either path, the resource is new again exactly when its state could not be stored |
| Creation.StuckNext | internal/controller/applicationdeployment_controller.go:202-256 | no step of anybody, short of a callback that empties the state, brings a resource with a state that is not on the partner there |
| Creation.BlockedForGood | internal/controller/applicationonboarding_controller.go:215-243 | a creation whose gate is closed at the first stored try never comes, on either path, in any run in which the resource stays stored, keeps a state and, on Kubernetes, is alone under its mirror's name |
| Creation.KeptNext | internal/k8s/util_k8s.go:139-153 | a step takes the live mirror from a created resource exactly when it is a creation that lands on a mirror still being deleted |
| Creation.CreatedKeepsMirror | internal/k8s/util_k8s.go:112-159 | the converse of the absence of orphans: over every run of a resource alone under its mirror's name, it has its live mirror whenever it is created and not being deleted, exactly when no creation of it lands so |
| Outcomes.DependentsExactly | internal/controller/image_controller.go:237-255 | the deletion check finds a dependent exactly when a stored resource of the context names this one, field by field |
| Outcomes.DeletionOutcome | internal/controller/image_controller.go:162-182 | a deletion, for every failure: it waits 15 seconds while named, else marks or drops the mirror, and the resource goes exactly when the partner call and the patch succeed |
| Outcomes.WatchExactly | internal/k8s/util_k8s.go:139-159 | a watcher starts exactly with a new mirror made without error and stops exactly with a deletion that went through |
| Outcomes.FederationOutcome | internal/controller/federation_controller.go:221-247 | a federation marked deleted goes exactly when, for a guest, no resource is left and the partner call succeeded, and policy update and patch did; any failure keeps it; what it returns |
| Outcomes.HostOutcome | internal/controller/image_controller.go:195-212 | what the host does with a mirror: drops one marked deleted, then finalizer, then first state, each only if stored; what it returns |
| Outcomes.HostUnserved | internal/controller/image_controller.go:94-146 | without an open federation the host changes nothing, except that a lookup failing for good makes a live mirror failed |
| Outcomes.MarkedMirrorGoes | internal/k8s/util_k8s.go:239-271 | a deletion goes through: after the guest call and one reconcile of the host the mirror is gone |
| Outcomes.StatesArrive | pkg/metastore/image.go:161-172 | a callback with a valid state stores it on a resource reached over REST and on no other |
| Drain.DrainReconcile | internal/controller/image_controller.go:162-182 | a reconcile of a deleted resource removes it exactly when nothing names it, and else changes nothing and asks for another in 15 seconds |
| Drain.SomeUnblocked | internal/controller/artefact_controller.go:160-182 | no deadlock: from any resource left, following what blocks it ends at one that is not blocked |
| Drain.DrainProgress | internal/controller/applicationonboarding_controller.go:159-184 | in every nonempty state some resource goes at its next reconcile, and the number left drops by one |
| Drain.DrainFederation | internal/controller/federation_controller.go:221-247 | the federation goes exactly when none of its resources is left, and else asks for another reconcile |
| Drain.DrainNext | internal/controller/federation_controller.go:221-247 | any step of a drain removes at most one resource, only an unblocked one, and the federation only last |
| Drain.RoundClears | internal/controller/availabilityzone_controller.go:163-183 | a fair round, in any order, clears one layer of the dependency order |
| Drain.FiveRoundsDrain | internal/controller/federation_controller.go:372-415 | five fair rounds remove deployments, then onboardings and zones, then artefacts, then images, then the federation |
| Controllers.Operator.GetFederationByContextId | internal/controller/util.go:31-57 | the loop finds the unique match, or says that there is none or several |
| Controllers.Operator.CheckFederationState | internal/controller/util.go:106-125 | open exactly when AVAILABLE |
| Controllers.Operator.ListByLabel | internal/controller/artefact_controller.go:222-228 | a label selection gives the stored resources of the kind with that label, in list order |
| Controllers.Operator.ArtefactGate | internal/controller/artefact_controller.go:216-240 | the nested loops over components and images compute the creation gate, first failure first: a missing image aborts, one that is not READY asks for 15 seconds |
| Controllers.Operator.OnboardingGate | internal/controller/applicationonboarding_controller.go:217-239 | the loop over components computes the gate over artefacts, abort and wait told apart |
| Controllers.Operator.DeploymentGate | internal/controller/applicationdeployment_controller.go:205-248 | the zone lookup, on Kubernetes only, then the onboarding lookup compute the gate, which `Outcomes.GateOutcome` states in full |
| Controllers.Operator.ResourcesDependOnImage | internal/controller/image_controller.go:237-255 | the triple loop answers yes exactly when some stored artefact of the context names the image |
| Controllers.Operator.ResourcesDependOnArtefact | internal/controller/artefact_controller.go:262-278 | yes exactly when some stored onboarding of the context names the artefact |
| Controllers.Operator.ResourcesDependOnApplicationOnboarding | internal/controller/applicationonboarding_controller.go:263-274 | yes exactly when some stored deployment of the context names the application |
| Controllers.Operator.ResourcesDependOnAvailabilityZone | internal/controller/availabilityzone_controller.go:237-248 | yes exactly when some stored deployment of the context names the zone |
| Controllers.Operator.ResourcesDependOnFederation | internal/controller/federation_controller.go:372-415 | yes exactly when a context id is set and some stored resource has it |
| Controllers.Operator.CreateRemote | internal/k8s/util_k8s.go:112-159 | creation on the partner: the whole new state of both stores, for an effect with or without an error, and the watcher started for a new mirror |
| Controllers.Operator.DeleteRemote | internal/k8s/util_k8s.go:239-271 | deletion on the partner; not found is success, and success stops the watcher |
| Controllers.StopsAnother | internal/k8s/util_k8s.go:265 | stopping a resource's watcher stops that of another resource exactly when both have one name in one namespace |
| Controllers.Operator.UpdateStatus | internal/k8s/artefact_k8s.go:77-95 | the branch that copies the mirror's status is the protocol's, which `Outcomes.GuestShowsHost` states in full; a missing mirror is a permanent error |
| Controllers.Operator.Deferred | internal/controller/applicationonboarding_controller.go:96-157 | the deferred function stores what the protocol's write-back says, for each patch outcome, and turns a failed patch into an error |
| Controllers.Operator.ReconcileImage | internal/controller/image_controller.go:77-235 | the image reconciler is the protocol step, returns what the protocol says (when to be called again, error, or abort), and starts or stops its watcher as it says |
| Controllers.Operator.ReconcileArtefact | internal/controller/artefact_controller.go:79-260 | the artefact reconciler is the protocol step, returns what the protocol says (when to be called again, error, or abort), and starts or stops its watcher as it says |
| Controllers.Operator.ReconcileOnboarding | internal/controller/applicationonboarding_controller.go:79-261 | the onboarding reconciler is the protocol step, returns what the protocol says (when to be called again, error, or abort), and starts or stops its watcher as it says |
| Controllers.Operator.ReconcileDeployment | internal/controller/applicationdeployment_controller.go:78-270 | the deployment reconciler is the protocol step, returns what the protocol says (when to be called again, error, or abort), and starts or stops its watcher as it says |
| Controllers.Operator.ReconcileZone | internal/controller/availabilityzone_controller.go:79-235 | the zone reconciler is the protocol step, returns what the protocol says (when to be called again, error, or abort), and starts or stops its watcher as it says |
| Controllers.Operator.ReconcileHost | internal/controller/image_controller.go:195-212 | the host side of the reconcilers is the host step: finalizer, then initial state, deletion without checks; when it fails |
| Controllers.Operator.ReconcileFederationDeletion | internal/controller/federation_controller.go:221-247 | the deletion branch of the federation reconciler is the federation step, and what it returns |
| Lifetime.Federation.Initialise | internal/controller/federation_controller.go:280-291 | a new host federation gets its context id and label, expires after 24 hours and is renewed after 23, unless dates were set, and asks for no next call |
| Lifetime.Federation.FederationExpiry | internal/controller/federation_controller.go:511-574 | the method is the pure expiry function, whose request and stop `Lifetime.RequestsExactly` and `Lifetime.StopsExactly` state exactly; a return that does not stop never leaves a past expiry |
| Lifetime.Lengths | internal/controller/federation_controller.go:284-291 | 24 and 23 hours, in nanoseconds |
| Lifetime.RequestsExactly | internal/controller/federation_controller.go:522-567 | a call that does not stop asks for exactly one second past the earliest deadline stored before it that is still ahead, and for nothing when none is |
| Lifetime.StopsExactly | internal/controller/federation_controller.go:522-560 | a call stops exactly when the stored expiry is past, the renewed one is past too, or no date is left; it then locks, and otherwise keeps the state |
| Lifetime.ObedientRun | internal/controller/federation_controller.go:511-574 | called first at any time before 23 hours and then exactly when asked, no call lands on a stored deadline, the calls come one second after 23, 24 and 47 hours, and the federation is AVAILABLE until the last of them and LOCKED at it |
| Lifetime.LifetimeRun | internal/controller/federation_controller.go:511-574 | over every non-decreasing clock the dates are one of three pairs chosen by the last reading alone, and the state is LOCKED exactly when a call came after 47 hours, or after 24 hours with none in the renewal hour before |
| Lifetime.NothingUndone | internal/controller/federation_controller.go:537-556 | LOCKED is absorbing and renewal happens at most once, from any dates |
| Lifetime.LastCheckIsDead | internal/controller/federation_controller.go:569-573 | the lock check at the end of the function never fires, whatever the dates |
| Lifetime.TimelyState | internal/controller/federation_controller.go:562-567 | along a timely run, no call of which lands on a deadline stored at that time, every call meets the dates its reading calls for, and the next one comes within the slack of the next deadline |
| Lifetime.TimedRun | internal/controller/federation_controller.go:284-291 | called before 23 hours and then as requested with a slack of at most an hour less a second, never on a stored deadline, the federation is AVAILABLE up to 47 hours and LOCKED after 47 hours, one second and the slack |
| Lifetime.LocksEarly | internal/controller/federation_controller.go:537-548 | before the renewal, the next requested call finds the federation expired exactly when this one came on the renewal date |
| Lifetime.Stalls | internal/controller/federation_controller.go:522-567 | a call that does not stop asks for no next one exactly when it came on the stored expiry |
| Lifetime.StalledForGood | internal/controller/federation_controller.go:522-567 | a run that follows every request, with a call at 47 hours exactly, stays AVAILABLE for good |
| Watchers.WatchKeyInjective | internal/k8s/watcher_k8s.go:47 | a watch key gives back namespace and name |
| Watchers.AlwaysAccounted | internal/k8s/watcher_k8s.go:46-55 | under every interleaving each token is in exactly one place: entry, being cancelled, or cancelled |
| Watchers.WinnersAreEntries | internal/k8s/watcher_k8s.go:123-136 | a live winner is the entry under its key unless a stop holds it; a loser is cancelled once its start is over |
| Watchers.OneWinner | internal/k8s/watcher_k8s.go:46-55 | over every interleaving a key has at most one live watcher in every state exactly when no start on it comes between the two halves of a stop of it |
| Watchers.StepKeepsOne | internal/k8s/watcher_k8s.go:125-128 | a step brings a second live watcher exactly when it is such a start |
| Watchers.TwoWinnersInFlight | internal/k8s/watcher_k8s.go:125-128 | the shortest run with two live watchers, for any key |
| Watchers.CancelsOne | internal/k8s/watcher_k8s.go:113-136 | a successful stop cancels exactly one token, which was live; nothing else cancels but a loser |
| Watchers.WatcherRegistry.Start | internal/k8s/watcher_k8s.go:46-55 | an entry that was there stays and the newcomer is cancelled, or a fresh live token becomes the entry |
| Watchers.WatcherRegistry.Stop | internal/k8s/watcher_k8s.go:123-136 | removes the entry and cancels exactly its token |
| Watchers.WatcherRegistry.StopAll | internal/k8s/watcher_k8s.go:228-283 | on success exactly the listed resources of the context lose their entries and tokens; a failing list keeps what was done before it |
| Watchers.WatcherRegistry.RestartAll | internal/k8s/watcher_k8s.go:161-226 | on success every listed resource of the context has an entry, new ones started for a listed resource with that name, entries that were there and all tokens untouched; the exact condition of success, and of the annotation being cleared |
| Watchers.KeysExactly | internal/k8s/watcher_k8s.go:239-266 | which keys a bulk operation acts on: those of the listed resources whose context id is the federation one |
| Watchers.OwnWatchers | internal/k8s/watcher_k8s.go:47 | after a restart that had every watcher to start, each listed resource has one of its own exactly when no two of different kinds have one name |
| Watchers.WatcherRegistry.StopThenRestart | internal/k8s/watcher_k8s.go:161-283 | a bulk stop and a bulk restart give back the watched keys when all were watched, with fresh tokens for the context and the old ones elsewhere |
| Watchers.WatcherRegistry.ReconcileWatchers | internal/controller/federation_controller.go:321-346 | what a guest federation's reconcile does to its watchers in each state, and what becomes of the annotation that allows the stop |
| Watchers.LockStopsOnlyFirst | internal/controller/federation_controller.go:324-331 | over every run, a locked reconcile stops the watchers exactly when no earlier one, locked or available, did its work and was stored |
| Watchers.NoStopAfterAvailable | internal/controller/federation_controller.go:343-346 | a federation once reconciled as available keeps its watchers when it is locked |
| Watchers.SuccessfulPrefix | internal/k8s/watcher_k8s.go:229-233 | the lists before the first failing one are the ones acted on |
| WriteBack.DiffRoundTrip | internal/controller/image_controller.go:113 | merging the computed patch into its own base gives the modified object |
| WriteBack.MergeField | internal/controller/image_controller.go:134 | three-way merge against anything stored: a changed member gets its value, an unchanged one keeps the stored leaf, exactly unless an enclosing member was removed or overwritten |
| WriteBack.FinalizersAreReplaced | internal/controller/image_controller.go:108 | for any objects: the stored finalizer list survives exactly when the reconcile did not change it or changed it to the same |
| WriteBack.Deferred | internal/controller/federation_controller.go:154-204 | the two-phase write-back with the status put back and the resource version aligned: what is stored in each case; with one version on base and object it succeeds exactly when the needed servers are up, with a newer object exactly when also nobody wrote since; a failed metadata patch leaves the stored object untouched |
| WriteBack.LosesNoUpdate | internal/controller/image_controller.go:110-140 | for every stored version, with the servers up: every changed field has its value and every other keeps what concurrent writers stored, before the first patch or between the two |
| WriteBack.FailedState | internal/controller/federation_controller.go:154-170 | after a permanent error the stored state is FAILED, unless it was so all along, and the other members of the status are as without the error |
| WriteBack.StatusLeftAlone | internal/controller/image_controller.go:129-134 | an object being deleted, or one whose status server is down, keeps the status others left |
| WriteBack.ConditionalWriteBack | internal/rest/applicationonboarding_rest.go:142 | a reconcile whose REST client stored a status on the way succeeds in writing back exactly when nobody wrote since, up to its first patch |
| Base62.ReverseInPlace | pkg/uuid/uuid.go:34-37 | the in-place loop reverses the buffer |
| Base62.Digits | pkg/uuid/uuid.go:25-32 | the division loop ends and writes a numeral of the value, least significant digit first |
| Base62.Encode | pkg/uuid/uuid.go:18-40 | for every hash value: read back in base 62 it gives the value, no leading zero, at most 43 characters, matching the identifier pattern exactly from 62 to the seventh on |
| Base62.DigitOrder | pkg/uuid/uuid.go:16 | the digits are figures, capitals, small letters, in this order |
| Base62.NumeralUnique | pkg/uuid/uuid.go:18-40 | there is one such numeral, so different hash values have different identifiers |
| Base62.HashNumeral | api/operator/v1beta1/applicationdeployment_types.go:111 | length bound and the exact condition of the pattern |
| Zones.RestateInPlace | pkg/metastore/federation.go:130-143 | the status pass, in place, gives each zone the last status listed for its id |
| Zones.Remove | pkg/metastore/federation.go:144-157 | the remove pass is the order-preserving filter |
| Zones.UpdateZones | pkg/metastore/federation.go:127-173 | the three passes equal map, filter, append; a zone without a location aborts; the patch base keeps the old list |
| Zones.UpdateConserves | pkg/metastore/federation.go:130-173 | the length changes by exactly what is removed and added; unique ids stay unique exactly when the added ids are distinct and new |
| Zones.RestatedShows | pkg/metastore/federation.go:130-143 | there is exactly one zone that keeps the old data and shows the last status listed for its id, or its old one when none is; the status pass makes it |
| Zones.UpdateMeans | pkg/metastore/federation.go:127-173 | an update zone by zone: the added ones at the end, in order, NOT_AVAILABLE; before them exactly the old ones that are not removed, each showing its last status |
| Zones.WithoutOrder | pkg/metastore/federation.go:150-156 | the filter keeps the order |
| Zones.CompareSameAZs | internal/k8s/util_k8s.go:35-49 | on any lists: equal length and every id of the second in the first |
| Zones.SameUpToOrder | internal/k8s/util_k8s.go:35-49 | against a list without duplicates: exactly equality of ids up to reordering |
| Zones.SameIsEquivalence | internal/k8s/util_k8s.go:34-49 | among lists without duplicates it is an equivalence |
| Zones.DuplicatesBreakSymmetry | internal/k8s/util_k8s.go:39-47 | for every list with a duplicate, one that compares with it but not the other way round |
| Zones.SymmetricExactly | internal/k8s/util_k8s.go:35-49 | the comparison can be turned around for every partner of a second list exactly when it has no duplicates, and of a first list exactly when it has at most one id |
| AdmissionPolicy.PolicyStore.FederationContextIdPolicy | internal/k8s/policy/validationAdmission.go:44-177 | the stored policy: the operations and resources it looks at, and the rule of the role over a list that prints, in any order and each once, the ids of the role with the forced one in or out; every failure point, and what it leaves stored |
| AdmissionPolicy.PrintedReadsBack | internal/k8s/policy/validationAdmission.go:84-91 | the printed list reads back to itself exactly when no id needs escaping |
| AdmissionPolicy.PolicyDecides | internal/k8s/policy/validationAdmission.go:92-136 | on any request, present or missing fields, the stored policy admits exactly those for zones and federations, and objects with a relation whose id, if the relation is the role, is in the set |
| AdmissionPolicy.RolesDecide | internal/k8s/policy/validationAdmission.go:92-103 | the decision with its texts: the guest policy judges objects whose relation is "GUEST" by their id, the host policy those whose relation is "HOST"; objects of the other relation always pass |
| AdmissionPolicy.AcceptedExactly | internal/k8s/policy/validationAdmission.go:44-83 | which ids a call accepts: those of the listed federations of the role, with the added one and without the removed one |
| AdmissionPolicy.ListTexts | internal/k8s/policy/validationAdmission.go:84-91 | the printed list: brackets, double quotes, commas |
| AdmissionPolicy.Marks | internal/controller/federation_controller.go:259-267 | a live federation gets its mark exactly when every call of its policy step succeeds, and its id is accepted once the policy is stored |
| AdmissionPolicy.Removes | internal/controller/federation_controller.go:221-247 | a federation marked deleted goes exactly when every call of its deletion succeeds, its id taken out by then |
| AdmissionPolicy.OtherTurns | internal/controller/federation_controller.go:249-267 | the finalizer comes first and clears the mark; no other turn changes the policy |
| AdmissionPolicy.NextKeeps | internal/controller/federation_controller.go:237-267 | a step keeps the policies right exactly when it neither takes out an id that another live federation marked "set" shares, nor moves a marked federation off an id or onto one that is not accepted |
| AdmissionPolicy.PoliciesStayRight | internal/controller/federation_controller.go:206-267 | over every run: each live federation marked "set" is accepted and no removed one is, after every step, exactly when no step breaks it as above |
| AdmissionPolicy.DistinctPoliciesStayRight | internal/controller/federation_controller.go:206-267 | and with distinct context ids, exactly when no step gives a marked federation another id |
| AdmissionPolicy.AdmissionFollowsFederations | internal/k8s/policy/validationAdmission.go:92-103 | so requests for live marked federations pass the printed rule, and requests that pass name a stored federation |
| AdmissionPolicy.SharedIdIsDropped | internal/k8s/policy/validationAdmission.go:66-68 | removing a federation locks others out exactly when a live marked one of the role has its id |
| AdmissionPolicy.MovedFederationIsLockedOut | internal/rest/federation_rest.go:573 | any federation can be set up and then moved, and is locked out |
| ImageTransfer.BuildRequest | internal/rest/image_rest.go:50-94 | the request built step by step; no body is an error |
| ImageTransfer.FormWriter.Serialize | internal/multipart/formdata.go:24-77 | the parts written are the sent fields in order, empty ones left out, the location always there |
| ImageTransfer.NewUploadFileMultipartBody | api/ewbi/models/multipart.go:55-94 | reading a form: aborted, rejected, or the request |
| ImageTransfer.MetaStore.UploadImage | pkg/metastore/image.go:57-111 | stores the host image under its hashed name, exactly for a hosted federation and a free name; why not otherwise |
| ImageTransfer.MetaStore.UploadFile | pkg/handler/server.go:335-352 | the handler: status code and new store for every form |
| ImageTransfer.Conclude | internal/rest/image_rest.go:107-153 | what each response code leaves on the image, which ones are reported as errors, and which ones without a readable detail crash the client |
| ImageTransfer.FieldsArrive | internal/multipart/formdata.go:24-77 | every field is read with exactly the value it was sent with, or not at all |
| ImageTransfer.WireTexts | internal/multipart/formdata.go:24-77 | which text of the image travels under which field, empty ones left out |
| ImageTransfer.WireLocation | internal/rest/image_rest.go:55-64 | the location that travels, member by member, an absent one as an object without members |
| ImageTransfer.StoredContents | pkg/metastore/image.go:57-105 | what the host stores of a request, member by member |
| ImageTransfer.RequestRoundTrip | api/ewbi/models/multipart.go:55-94 | form round trip of every request: when it aborts, when it is rejected, and what comes back |
| ImageTransfer.TransferAccepted | api/ewbi/models/multipart.go:61-91 | an image with a body is accepted by the host exactly when its six required texts and its OS type are not empty |
| ImageTransfer.TransferPreserves | pkg/metastore/image.go:57-105 | and then the host image is the guest image: same id, context, link, provider, name, version, type, repository type, architecture, OS and location, an absent location made empty |
| ImageTransfer.ImageNameInjective | pkg/metastore/image.go:61 | two uploads meet in one host image only for the same context and file |
| ImageTransfer.CreateImage | internal/rest/image_rest.go:50-154 | the whole path: exactly when the host stores the image and what it stores, the state left on the guest's image, and that an error is reported exactly for what could not be sent or read, not for what the host refused |
| Naming.ScopedKeyInjective | internal/controller/artefact_controller.go:215 | an id followed by a fixed-length context id determines both |
| Naming.MirrorNameInjective | internal/k8s/artefact_k8s.go:46 | so label lookup and mirror create, read and delete hit the same object exactly for the same id and context |
| Naming.DecimalReadsBack | pkg/uuid/uuid.go:43 | the rendering of a number reads back as the number, without a leading zero |
| Naming.MillisReadsBack | pkg/uuid/uuid.go:43 | and so does a date, one before 1970 with a sign |
| Naming.MillisInjective | pkg/uuid/uuid.go:43 | the decimal rendering of the date determines it |
| Naming.FederationKeyInjective | pkg/uuid/uuid.go:42-44 | exactly when two federation keys are equal, for any dates and optional countries; with equally many digits, only for the same operator, date and country |
| Naming.FederationKeysMeet | pkg/uuid/uuid.go:42-44 | two dates can give two operators one key exactly when the digits of one end those of the other |
| Naming.DeploymentKeysEqual | internal/controller/applicationdeployment_controller.go:256 | exactly when two deployments of a context have one key |
| Naming.DeploymentKeyCollides | api/operator/v1beta1/applicationdeployment_types.go:138-143 | two valid application ids have valid instances with one key exactly when one id continues the other, not with an underscore |
| Naming.DeploymentKeyCollision | internal/controller/applicationdeployment_controller.go:256 | two valid deployments with one key |
| Model.NeedsPointUp | internal/controller/applicationonboarding_controller.go:217-227 | what a resource names lies in a later layer, so dependencies have no cycles |
| Model.ComponentNeedsKind | internal/controller/image_controller.go:246-252 | an artefact names exactly the images of its components |

## Left out

- ConsumptionMonitoring: it is not among a federation's dependents
  (internal/controller/federation_controller.go:377-383) and otherwise repeats the image pattern.
- Orphans on the REST path: REST deletes return no error on HTTP error codes, so mirrors,
  causality and guest states are claimed for the Kubernetes path only; reference closure covers both.
- The guest learning LOCKED: a guest that is AVAILABLE with the same zones ignores the host
  status (internal/k8s/federation_k8s.go:225-229).
- The rest of the federation reconciler (creation on the partner, annotations asked of the partner,
  renewal over REST, callbacks): it enters the protocol as an arbitrary change of the federations.
- Mobile-network and endpoint updates, and metastore removal of onboardings and deployments.
- `AddAvailabilityZones` writes to loop copies and has no effect (pkg/metastore/federation.go:242-246).
- Controllers.Operator.UpdateStatus: of a status only the state is modelled; the other fields are copied with it.
- Controllers.Operator.Deferred: label and finalizer stand for the metadata and the state for the status;
  annotations, other labels and other writers are in `WriteBack`.
- Controllers.Operator.ReconcileHost: does not model the host's label, which nothing modelled here reads, nor
  REST callbacks.
- Controllers.Operator.ReconcileFederationDeletion: of the policy update only the outcome; `AdmissionPolicy`
  has what it stores.
- Controllers.Operator.ReconcileImage: a patch that takes effect and still reports an error is stored as one
  that succeeded and answered as one that failed; the two are not combined in one step.
- Lifetime.TimedRun: does not model the saturation of a duration beyond 292 years.
- AdmissionPolicy.PoliciesStayRight: does not model stale caches; the list call returns what is stored.
- ImageTransfer.CreateImage: does not model the API validator before the handler, nor boundaries and encodings
  of the multipart format.
- Watchers.WatcherRegistry.RestartAll: starts and stops by others in the middle of a bulk operation are not
  modelled; the interleavings are those of single starts and stops.
- WriteBack.FailedState: the member and the text of the failed state are those of the federation reconciler;
  images and artefacts use ERROR, deployments a nested member.
- WriteBack.Deferred: other writers act before the first patch and between the two, not inside a patch,
  which the API server makes atomic.
- HTTP clients, echo routing, kubeconfig and client building, informers, event channels, logging.
- JSON, MIME and hash internals.
