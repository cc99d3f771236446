# ksdns: a model of the dynamic-update replica and of the record builder

ksdns serves DNS zones from Kubernetes. Its `zupd` replica takes RFC 2136 dynamic updates and keeps
them in an overlay beside each base zone; it writes the overlay into the status of a Zone object and
replays it after a restart. Its operator turns the records a user states into zone text. This project
models both and proves what each step keeps and what holds over whole runs.

## How it is laid out

| file | what it holds |
|---|---|
| `Dns.dfy`, `ZoneValue.dfy` | records, zones as values, and the algebra of inserting, removing, listing and merging |
| `FileZone.dfy` | the zone object with its shared SOA object |
| `Update.dfy` | the update section: what ends it, what is applied, the nested loop |
| `Registry.dfy`, `Routing.dfy` | the registry of zones and the choice of the zone for a name |
| `Cluster.dfy`, `Startup.dfy` | Zone objects and their status; the cold start |
| `Steps.dfy`, `Plugin.dfy` | one request or reconciliation, as a relation on values and as methods on the objects |
| `Runs.dfy`, `Answers.dfy`, `Types.dfy`, `Recovery.dfy`, `SharedNames.dfy`, `Serving.dfy`, `SerialOrder.dfy` | whole runs of one replica |
| `Concurrency.dfy`, `SerialRaces.dfy`, `LoneHandler.dfy` | update handlers of one zone interleaved under its lock, the serials they leave, and how a handler that is alone compares with a request |
| `ZoneBuilder.dfy` | the operator's record builder |

The objects (`Zones`, `DynamicUpdate`, `FileZone.Zone`, `ZoneStatus`) are changed in place by methods. A
method on the registry takes, as a ghost argument, the value `r: Replica` that the registry stands for
(`zones.Shows(r)`) and ensures which value it stands for afterwards. The lemmas about runs are about
those values; `ServeStep`, `ReconcileStep` and `Load` connect the two.

## What is assumed of the libraries

The zone type comes from a fork of CoreDNS, and record text from miekg/dns; neither is part of this
model. It rests on this contract:

- A zone is an apex (a reference to an SOA object, a list of NS records) and a tree that maps (owner in
  lower case, type) to a sequence of records. Inserting appends to the record's key; an SOA replaces the
  apex SOA and an NS at the origin joins the apex. `All` lists the tree with each key's records in their
  order and the keys in any order, even interleaved. `Copy` gives an empty tree and shares the apex.
- Removing a record touches its own key only. Whether it empties the key, takes out all records with
  equal data or the first of them is `DELETION`; which types the zone refuses is `REFUSED_TYPES`; the
  syntax check of names is `IS_DOMAIN_NAME`; which texts are IPv4 addresses, and how they are printed, is
  `READ_ADDRESS`; whether a lone `@` is escaped when an owner name is printed is `ESCAPES_AT`. None of
  these constants has a value here, so every statement holds for each value they could have.
- A text is an `Entry`: one that reads back as a record, or one that does not parse. Printing a record
  and reading it back gives the record; an A record without an address prints as a text without data,
  which does not parse.
- A zone text parses when all its entries do and the zone refuses none of them; relative owner names are
  completed with the origin, for which `@` stands. A text without an SOA is allowed to parse, so the
  handler's branch for a missing SOA is covered.
- The longest-match rule for zones and the subdomain test are CoreDNS's and miekg's, on lower-case names.

## Main results

- After any run of requests, reconciliations, cluster changes and restarts, a restart brings the overlay
  of a zone back exactly as it was at its last successful status write or start, and what is lost is
  exactly what was applied since; from then on the zone has stayed registered with one object, and what
  happened before does not matter (`Recovery.CrashRecovery`). If the text did not change, the served zone
  is the same but for the SOA serial (`Recovery.RecoveredZone`).
- With any number of watched objects for a zone, what a start brings back is given in terms of the
  cluster (`Recovery.StartLoads`), and so is exactly when it brings back a save
  (`SharedNames.RecoveryExactWhen`).
- What every request of every run is answered is fixed, from the request and the state alone
  (`Runs.RoutedIsServed`, `Answers.UpdateIsAnswered`): in particular a plain query is looked up in the
  merge of both zones, and an update is answered NOERROR exactly when it has no offender, its object is
  found and written, the zone has an SOA and the reply is sent; its status then replays to the overlay.
- What a handler of an interleaving can do alone is exactly an update step of a run, with the same answer
  (`LoneHandler.LoneHandlerIsUpdateStep`, `LoneHandler.UpdateStepIsLoneHandler`).
- Under every interleaving of update handlers, each status write stores the fold of whole handlers in
  lock order (`Concurrency.WriteStoresOverlay`), what is persisted is such a fold in every state from the
  first write on (`Concurrency.PersistedIsPrefix`), and every update answered NOERROR is inside it
  (`Concurrency.AcknowledgedIsPersisted`).
- Under every interleaving, status and SOA show the serials of the last handlers that set them
  (`SerialRaces.SerialsOfLast`). As long as no handler takes the write lock while another is between its
  two locks, they agree (`SerialRaces.SerialsAgree`). If the lock is also taken in the order of arrival,
  in which the serials are taken from the clock, then the serial that stays is the newest: no handler
  that wrote the status arrived later (`SerialRaces.NewestSerialStays`), and none that was answered
  NOERROR has a greater serial (`SerialRaces.NoGreaterSerial`).
- The name list, the base map and the overlay map agree in every state of every run
  (`Runs.AlwaysConsistent`), so a routed request always finds both zones (`Runs.RoutedIsServed`).
- Merging is concatenation under every key, whatever order the trees are listed in, and it commutes with
  insertion; static records stay in front through every run (`Serving.StaticRecordsSurvive`).
- Setting the serial on the merged copy sets it on the base zone, because they share the SOA object
  (`Plugin.DynamicUpdate.SetSerial`), and that serial stays until the next save, spec change or restart
  (`Serving.SerialStays`).
- Through any number of spec changes, the overlay changes by the updates alone, and the static part is
  the last text that parses (`Serving.SpecChangesKeepOverlay`).

## Where a stronger claim is false

The code is modelled as it is. Each of these has its exact condition; for overlapping updates there are
two, and neither can be dropped.

- A rejected update is not undone, so updates are not atomic as section 3.4 of RFC 2136 asks:
  `Update.RejectionIsAtomicWhen`.
- Removing what was just inserted need not restore the zone: `ZoneValue.RemoveUndoesPutWhen`.
- A save goes to the first watched namespace that has the object, and a start replays the statuses from
  the first namespace in which the text parses. So with several objects of one name a restart can lose a
  save that was answered NOERROR (`SharedNames.SaveCanBeLost`), or add records of other objects to it. It
  brings the save back exactly when the saved object is replayed and no other replayed one has a stored
  record, or it is not replayed and the others happen to hold the same records:
  `SharedNames.RecoveryExactWhen`.
- Reconciliation registers a zone without replaying its status: `Serving.CreatedOverlayIsStatusWhen`.
- An object that is being deleted but was not registered gets registered. So reconciling it again and
  again takes its zone away and puts it back, without its dynamic records:
  `Serving.DeletingObjectServedWhen`.
- The persisted serial is never read back, so a restart or a spec change can make the served serial go
  back: `SerialOrder.SerialGoesBackWhen`.
- Overlapping updates can leave an older serial in place of a newer one, or two different serials in the
  status and the SOA. They do not as long as the write lock is taken in the order of arrival and not while
  another handler is between its two locks (`SerialRaces.NewestSerialStays`), which holds when handlers
  come one by one (`SerialRaces.OneByOneIsOrderly`). From every gap behind which a later arrival waits,
  and from every state in which two handlers wait, an older serial can stay (`SerialRaces.GapLeavesOlder`,
  `SerialRaces.OutOfTurnLeavesOlder`), and for any two updates neither condition is enough alone
  (`SerialRaces.AnyTwoCanEndOutOfOrder`).
- A generated zone text need not parse: it does exactly when every address in it is one
  (`ZoneBuilder.GeneratedZoneLoads`).

## Model

| member | source | states |
|---|---|---|
| ZoneValue.PutAllAppends | pkg/zupd/plugin/dynamicupdate/merge.go:27-41 | inserting a list appends, under each key, exactly the records that land there, in order |
| ZoneValue.Rebuild | pkg/zupd/plugin/dynamicupdate/setup.go:173-183 | listing an overlay in any key order and inserting the list into an empty zone gives the overlay back |
| ZoneValue.MergeByInsertion | pkg/zupd/plugin/dynamicupdate/merge.go:24-42 | copying the base and then the overlay, each listed in any order, gives the base's apex and, under every key, the base records followed by the overlay's |
| ZoneValue.MergeCommutesWithPut | pkg/zupd/plugin/dynamicupdate/merge.go:24-42 | inserting into the overlay and merging equals merging and inserting |
| ZoneValue.RemoveEffect | pkg/zupd/plugin/dynamicupdate/dynamicupdate.go:130-132 | a removal leaves other keys and the apex alone, and takes away from its key the whole set, all records with its data or the first of them, as the library may do |
| ZoneValue.RemoveUndoesPutWhen | pkg/zupd/plugin/dynamicupdate/dynamicupdate.go:121-132 | a removal undoes the insertion before it if and only if nothing else is lost with it |
| ZoneValue.UnreadableIsSkipped | pkg/zupd/plugin/dynamicupdate/setup.go:173-183 | a persisted text that does not read back is skipped, and those after it count all the same |
| Update.FirstOffenderDecides | pkg/zupd/plugin/dynamicupdate/dynamicupdate.go:105-140 | the first offending record alone fixes the answer and where processing stops, whatever follows; without one the section is processed once per question |
| Update.RecordEffect | pkg/zupd/plugin/dynamicupdate/dynamicupdate.go:106-138 | what class IN, class NONE and every other class do to the overlay, and which answer each refusal gives |
| Update.NextRecordByData | pkg/zupd/plugin/dynamicupdate/dynamicupdate.go:105-140 | by data and class alone: which records are appended, taken away or passed over, which end the update and with which answer, whatever follows |
| Update.TimesRepeats | pkg/zupd/plugin/dynamicupdate/dynamicupdate.go:105-106 | without an offender the section is gone through once for every question, position by position |
| Update.KeysAreIndependent | pkg/zupd/plugin/dynamicupdate/dynamicupdate.go:105-140 | what an update leaves under a key depends on its records for that key alone, in their order |
| Update.RejectionIsAtomicWhen | pkg/zupd/plugin/dynamicupdate/dynamicupdate.go:105-140 | a rejected update leaves every overlay as it was if and only if no record before the offender has a proper name and a storable type |
| Update.ApplySection | pkg/zupd/plugin/dynamicupdate/dynamicupdate.go:103-141 | the nested loop with its early returns folds exactly the processed records into the overlay and returns the offender's code |
| Registry.FirstMatchSuffices | pkg/zupd/plugin/dynamicupdate/dynamicupdate.go:61-67 | stopping at the first match removes the name completely, keeping order, if and only if it stands there at most once |
| Registry.DropKeepsConsistent | pkg/zupd/plugin/dynamicupdate/dynamicupdate.go:56-68 | deleting a zone keeps the registry invariant and the order of the other names |
| Registry.Zones.DeleteZone | pkg/zupd/plugin/dynamicupdate/dynamicupdate.go:56-68 | the two maps and the name list lose the zone, and no other zone changes |
| Routing.RouteIsLongest | pkg/zupd/plugin/dynamicupdate/dynamicupdate.go:74-78 | on the names themselves: the chosen zone is the root, the query name, or what follows an unescaped dot of it, and no registered name of that kind is longer |
| Routing.RouteIgnoresOrder | pkg/zupd/plugin/dynamicupdate/dynamicupdate.go:75 | the choice depends only on which names are registered |
| Routing.RouteAfterDelete | pkg/zupd/plugin/dynamicupdate/dynamicupdate.go:56-78 | deleting a zone re-routes only the names routed to it, to the longest of its remaining ancestors whenever it has one, else to none |
| Cluster.SnapshotReplays | pkg/zupd/plugin/dynamicupdate/dynamicupdate.go:160-167 | replaying a printed snapshot of an overlay, in whatever order it was listed, gives the overlay |
| Cluster.FoundFirst | pkg/zupd/plugin/dynamicupdate/dynamicupdate.go:143-158 | the object is found in the first readable namespace that has it, and not at all if there is none |
| Cluster.ZoneStatus.SetDynamicRRs | pkg/zupd/api/v1alpha1/zone_types.go:47-58 | the status holds the printed records in order, and its serial stays |
| Cluster.ZoneStatus.GetDynamicRRsAsZone | pkg/zupd/api/v1alpha1/zone_types.go:60-75 | the zone the readable texts build, skipping the others; null if and only if its tree would be empty |
| Cluster.StatusRoundTrip | pkg/zupd/api/v1alpha1/zone_types.go:47-75 | setting records and reading them back builds what inserting them builds, the same as the start-up replay |
| Cluster.StatusReadsAsNothing | pkg/zupd/api/v1alpha1/zone_types.go:60-75 | reading back gives nothing if and only if no record lands outside the apex |
| Startup.LoadConsistent | pkg/zupd/plugin/dynamicupdate/setup.go:152-186 | every cold start establishes the registry invariant |
| Startup.LoadedFrom | pkg/zupd/plugin/dynamicupdate/setup.go:152-185 | the first namespace in which a name parses gives the base zone, and the overlay is the fold of all statuses of that name from there on |
| Startup.NeverParsed | pkg/zupd/plugin/dynamicupdate/setup.go:160-171 | a name none of whose objects parses is not registered |
| Startup.Initialize | pkg/zupd/plugin/dynamicupdate/setup.go:152-186 | the loading loops build the registry of that fold, and fail if and only if a namespace cannot be listed |
| Plugin.DynamicUpdate.Merge | pkg/zupd/plugin/dynamicupdate/merge.go:9-43 | a new zone with the merged contents and the base zone's own SOA object; null if and only if the zone is not registered; nothing else changes |
| Plugin.DynamicUpdate.SetSerial | pkg/zupd/plugin/dynamicupdate/dynamicupdate.go:175-192 | writing the serial through the merged copy changes the base zone's SOA serial and nothing else |
| Plugin.DynamicUpdate.Persist | pkg/zupd/plugin/dynamicupdate/dynamicupdate.go:160-174 | a successful write stores a snapshot of the overlay and the serial in that object only; a failed one stores nothing |
| Plugin.DynamicUpdate.HandleUpdate | pkg/zupd/plugin/dynamicupdate/dynamicupdate.go:96-212 | the update branch as a step: prefix kept on rejection, overlay kept on a failed write, snapshot and serial on success |
| Plugin.DynamicUpdate.ServeDNS | pkg/zupd/plugin/dynamicupdate/dynamicupdate.go:71-251 | every branch of the handler up to the lookup, as one step of registry and cluster |
| Plugin.DynamicUpdate.Reconcile | pkg/zupd/plugin/dynamicupdate/zone_controller.go:37-100 | delete, create, replace and parse failure, each as one step of the registry |
| Runs.AlwaysConsistent | pkg/zupd/plugin/dynamicupdate/zone_controller.go:56-97 | names, base zones and overlays agree in every state of every run |
| Runs.RoutedIsServed | pkg/zupd/plugin/dynamicupdate/dynamicupdate.go:74-94 | in every state of every run: an unrouted name goes to the next plugin, a transfer is refused, a NOTIFY is a success, and every other request but an update is looked up in the merge of the two zones of its name; nothing changes |
| Answers.UpdateIsAnswered | pkg/zupd/plugin/dynamicupdate/dynamicupdate.go:96-212 | in every state of every run: the answer of an update in each case, NOERROR if and only if all went well, when the status is written, and that it then replays to the overlay |
| Answers.RetriedWhen | pkg/zupd/plugin/dynamicupdate/zone_controller.go:43-97 | a reconciliation is retried if and only if the object cannot be read, or must be parsed and cannot |
| Runs.ServeEffect | pkg/zupd/plugin/dynamicupdate/dynamicupdate.go:71-251 | a request changes nothing, or the overlay of one zone, or also its object and its SOA serial |
| Types.AlwaysClean | pkg/zupd/plugin/dynamicupdate/dynamicupdate.go:106-132 | through every run and restart, overlays and persisted lists hold only allowed types of class IN, and overlays have no apex |
| Recovery.StartLoads | pkg/zupd/plugin/dynamicupdate/setup.go:152-186 | what any start makes of the objects of one name in the cluster: registered if and only if one parses, the first that does gives the base, and the overlay is the fold of the statuses from its namespace on |
| Recovery.ColdStart | pkg/zupd/plugin/dynamicupdate/setup.go:152-186 | for a name with one watched object: registered if and only if its text parses, with the parsed base and the replayed status |
| Recovery.PersistedIsLastSync | pkg/zupd/plugin/dynamicupdate/dynamicupdate.go:103-174 | at every point of every run the status stands for the overlay of the last save, and the overlay is that one with the records applied since |
| Recovery.CrashRecovery | pkg/zupd/plugin/dynamicupdate/setup.go:152-186 | a restart restores the overlay of the last save or start; exactly the records applied since are lost |
| Recovery.RecoveredZone | pkg/zupd/plugin/dynamicupdate/setup.go:160-185 | while the served text stays unchanged, the zone served after the restart is the one of the last save or start but for the SOA serial |
| SharedNames.RecoveryExactWhen | pkg/zupd/plugin/dynamicupdate/setup.go:152-186 | over runs with any number of objects of one name: after the last save to an object, a restart restores the saved overlay if and only if the object is replayed and no other replayed one has a stored record, or it is not and the others hold the same records |
| SharedNames.SaveCanBeLost | pkg/zupd/plugin/dynamicupdate/dynamicupdate.go:145-174 | when the first object's text does not parse, an update answered NOERROR is saved to it, and a restart comes up with an empty overlay |
| Serving.StaticRecordsSurvive | pkg/zupd/plugin/dynamicupdate/merge.go:24-42 | through any run without a spec change every merged key still starts with all its static records |
| Serving.SerialStays | pkg/zupd/plugin/dynamicupdate/dynamicupdate.go:169-192 | after a save, status and merged SOA show its serial until another save, a spec change or a restart |
| Serving.SpecChangesKeepOverlay | pkg/zupd/plugin/dynamicupdate/zone_controller.go:71-97 | through any run of spec changes and updates, the static part is the last text that parses, and the dynamic part is the first one with exactly the records applied since |
| Serving.DeletingObjectServedWhen | pkg/zupd/plugin/dynamicupdate/zone_controller.go:56-83 | through any run without a restart, each reconciliation of a deleting object whose text parses flips its zone between registered and not, and what comes back has the records applied since alone |
| Serving.CreatedOverlayIsStatusWhen | pkg/zupd/plugin/dynamicupdate/zone_controller.go:73-83 | a zone created by reconciliation has the overlay of its status if and only if that status has no stored record |
| SerialOrder.SerialsCompareByGap | pkg/zupd/plugin/dynamicupdate/dynamicupdate.go:100 | how two millisecond serials compare in the sense of section 3.2 of RFC 1982, by their gap modulo 2^32, undefined exactly at 2^31 |
| SerialOrder.LaterSaveGreaterSerial | pkg/zupd/plugin/dynamicupdate/dynamicupdate.go:100-174 | in a run, a later save within 2^31 milliseconds writes a greater serial, also across the wrap-around |
| SerialOrder.SerialGoesBackWhen | pkg/zupd/plugin/dynamicupdate/setup.go:152-186 | after a save, a restart or a new text shows the serial of the text, which is less than the saved one exactly when it is behind the clock of the save by less than 2^31 modulo 2^32 |
| Concurrency.AlwaysInv | pkg/zupd/plugin/dynamicupdate/dynamicupdate.go:103-211 | the lock, order, data and acknowledgement invariants hold in every state of every interleaving |
| Concurrency.WriteStoresOverlay | pkg/zupd/plugin/dynamicupdate/dynamicupdate.go:141-174 | each status write stores the current overlay, which is the fold of what all handlers get to apply, in lock order |
| Concurrency.BlockIsProcessed | pkg/zupd/plugin/dynamicupdate/dynamicupdate.go:105-140 | under interleaving too, a handler that gave the write lock back has applied its whole section or what stands before the offender, whose code it answered |
| Concurrency.PersistedIsPrefix | pkg/zupd/plugin/dynamicupdate/dynamicupdate.go:103-174 | in every state from the first write on, and from the beginning if the status stood for the overlay, the status replays to the fold of what the first handlers in lock order get to apply |
| Concurrency.AcknowledgedIsPersisted | pkg/zupd/plugin/dynamicupdate/dynamicupdate.go:103-211 | a handler that answered NOERROR has its whole section inside the persisted prefix |
| LoneHandler.LoneHandlerIsUpdateStep | pkg/zupd/plugin/dynamicupdate/dynamicupdate.go:96-212 | whatever a handler alone does from its arrival to its answer is an update step, with that answer |
| LoneHandler.UpdateStepIsLoneHandler | pkg/zupd/plugin/dynamicupdate/dynamicupdate.go:96-212 | every update step can be taken by a handler alone, with that answer |
| SerialRaces.SerialsOfLast | pkg/zupd/plugin/dynamicupdate/dynamicupdate.go:169-188 | in every interleaving, the status shows the serial of the last handler that wrote it and the SOA that of the last that set it |
| SerialRaces.SerialsAgree | pkg/zupd/plugin/dynamicupdate/dynamicupdate.go:141-192 | without a gap, once all handlers finished, status and SOA show the serial of the same handler, the last in lock order that saved |
| SerialRaces.NewestSerialStays | pkg/zupd/plugin/dynamicupdate/dynamicupdate.go:100-192 | without a gap and with the write lock taken in the order of arrival, that serial is the newest: no handler that wrote the status or was answered NOERROR arrived later |
| SerialRaces.NoGreaterSerial | pkg/zupd/plugin/dynamicupdate/dynamicupdate.go:100-192 | then, by a clock within 2^31 milliseconds, no handler answered NOERROR has a serial greater than the one that stays, in the sense of section 3.2 of RFC 1982 |
| SerialRaces.OneByOneIsOrderly | pkg/zupd/plugin/dynamicupdate/dynamicupdate.go:100-142 | when each handler arrives after all earlier ones finished, both conditions hold |
| SerialRaces.GapLeavesOlder | pkg/zupd/plugin/dynamicupdate/dynamicupdate.go:141-192 | from every reachable gap, both handlers can answer NOERROR with the serial of the one that arrived first staying in status and SOA, or with the two disagreeing |
| SerialRaces.OutOfTurnLeavesOlder | pkg/zupd/plugin/dynamicupdate/dynamicupdate.go:100-192 | from every reachable state in which two handlers wait, both can answer NOERROR without a gap and leave the serial of the one that arrived first |
| SerialRaces.AnyTwoCanEndOutOfOrder | pkg/zupd/plugin/dynamicupdate/dynamicupdate.go:100-192 | from any initial state, for any two sections without an offender and any two serials, neither condition alone is enough |
| ZoneBuilder.SplitUnique | apis/dns/v1alpha1/utils.go:76-94 | a text splits into full chunks and a shorter last one in exactly one way |
| ZoneBuilder.SplitCount | apis/dns/v1alpha1/utils.go:76-94 | there are len/255 + 1 chunks of 255 bytes but for the last, which has len mod 255 |
| ZoneBuilder.Split255 | apis/dns/v1alpha1/utils.go:77-94 | the index loop ends, stays in bounds, and its chunks rejoin to the text, full but for the last |
| ZoneBuilder.RecordKept | apis/dns/v1alpha1/ksdns_types.go:184-202 | the text of a record reads back if and only if the record does not lack its address, with name, type and data, SRV numbers included, and with its TTL if and only if it fits 32 bits; only a lone `@` may be printed otherwise |
| ZoneBuilder.ToRfc1035Zone | apis/dns/v1alpha1/ksdns_types.go:124-153 | success if and only if the origin is not empty and all types are supported; then SOA, NS, glue and one entry per record in order |
| ZoneBuilder.GeneratedZoneLoads | apis/dns/v1alpha1/utils.go:12-45 | the generated text parses if and only if the glue and every A target is an address; then its zone has the SOA with host, mailbox and times of the origin, and for an origin in lower case the NS and the address of the same host |
| ZoneBuilder.GeneratedZone | apis/dns/v1alpha1/ksdns_types.go:138-149 | the loaded zone has under each key exactly the glue and the user records, in order |
| ZoneBuilder.UserRecordsServed | apis/dns/v1alpha1/ksdns_types.go:143-149 | each user record is served under its name, completed with the origin, and its type |

## Left out

- CoreDNS and miekg/dns internals: the search tree, zone-file syntax, `Lookup`, transfers, `Notify`, TSIG and metrics; the contract above stands for them.
- An empty persisted text, for which the library returns no record and no error; an `Entry` either reads back as a record or does not parse.
- The mapping from a lookup result to the response code and sections (`ServeDNS`, lines 221-249): the step ends with the merged zone that is looked up.
- Zone expiry (`ServeDNS`, lines 214-220): the plugin never marks a zone as expired.
- Races between `ServeDNS` and registry steps, since `ServeDNS` reads the registry without its lock; registry steps are atomic with respect to requests here. `DeleteZone` editing the shared name slice in place is a new sequence here.
- Deadlock freedom: the read lock of the overlay is taken twice on the update path, and only safety is proved.
- Several replicas writing the same status, and users editing it; `Runs.EditStep` lets users change everything else.
- Reading the watched namespaces from the Corefile; the namespace list is given.
- The operator's other Kubernetes plumbing (`controllers/dns`), the command line, generated code, and `Reload`, `Ready` and shutdown.
- Concurrency.AcknowledgedIsPersisted: is about one zone that stays registered with its object in place, because handlers of different zones share no lock and no object.
- Recovery.CrashRecovery: is about a zone with one watched object that stays registered from the last save or start on; with several objects `SharedNames.RecoveryExactWhen` gives the exact condition, and a zone that was deleted and created again has the overlay `Serving.CreatedOverlayIsStatusWhen` describes.
- Records of an update that have class IN and no data, whose texts would not read back.
- ZoneBuilder.ToRfc1035Zone: the texts of records are entries, so presentation syntax and escaping are not modelled.
