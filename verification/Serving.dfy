/** What is served over a run: static records, the SOA serial, and the effect of spec changes. */
module Serving {
  import opened Wrappers
  import opened Dns
  import opened ZoneValue
  import opened Update
  import opened Registry
  import opened Cluster
  import opened Steps
  import opened Startup
  import opened Runs
  import opened Types
  import opened Recovery

  /** The event reconciles an object for `n`. */
  predicate Reconciles(e: Event, n: string) {
    e.Reconcile? && e.got.Object? && Fqdn(e.got.obj.name) == n
  }

  /** The event may put another base zone in place of that of `n`. */
  predicate Rebases(e: Event, n: string) {
    e.Restart? || Reconciles(e, n)
  }

  lemma KeepsBase(namespaces: seq<string>, pre: System, e: Event, post: System, n: string)
    requires Step(namespaces, pre, e, post) && !Rebases(e, n)
    requires n in pre.replica.base && n in pre.replica.overlay
    ensures n in post.replica.base && n in post.replica.overlay
    ensures SameButSerial(pre.replica.base[n], post.replica.base[n])
    ensures SavesTo(namespaces, pre, e, n) == None ==> post.replica.base[n] == pre.replica.base[n]
  {
    hide ServeStep, ParseZone, ApplyAll, Processed, Saved;
    if e.Serve? {
      ServeEffect(namespaces, pre, e, post);
    }
  }

  /** Static records survive: through any run without a spec change, every key of the merged zone
      still starts with all the records the base zone had there, whatever was updated. */
  lemma {:induction false} StaticRecordsSurvive(
    namespaces: seq<string>, states: seq<System>, events: seq<Event>, n: string, i: nat, j: nat, k: Key)
    requires Run(namespaces, states, events) && i <= j < |states|
    requires n in states[i].replica.base
    requires forall m :: i <= m < j ==> !Rebases(events[m], n)
    ensures n in states[j].replica.base && n in states[j].replica.overlay
    ensures SameButSerial(states[i].replica.base[n], states[j].replica.base[n])
    ensures Get(Merged(states[j].replica.base[n], states[j].replica.overlay[n]).tree, k)
         == Get(states[i].replica.base[n].tree, k) + Get(states[j].replica.overlay[n].tree, k)
    decreases j
  {
    hide Run, Step, Consistent, Rebases, Merged, Get;
    RunLength(namespaces, states, events);
    AlwaysConsistent(namespaces, states, events, j);
    ConsistentKeys(states[j].replica);
    if i < j {
      StaticRecordsSurvive(namespaces, states, events, n, i, j - 1, k);
      RunStep(namespaces, states, events, j - 1);
      KeepsBase(namespaces, states[j - 1], events[j - 1], states[j], n);
    }
    MergedUnderEachKey(states[j].replica.base[n], states[j].replica.overlay[n], k);
  }

  // ---- the SOA serial

  /** The zone has an SOA with this serial. */
  predicate ShowsSerial(v: ZoneVal, serial: u32) {
    v.soa.Some? && v.soa.value.data.serial == serial
  }

  lemma SaveWritesSerial(namespaces: seq<string>, pre: System, e: Event, post: System, n: string)
    requires Step(namespaces, pre, e, post) && SavesTo(namespaces, pre, e, n).Some?
    ensures e.Serve?
    ensures var key := SavesTo(namespaces, pre, e, n).value;
            && key in post.store && key.name == TrimDot(n) && n in post.replica.base
            && post.store[key].status.serial == SerialOf(e.env.millis)
  {
    ServeEffect(namespaces, pre, e, post);
    FindInStore(pre.store, namespaces, TrimDot(n), e.env.unreachable);
  }

  lemma SaveSetsSerial(namespaces: seq<string>, pre: System, e: Event, post: System, n: string)
    requires Step(namespaces, pre, e, post) && SavesTo(namespaces, pre, e, n).Some?
    requires n in pre.replica.base && pre.replica.base[n].soa.Some?
    ensures var key := SavesTo(namespaces, pre, e, n).value;
            && key in post.store && key.name == TrimDot(n) && n in post.replica.base
            && post.store[key].status.serial == SerialOf(e.env.millis)
            && ShowsSerial(post.replica.base[n], SerialOf(e.env.millis))
  {
    SaveWritesSerial(namespaces, pre, e, post, n);
    ServeEffect(namespaces, pre, e, post);
  }

  /** The SOA and the persisted status of `n` both show this serial. */
  ghost predicate SerialAt(s: System, n: string, key: ObjectKey, serial: u32) {
    && n in s.replica.base && n in s.replica.overlay && key in s.store && key.name == TrimDot(n)
    && s.store[key].status.serial == serial
    && ShowsSerial(s.replica.base[n], serial)
  }

  lemma NameIsFqdn(r: Replica, n: string)
    requires Consistent(r) && n in r.base
    ensures IsFqdn(n)
  {}

  lemma SerialStep(namespaces: seq<string>, pre: System, e: Event, post: System, n: string, key: ObjectKey, serial: u32)
    requires Consistent(pre.replica) && Named(pre.store) && Step(namespaces, pre, e, post)
    requires SerialAt(pre, n, key, serial) && key in post.store
    requires !Rebases(e, n) && SavesTo(namespaces, pre, e, n) == None
    ensures SerialAt(post, n, key, serial)
  {
    NameIsFqdn(pre.replica, n);
    hide Consistent, Named, Step, SavesTo, IsFqdn, TrimDot;
    KeepsBase(namespaces, pre, e, post, n);
    KeepsStatus(namespaces, pre, e, post, n, key);
  }

  /** After a successful update of a zone with an SOA, every later merge of the zone shows the serial
      that the update wrote to the status, until another save, a spec change or a restart. */
  lemma {:induction false} SerialStays(
    namespaces: seq<string>, states: seq<System>, events: seq<Event>, n: string, key: ObjectKey, i: nat, j: nat)
    requires Run(namespaces, states, events) && i < j < |states| && events[i].Serve?
    requires SavesTo(namespaces, states[i], events[i], n) == Some(key)
    requires n in states[i].replica.base && states[i].replica.base[n].soa.Some?
    requires forall m :: i < m < j ==> !Rebases(events[m], n) && SavesTo(namespaces, states[m], events[m], n) == None
    requires forall m :: i < m <= j ==> key in states[m].store
    ensures SerialAt(states[j], n, key, SerialOf(events[i].env.millis))
    ensures ShowsSerial(Merged(states[j].replica.base[n], states[j].replica.overlay[n]), SerialOf(events[i].env.millis))
    decreases j
  {
    hide Consistent, Named, Step, SavesTo, Rebases, ShowsSerial;
    AlwaysConsistent(namespaces, states, events, j - 1);
    assert Step(namespaces, states[j - 1], events[j - 1], states[j]);
    if j == i + 1 {
      AlwaysConsistent(namespaces, states, events, j);
      ConsistentKeys(states[j].replica);
      SaveSetsSerial(namespaces, states[i], events[i], states[j], n);
    } else {
      SerialStays(namespaces, states, events, n, key, i, j - 1);
      SerialStep(namespaces, states[j - 1], events[j - 1], states[j], n, key, SerialOf(events[i].env.millis));
    }
    MergedShowsSerial(states[j].replica.base[n], states[j].replica.overlay[n], SerialOf(events[i].env.millis));
  }

  lemma MergedShowsSerial(base: ZoneVal, overlay: ZoneVal, serial: u32)
    ensures ShowsSerial(Merged(base, overlay), serial) == ShowsSerial(base, serial)
  {}

  // ---- spec changes

  /** The zone of the text that the event brings in for `n`, if it does and the text parses. */
  function NewText(e: Event, n: string): Option<ZoneVal> {
    if Reconciles(e, n) then ParseZone(e.got.obj.text, n) else None
  }

  /** The zone of the last text for `n` that parses, among the events from `i` up to `j`; `first` when
      there is none. */
  function LastText(events: seq<Event>, n: string, first: ZoneVal, i: nat, j: nat): ZoneVal
    requires i <= j <= |events|
    decreases j
  {
    if i == j then first
    else if NewText(events[j - 1], n).Some? then NewText(events[j - 1], n).value
    else LastText(events, n, first, i, j - 1)
  }

  /** One step that leaves `n` registered puts a new text in place if it brings one that parses, and
      otherwise changes at most the serial. */
  lemma BaseAfterStep(namespaces: seq<string>, pre: System, e: Event, post: System, n: string)
    requires Consistent(pre.replica) && Step(namespaces, pre, e, post) && !e.Restart?
    requires n in pre.replica.base && n in post.replica.base
    ensures NewText(e, n).Some? ==> post.replica.base[n] == NewText(e, n).value
    ensures NewText(e, n) == None ==> SameButSerial(pre.replica.base[n], post.replica.base[n])
  {
    hide ServeStep, ParseZone, ApplyAll, Processed, Saved, Consistent;
    if e.Serve? {
      ServeEffect(namespaces, pre, e, post);
    }
  }

  /** The zone that the event puts in place for `n`, if it leaves it registered: that of the first
      parsing text at a restart, and that of a new text that parses. */
  function Incoming(namespaces: seq<string>, store: Store, e: Event, n: string): Option<ZoneVal> {
    if e.Restart? then
      var f := FirstParsing(store, namespaces, n);
      if f < |namespaces| then ZoneIn(store, namespaces[f], n) else None
    else NewText(e, n)
  }

  lemma BaseAfterRebase(namespaces: seq<string>, pre: System, e: Event, post: System, n: string)
    requires Consistent(pre.replica) && Named(pre.store) && Step(namespaces, pre, e, post) && Rebases(e, n)
    requires n in pre.replica.base && n in post.replica.base && Incoming(namespaces, pre.store, e, n).Some?
    ensures post.replica.base[n] == Incoming(namespaces, pre.store, e, n).value && post.store == pre.store
  {
    hide ServeStep, ParseZone, Load, ListsCluster, Named, ZoneIn;
    if e.Restart? {
      NameIsFqdn(pre.replica, n);
      hide Consistent;
      StartLoads(pre.store, namespaces, e.lists, n);
    } else {
      BaseAfterStep(namespaces, pre, e, post, n);
    }
  }

  /** Through any number of spec changes, readable and unreadable ones, and updates in between, the
      static part of the zone is the last text that parses, but for the serial, and the dynamic part
      is the one at first with exactly the records applied since: no spec change adds or loses any. */
  lemma {:induction false} SpecChangesKeepOverlay(
    namespaces: seq<string>, states: seq<System>, events: seq<Event>, n: string, i: nat, j: nat, k: Key)
    requires Run(namespaces, states, events) && i <= j < |states|
    requires forall m :: i <= m <= j ==> n in states[m].replica.base
    requires forall m :: i <= m < j ==> !events[m].Restart?
    ensures n in states[i].replica.overlay && n in states[j].replica.overlay
    ensures var text := LastText(events, n, states[i].replica.base[n], i, j);
            var overlay := ApplyAll(states[i].replica.overlay[n], Applied(states, events, n, i, j));
            && SameButSerial(text, states[j].replica.base[n])
            && states[j].replica.overlay[n] == overlay
            && Get(Merged(states[j].replica.base[n], states[j].replica.overlay[n]).tree, k)
               == Get(text.tree, k) + Get(overlay.tree, k)
    decreases j
  {
    hide Run, Step, Consistent, Merged, Get, AppliedBy, NewText;
    RunLength(namespaces, states, events);
    AlwaysConsistent(namespaces, states, events, i);
    ConsistentKeys(states[i].replica);
    if i < j {
      SpecChangesKeepOverlay(namespaces, states, events, n, i, j - 1, k);
      RunStep(namespaces, states, events, j - 1);
      KeepsOverlay(namespaces, states[j - 1], events[j - 1], states[j], n);
      BaseAfterStep(namespaces, states[j - 1], events[j - 1], states[j], n);
      ApplyAllSplit(states[i].replica.overlay[n], Applied(states, events, n, i, j - 1),
                    AppliedBy(states[j - 1], events[j - 1], n));
    }
    MergedUnderEachKey(states[j].replica.base[n], states[j].replica.overlay[n], k);
  }

  // ---- objects that are being deleted

  /** How many of the events from `i` up to `j` reconcile an object for `n`. */
  function Reconciliations(events: seq<Event>, n: string, i: nat, j: nat): nat
    requires i <= j <= |events|
    decreases j
  {
    if i == j then 0 else Reconciliations(events, n, i, j - 1) + if Reconciles(events[j - 1], n) then 1 else 0
  }

  /** The records applied to the overlay of `n` after the last of them. */
  function AppliedSince(states: seq<System>, events: seq<Event>, n: string, i: nat, j: nat): seq<RR>
    requires i <= j <= |events| && |states| == |events| + 1
    decreases j
  {
    if i == j || Reconciles(events[j - 1], n) then []
    else AppliedSince(states, events, n, i, j - 1) + AppliedBy(states[j - 1], events[j - 1], n)
  }

  lemma KeepsRegistration(namespaces: seq<string>, pre: System, e: Event, post: System, n: string)
    requires Step(namespaces, pre, e, post) && !Rebases(e, n)
    ensures n in post.replica.base <==> n in pre.replica.base
  {
    hide ServeStep, ParseZone, ApplyAll, Processed, Saved;
    if e.Serve? {
      ServeEffect(namespaces, pre, e, post);
    }
  }

  lemma DeletingObjectOnce(pre: Replica, obj: ZoneObject)
    requires Consistent(pre) && obj.deleting
    ensures var n, post := Fqdn(obj.name), ReconcileStep(pre, Object(obj)).0;
            && (n in post.base <==> n !in pre.base && ParseZone(obj.text, n).Some?)
            && (n in post.base ==> n in post.overlay && post.overlay[n] == EmptyZone(n))
  {
    hide ParseZone;
  }

  /** Every reconciliation of an object that is being deleted, but whose text parses, flips the zone
      between registered and not, since only a registered zone takes the deletion branch. So after an
      even number of them a zone that was registered is served again, but its dynamic records are
      gone: the overlay holds what was applied since the last of them alone. When the text does not
      parse, the first one takes the zone away for good. */
  lemma {:induction false} DeletingObjectServedWhen(
    namespaces: seq<string>, states: seq<System>, events: seq<Event>, obj: ZoneObject, i: nat, j: nat)
    requires Run(namespaces, states, events) && i <= j < |states| && obj.deleting
    requires forall m :: i <= m < j ==>
               !events[m].Restart? && (Reconciles(events[m], Fqdn(obj.name)) ==> events[m].got.obj == obj)
    ensures var n := Fqdn(obj.name);
            var before, after, count := states[i].replica, states[j].replica, Reconciliations(events, n, i, j);
            && (n in after.base <==>
                  if ParseZone(obj.text, n).Some? then n in before.base <==> count % 2 == 0
                  else n in before.base && count == 0)
            && (n in after.base && count > 0 ==>
                  && n in after.overlay
                  && after.overlay[n] == ApplyAll(EmptyZone(n), AppliedSince(states, events, n, i, j)))
    decreases j
  {
    hide Run, Step, Consistent, ParseZone, AppliedBy;
    RunLength(namespaces, states, events);
    if i < j {
      var n, pre, e, post := Fqdn(obj.name), states[j - 1], events[j - 1], states[j];
      DeletingObjectServedWhen(namespaces, states, events, obj, i, j - 1);
      RunStep(namespaces, states, events, j - 1);
      if Reconciles(e, n) {
        ReconciledTo(namespaces, pre, e, post);
        DeletingObjectOnce(pre.replica, obj);
      } else {
        KeepsRegistration(namespaces, pre, e, post, n);
        if n in post.replica.base {
          KeepsOverlay(namespaces, pre, e, post, n);
          ApplyAllSplit(EmptyZone(n), AppliedSince(states, events, n, i, j - 1), AppliedBy(pre, e, n));
        }
      }
    }
  }

  lemma ReconciledTo(namespaces: seq<string>, pre: System, e: Event, post: System)
    requires Step(namespaces, pre, e, post) && e.Reconcile?
    ensures post.replica == ReconcileStep(pre.replica, e.got).0
  {}

  /** A zone that is registered by reconciliation starts with an empty overlay. That is what its
      status stands for exactly when no persisted record is of a type the library stores. */
  lemma CreatedOverlayIsStatusWhen(r: Replica, obj: ZoneObject)
    requires Consistent(r) && Fqdn(obj.name) !in r.base && ParseZone(obj.text, Fqdn(obj.name)).Some?
    requires AllDynamic(Parsed(obj.status.dynamicRRs))
    ensures var n, records := Fqdn(obj.name), Parsed(obj.status.dynamicRRs);
            && n in ReconcileStep(r, Object(obj)).0.overlay
            && (ReconcileStep(r, Object(obj)).0.overlay[n] == Replay(n, obj.status.dynamicRRs)
                <==> forall i :: 0 <= i < |records| ==> !Accepts(records[i]))
  {
    hide ParseZone;
    var n, records := Fqdn(obj.name), Parsed(obj.status.dynamicRRs);
    if i :| 0 <= i < |records| && Accepts(records[i]) {
      SomethingLands(EmptyZone(n), records, i);
    } else {
      NothingLands(EmptyZone(n), records);
      PutAllKeepsApex(EmptyZone(n), records);
    }
  }
}
