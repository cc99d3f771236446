/** What a restart brings back when several watched objects have the same zone name, or a namespace is
    watched twice. */
module SharedNames {
  import opened Wrappers
  import opened Dns
  import opened ZoneValue
  import opened Update
  import opened Registry
  import opened Cluster
  import opened Steps
  import opened Startup
  import opened Runs
  import opened Types
  import opened Recovery
  import Routing

  /** No record in `s` is of a type the library stores. */
  predicate StoresNothing(s: seq<RR>) {
    forall i :: 0 <= i < |s| ==> !Accepts(s[i])
  }

  lemma LandsNowhere(s: seq<RR>, origin: string, k: Key)
    requires StoresNothing(s)
    ensures Landing(s, origin, k) == []
  {
    if s != [] {
      LandsNowhere(s[..|s| - 1], origin, k);
    }
  }

  lemma SurroundedUnderKey(n: string, before: seq<RR>, s: seq<RR>, after: seq<RR>, k: Key)
    ensures Get(PutAll(EmptyZone(n), before + s + after).tree, k)
         == Landing(before, n, k) + Landing(s, n, k) + Landing(after, n, k)
    ensures Get(PutAll(EmptyZone(n), s).tree, k) == Landing(s, n, k)
  {
    hide PutAll, Landing;
    PutAllAppends(EmptyZone(n), before + s + after, k);
    PutAllAppends(EmptyZone(n), s, k);
    LandingSplit(before + s, after, n, k);
    LandingSplit(before, s, n, k);
  }

  lemma SurroundedBySomething(n: string, before: seq<RR>, s: seq<RR>, after: seq<RR>, rr: RR)
    requires AllDynamic(before) && AllDynamic(after) && Accepts(rr) && (rr in before || rr in after)
    ensures PutAll(EmptyZone(n), before + s + after) != PutAll(EmptyZone(n), s)
  {
    hide PutAll;
    SurroundedUnderKey(n, before, s, after, KeyOf(rr));
    if rr in before {
      var i :| 0 <= i < |before| && before[i] == rr;
      InLanding(before, n, i);
    } else {
      var i :| 0 <= i < |after| && after[i] == rr;
      InLanding(after, n, i);
    }
  }

  lemma SurroundedByNothing(n: string, before: seq<RR>, s: seq<RR>, after: seq<RR>)
    requires AllDynamic(before) && AllDynamic(s) && AllDynamic(after)
    requires StoresNothing(before) && StoresNothing(after)
    ensures PutAll(EmptyZone(n), before + s + after) == PutAll(EmptyZone(n), s)
  {
    hide PutAll;
    var e, all := EmptyZone(n), before + s + after;
    forall k: Key
      ensures Get(PutAll(e, all).tree, k) == Get(PutAll(e, s).tree, k)
    {
      SurroundedUnderKey(n, before, s, after, k);
      LandsNowhere(before, n, k);
      LandsNowhere(after, n, k);
    }
    EmptyTidy(n);
    PutAllTidy(e, all);
    PutAllTidy(e, s);
    SameUnderEachKey(PutAll(e, all), PutAll(e, s));
    PutAllKeepsApex(e, all);
    PutAllKeepsApex(e, s);
  }

  /** Records around a list of records leave no trace in an overlay exactly when none is stored. */
  lemma SurroundedReplay(n: string, before: seq<RR>, s: seq<RR>, after: seq<RR>)
    requires AllDynamic(before) && AllDynamic(s) && AllDynamic(after)
    ensures PutAll(EmptyZone(n), before + s + after) == PutAll(EmptyZone(n), s)
       <==> StoresNothing(before) && StoresNothing(after)
  {
    hide PutAll, AllDynamic;
    if StoresNothing(before) && StoresNothing(after) {
      SurroundedByNothing(n, before, s, after);
    } else if i :| 0 <= i < |before| && Accepts(before[i]) {
      SurroundedBySomething(n, before, s, after, before[i]);
    } else {
      var i :| 0 <= i < |after| && Accepts(after[i]);
      SurroundedBySomething(n, before, s, after, after[i]);
    }
  }

  /** The two lists leave the same records under every key of zone `n`. */
  ghost predicate SameStored(a: seq<RR>, b: seq<RR>, n: string) {
    forall k: Key :: Landing(a, n, k) == Landing(b, n, k)
  }

  lemma SameStoredReplay(n: string, a: seq<RR>, b: seq<RR>)
    requires AllDynamic(a) && AllDynamic(b)
    ensures PutAll(EmptyZone(n), a) == PutAll(EmptyZone(n), b) <==> SameStored(a, b, n)
  {
    hide PutAll;
    var e := EmptyZone(n);
    forall k: Key
      ensures Get(PutAll(e, a).tree, k) == Landing(a, n, k) && Get(PutAll(e, b).tree, k) == Landing(b, n, k)
    {
      PutAllAppends(e, a, k);
      PutAllAppends(e, b, k);
    }
    PutAllKeepsApex(e, a);
    PutAllKeepsApex(e, b);
    if SameStored(a, b, n) {
      EmptyTidy(n);
      PutAllTidy(e, a);
      PutAllTidy(e, b);
      SameUnderEachKey(PutAll(e, a), PutAll(e, b));
    }
  }

  lemma {:induction false} PersistedDynamic(store: Store, namespaces: seq<string>, n: string)
    requires CleanStore(store)
    ensures AllDynamic(Persisted(store, namespaces, n))
  {
    hide Parsed;
    if namespaces != [] {
      PersistedDynamic(store, namespaces[..|namespaces| - 1], n);
    }
  }

  /** When a start, from `store`, brings back the overlay `saved` that the object `key` persists. `p`
      is the last position of the object's namespace, and `f` that of the first namespace in which
      the text for `n` parses.
      If that is not after the object's, the saved overlay comes back if and only if none of the other
      objects from there on has a stored record. If it is after the object's, the save is not replayed
      at all, and comes back if and only if the objects that are replayed happen to hold the same
      records under every key. If no text parses, the zone is not registered. */
  ghost predicate BackExactlyWhen(
    store: Store, namespaces: seq<string>, loaded: Replica, n: string, key: ObjectKey, p: nat, saved: ZoneVal)
    requires key in store && p < |namespaces|
  {
    var f := FirstParsing(store, namespaces, n);
    && (n in loaded.overlay <==> f < |namespaces|)
    && (f <= p ==>
          (loaded.overlay[n] == saved
           <==> StoresNothing(Persisted(store, namespaces[f..p], n))
                && StoresNothing(Persisted(store, namespaces[p + 1..], n))))
    && (p < f < |namespaces| ==>
          (loaded.overlay[n] == saved
           <==> SameStored(Persisted(store, namespaces[f..], n), Parsed(store[key].status.dynamicRRs), n)))
  }

  /** A start against one of the objects for `n`, in terms of what is in the cluster. */
  lemma StartAgainst(
    store: Store, namespaces: seq<string>, lists: seq<seq<ZoneObject>>, n: string, key: ObjectKey, p: nat)
    requires Named(store) && CleanStore(store) && ListsCluster(lists, store, namespaces) && IsFqdn(n)
    requires key in store && key.name == TrimDot(n) && p < |namespaces| && namespaces[p] == key.namespace
    ensures BackExactlyWhen(store, namespaces, Load(lists), n, key, p, Replay(n, store[key].status.dynamicRRs))
  {
    hide Load, ListsCluster, Named, CleanStore, AllDynamic, StoresNothing, SameStored;
    hide PutAll, Parsed, Persisted, ZoneIn;
    StartLoads(store, namespaces, lists, n);
    var f, records := FirstParsing(store, namespaces, n), RecordsIn(store, key.namespace, n);
    assert records == Parsed(store[key].status.dynamicRRs);
    assert AllDynamic(records) by { StatusDynamic(store, key); }
    if f <= p {
      PersistedAround(store, namespaces, n, f, p);
      PersistedDynamic(store, namespaces[f..p], n);
      PersistedDynamic(store, namespaces[p + 1..], n);
      SurroundedReplay(n, Persisted(store, namespaces[f..p], n), records, Persisted(store, namespaces[p + 1..], n));
    } else if f < |namespaces| {
      PersistedDynamic(store, namespaces[f..], n);
      SameStoredReplay(n, Persisted(store, namespaces[f..], n), records);
    }
  }

  lemma StatusDynamic(store: Store, key: ObjectKey)
    requires CleanStore(store) && key in store
    ensures AllDynamic(Parsed(store[key].status.dynamicRRs))
  {}

  /** No save of `n` goes to `key` from event `from` on before `to`, and the object stays. */
  ghost predicate NotSavedTo(
    namespaces: seq<string>, states: seq<System>, events: seq<Event>, n: string, key: ObjectKey, from: nat, to: nat)
    requires to <= |events| && |states| == |events| + 1
  {
    && (forall m :: from <= m <= to ==> key in states[m].store)
    && (forall m :: from <= m < to ==> SavesTo(namespaces, states[m], events[m], n) != Some(key))
  }

  lemma {:induction false} StatusStays(
    namespaces: seq<string>, states: seq<System>, events: seq<Event>, n: string, key: ObjectKey, a: nat, b: nat)
    requires Run(namespaces, states, events) && a <= b <= |events|
    requires NotSavedTo(namespaces, states, events, n, key, a, b) && IsFqdn(n) && key.name == TrimDot(n)
    ensures states[b].store[key].status == states[a].store[key].status
    decreases b
  {
    hide Step, Run, Consistent, Named, SavesTo, TrimDot, IsFqdn;
    if a < b {
      StatusStays(namespaces, states, events, n, key, a, b - 1);
      RunStep(namespaces, states, events, b - 1);
      KeepsStatus(namespaces, states[b - 1], events[b - 1], states[b], n, key);
    }
  }

  /** What is known of a save in a run. */
  lemma SavedAt(namespaces: seq<string>, states: seq<System>, events: seq<Event>, n: string, key: ObjectKey, i: nat)
    requires Run(namespaces, states, events) && CleanStore(states[0].store)
    requires i < |events| && SavesTo(namespaces, states[i], events[i], n) == Some(key)
    ensures IsFqdn(n) && key.name == TrimDot(n) && |states| == |events| + 1
    ensures n in states[i + 1].replica.overlay && key in states[i + 1].store
    ensures Replay(n, states[i + 1].store[key].status.dynamicRRs) == states[i + 1].replica.overlay[n]
  {
    hide Run, Step, Replay, CleanStore, Consistent, Named, CleanOverlays, IsFqdn, TrimDot, SavesTo;
    RunLength(namespaces, states, events);
    RunStep(namespaces, states, events, i);
    AlwaysClean(namespaces, states, events, i);
    SavesToNamed(namespaces, states[i], events[i], n);
    SavedReplays(namespaces, states[i], events[i], states[i + 1], n);
  }

  /** Exactly when a restart brings back what was last saved to an object, however many watched
      objects stand for the zone, and whatever happened since. */
  lemma RecoveryExactWhen(
    namespaces: seq<string>, states: seq<System>, events: seq<Event>, n: string, key: ObjectKey,
    i: nat, j: nat, p: nat)
    requires Run(namespaces, states, events) && CleanStore(states[0].store)
    requires i < j < |events| && SavesTo(namespaces, states[i], events[i], n) == Some(key) && events[j].Restart?
    requires NotSavedTo(namespaces, states, events, n, key, i + 1, j)
    requires p < |namespaces| && namespaces[p] == key.namespace && key.namespace !in namespaces[p + 1..]
    ensures n in states[i + 1].replica.overlay
    ensures BackExactlyWhen(
              states[j].store, namespaces, states[j + 1].replica, n, key, p, states[i + 1].replica.overlay[n])
  {
    hide Run, ListsCluster, BackExactlyWhen, Load, Replay, CleanStore, Named, CleanOverlays;
    hide IsFqdn, TrimDot, SavesTo;
    RestartLoads(namespaces, states, events, j);
    SavedAt(namespaces, states, events, n, key, i);
    StatusStays(namespaces, states, events, n, key, i + 1, j);
    AlwaysClean(namespaces, states, events, j);
    hide NotSavedTo;
    StartAgainst(states[j].store, namespaces, events[j].lists, n, key, p);
  }

  // ---- a save that a restart loses

  /** Two watched namespaces have an object for the zone; the text of the first does not parse. */
  const WATCHED: seq<string> := ["a", "b"]
  const BROKEN: ObjectKey := ObjectKey("a", "z")
  const SERVED: ObjectKey := ObjectKey("b", "z")
  const SERVED_SOA: RR := RR("z.", CLASS_INET, 30, SOA("ns.z.", "hostmaster.z.", 1, 7200, 1800, 86400, 30))

  function BrokenObject(status: Status): ZoneObject {
    ZoneObject("z", [Malformed("z.")], status, false)
  }

  function ServedObject(): ZoneObject {
    ZoneObject("z", [Rendered(SERVED_SOA)], Status([], 0), false)
  }

  function TwoObjects(status: Status): Store {
    map[BROKEN := BrokenObject(status), SERVED := ServedObject()]
  }

  lemma TwoObjectsListed(status: Status)
    ensures Named(TwoObjects(status))
    ensures ListsCluster([[BrokenObject(status)], [ServedObject()]], TwoObjects(status), WATCHED)
  {
    assert BROKEN != SERVED;
    assert ListsNamespace([BrokenObject(status)], TwoObjects(status), "a");
    assert ListsNamespace([ServedObject()], TwoObjects(status), "b");
  }

  /** Whatever the status of the first object is, a start serves the second. */
  lemma SecondIsServed(status: Status)
    ensures var r := Load([[BrokenObject(status)], [ServedObject()]]);
            && "z." in r.base && r.base["z."].soa.Some?
            && "z." in r.overlay && r.overlay["z."] == EmptyZone("z.")
  {
    var store, lists := TwoObjects(status), [[BrokenObject(status)], [ServedObject()]];
    assert TrimDot("z.") == "z" && BROKEN != SERVED;
    TwoObjectsListed(status);
    StartLoads(store, WATCHED, lists, "z.");
    assert ZoneIn(store, WATCHED[0], "z.") == None;
    ServedText();
    assert ZoneIn(store, WATCHED[1], "z.") == ParseZone(ServedObject().text, "z.");
    assert WATCHED[1..] == ["b"] && ["b"][..0] == [];
    assert RecordsIn(store, "b", "z.") == [];
  }

  lemma ServedText()
    ensures ParseZone(ServedObject().text, "z.").Some? && ParseZone(ServedObject().text, "z.").value.soa.Some?
  {
    var text := ServedObject().text;
    assert ReadTo(text, 1, "z.") == Put(ReadTo(text, 0, "z."), Qualify(SERVED_SOA, "z."));
  }

  lemma OneRecord(rr: RR)
    requires Dynamic(rr) && Effective(rr)
    ensures Processed([rr], 1) == [rr] && Answer([rr], 1) == None
    ensures ApplyAll(EmptyZone("z."), [rr]) == Put(EmptyZone("z."), rr) != EmptyZone("z.")
  {
    assert Times([rr], 1) == [rr];
    assert [rr][..0] == [];
    assert KeyOf(rr) in Put(EmptyZone("z."), rr).tree;
  }

  function Inserting(rr: RR): Request {
    Request([Question("z.", TYPE_SOA)], OPCODE_UPDATE, [rr])
  }

  const AT_ZERO: Env := Env(0, {}, true, true)

  /** The state after an update with one record is saved to the first object. */
  function AfterSave(r: Replica, rr: RR, texts: seq<Entry>): System
    requires "z." in r.base && "z." in r.overlay
  {
    System(AfterBump(AfterApply(r, "z.", Inserting(rr)), "z.", 0), TwoObjects(Status(texts, 0)))
  }

  lemma WrittenToFirst(rr: RR, texts: seq<Entry>, v: ZoneVal)
    requires Dynamic(rr) && Effective(rr) && Snapshot(texts, v)
    ensures Find(TwoObjects(Status([], 0)), WATCHED, TrimDot("z."), {}) == Some(BROKEN)
    ensures WritesTo(TwoObjects(Status([], 0)), WATCHED, "z.", Inserting(rr), AT_ZERO) == Some(BROKEN)
    ensures Saved(TwoObjects(Status([], 0)), BROKEN, v, 0, TwoObjects(Status(texts, 0)))
  {
    hide Snapshot;
    assert TrimDot("z.") == "z" && BROKEN != SERVED;
    OneRecord(rr);
  }

  lemma SaveStepToFirst(r: Replica, rr: RR, texts: seq<Entry>)
    requires Consistent(r) && Dynamic(rr) && Effective(rr)
    requires "z." in r.base && r.base["z."].soa.Some? && "z." in r.overlay && r.overlay["z."] == EmptyZone("z.")
    requires Snapshot(texts, Put(EmptyZone("z."), rr))
    ensures var pre, post := System(r, TwoObjects(Status([], 0))), AfterSave(r, rr, texts);
            && UpdateStep(WATCHED, pre, "z.", Inserting(rr), AT_ZERO, post, Success)
            && post.replica.overlay == r.overlay["z." := Put(EmptyZone("z."), rr)]
  {
    hide Snapshot, Consistent, Dynamic, Effective, Find, TwoObjects, Saved, Put, Processed, Answer, ApplyAll;
    OneRecord(rr);
    WrittenToFirst(rr, texts, Put(EmptyZone("z."), rr));
  }

  lemma ServedAsUpdate(r: Replica, rr: RR, texts: seq<Entry>)
    requires Consistent(r) && Dynamic(rr) && Effective(rr)
    requires "z." in r.base && r.base["z."].soa.Some? && "z." in r.overlay && r.overlay["z."] == EmptyZone("z.")
    requires Snapshot(texts, Put(EmptyZone("z."), rr))
    ensures var pre, e := System(r, TwoObjects(Status([], 0))), Serve(Inserting(rr), AT_ZERO, Answered(Success));
            && Step(WATCHED, pre, e, AfterSave(r, rr, texts))
            && SavesTo(WATCHED, pre, e, "z.") == Some(BROKEN)
  {
    assert Lower("z.") == "z.";
    Routing.RoutesToItself(r, "z.");
    ConsistentKeys(r);
    SaveStepToFirst(r, rr, texts);
    WrittenToFirst(rr, texts, Put(EmptyZone("z."), rr));
    hide Snapshot, Consistent, Dynamic, Effective, TwoObjects, Put, UpdateStep;
    hide Lower, Routing.Route, WritesTo, AfterSave;
  }

  /** A save goes to the first object there is, and a start replays from the first that parses on.
      When the text of the first object does not parse, an update that is answered NOERROR is written
      where no restart looks: whatever record it inserts, the restart comes up with an empty overlay. */
  lemma SaveCanBeLost(rr: RR) returns (states: seq<System>, events: seq<Event>)
    requires Dynamic(rr) && Effective(rr)
    ensures Run(WATCHED, states, events) && |events| == 2 && CleanStore(states[0].store)
    ensures events[0].Serve? && events[0].out == Answered(Success) && events[1].Restart?
    ensures SavesTo(WATCHED, states[0], events[0], "z.") == Some(BROKEN)
    ensures "z." in states[1].replica.overlay && "z." in states[2].replica.overlay
    ensures states[2].replica.overlay["z."] == EmptyZone("z.") != states[1].replica.overlay["z."]
  {
    hide Snapshot, Load, ListsCluster, Named, CleanStore, Consistent, Step, SavesTo, Dynamic, Effective, Put;
    hide UpdateStep, BrokenObject, ServedObject, AfterSave, Run, TwoObjects;
    var none := Status([], 0);
    var start := [[BrokenObject(none)], [ServedObject()]];
    var r := Load(start);
    TwoObjectsListed(none);
    SecondIsServed(none);
    LoadConsistent(start);
    var texts := SnapshotAfter(rr);
    var again := [[BrokenObject(Status(texts, 0))], [ServedObject()]];
    TwoObjectsListed(Status(texts, 0));
    SecondIsServed(Status(texts, 0));
    SaveStepToFirst(r, rr, texts);
    ServedAsUpdate(r, rr, texts);
    NothingPersistedYet();
    StoreAfterSave(r, rr, texts);
    var pre, saved := System(r, TwoObjects(none)), AfterSave(r, rr, texts);
    var e := Serve(Inserting(rr), AT_ZERO, Answered(Success));
    ThenRestart(pre, e, saved, start, again);
    states, events := [pre, saved, System(Load(again), saved.store)], [e, Restart(again)];
  }

  lemma SnapshotAfter(rr: RR) returns (texts: seq<Entry>)
    requires Dynamic(rr) && Effective(rr)
    ensures Snapshot(texts, Put(EmptyZone("z."), rr)) && Put(EmptyZone("z."), rr) != EmptyZone("z.")
  {
    OneRecord(rr);
    EmptyTidy("z.");
    PutTidy(EmptyZone("z."), rr);
    texts := SnapshotExists(Put(EmptyZone("z."), rr));
  }

  lemma RunOf(states: seq<System>, events: seq<Event>, start: seq<seq<ZoneObject>>)
    requires |states| == |events| + 1 && Named(states[0].store)
    requires ListsCluster(start, states[0].store, WATCHED) && states[0].replica == Load(start)
    requires forall i :: 0 <= i < |events| ==> Step(WATCHED, states[i], events[i], states[i + 1])
    ensures Run(WATCHED, states, events)
  {
    hide Step, ListsCluster, Load, Named;
  }

  lemma RestartStep(pre: System, lists: seq<seq<ZoneObject>>)
    requires ListsCluster(lists, pre.store, WATCHED)
    ensures Step(WATCHED, pre, Restart(lists), System(Load(lists), pre.store))
  {
    hide ListsCluster, Load;
  }

  lemma ThenRestart(pre: System, e: Event, post: System, start: seq<seq<ZoneObject>>, again: seq<seq<ZoneObject>>)
    requires Named(pre.store) && ListsCluster(start, pre.store, WATCHED) && pre.replica == Load(start)
    requires Step(WATCHED, pre, e, post) && ListsCluster(again, post.store, WATCHED)
    ensures Run(WATCHED, [pre, post, System(Load(again), post.store)], [e, Restart(again)])
  {
    hide Step, ListsCluster, Load, Named, Run;
    RestartStep(post, again);
    RunOf([pre, post, System(Load(again), post.store)], [e, Restart(again)], start);
  }

  lemma NothingPersistedYet()
    ensures CleanStore(TwoObjects(Status([], 0)))
  {}

  lemma StoreAfterSave(r: Replica, rr: RR, texts: seq<Entry>)
    requires "z." in r.base && "z." in r.overlay
    ensures AfterSave(r, rr, texts).store == TwoObjects(Status(texts, 0))
  {}
}
