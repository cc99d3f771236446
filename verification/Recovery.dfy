/** What a restart brings back, after any run. */
module Recovery {
  import opened Wrappers
  import opened Dns
  import opened ZoneValue
  import opened Update
  import opened Registry
  import opened Cluster
  import opened Steps
  import opened Startup
  import opened Runs
  import opened Types

  /** `key` is the only object of the watched namespaces for zone `n`, and its namespace is watched
      once. */
  ghost predicate Sole(store: Store, namespaces: seq<string>, n: string, key: ObjectKey) {
    && key in store && Fqdn(key.name) == n
    && (exists p :: 0 <= p < |namespaces| && namespaces[p] == key.namespace
                    && forall q :: 0 <= q < |namespaces| && q != p ==> namespaces[q] != key.namespace)
    && forall k :: k in store && k.namespace in namespaces && Fqdn(k.name) == n ==> k == key
  }

  lemma SoleInStore(store: Store, namespaces: seq<string>, n: string, key: ObjectKey)
    ensures Sole(store, namespaces, n, key) ==> key in store
  {}

  lemma SoleKeys(a: Store, b: Store, namespaces: seq<string>, n: string, key: ObjectKey)
    requires a.Keys == b.Keys && Sole(a, namespaces, n, key)
    ensures Sole(b, namespaces, n, key)
  {}

  lemma FqdnTrim(m: string, name: string)
    requires IsFqdn(m) && !IsFqdn(name)
    ensures TrimDot(m) == name <==> Fqdn(name) == m
  {}

  lemma TrimSame(m: string, n: string)
    requires IsFqdn(m) && IsFqdn(n) && TrimDot(m) == TrimDot(n)
    ensures m == n
  {
    assert m == TrimDot(m) + "." && n == TrimDot(n) + ".";
  }

  // ---- listing a namespace

  lemma {:induction false} NothingFor(items: seq<ZoneObject>, n: string)
    requires forall i :: 0 <= i < |items| ==> Fqdn(items[i].name) != n
    ensures StatusOf(items, n) == [] && FirstParsed(items, n) == None
  {
    if items != [] {
      NothingForStatus(items, n);
      NothingFor(items[1..], n);
    }
  }

  lemma {:induction false} NothingForStatus(items: seq<ZoneObject>, n: string)
    requires forall i :: 0 <= i < |items| ==> Fqdn(items[i].name) != n
    ensures StatusOf(items, n) == []
  {
    if items != [] {
      NothingForStatus(items[..|items| - 1], n);
    }
  }

  lemma {:induction false} OneFor(items: seq<ZoneObject>, n: string, p: nat)
    requires p < |items| && Fqdn(items[p].name) == n
    requires forall i :: 0 <= i < |items| && i != p ==> Fqdn(items[i].name) != n
    ensures StatusOf(items, n) == Parsed(items[p].status.dynamicRRs)
    ensures FirstParsed(items, n) == ParseZone(items[p].text, n)
    decreases |items|
  {
    var front, last := items[..|items| - 1], items[|items| - 1];
    assert items == front + [last];
    FirstParsedSnoc(front, last, n);
    if p == |items| - 1 {
      NothingFor(front, n);
    } else {
      OneFor(front, n, p);
      assert FirstParsed([last][1..], n) == None;
    }
  }

  // ---- what a start brings back

  /** The persisted records of the object for zone `n` in a namespace, if there is one. */
  function RecordsIn(store: Store, namespace: string, n: string): seq<RR> {
    var key := ObjectKey(namespace, TrimDot(n));
    if key in store then Parsed(store[key].status.dynamicRRs) else []
  }

  /** The zone its text parses to. */
  function ZoneIn(store: Store, namespace: string, n: string): Option<ZoneVal> {
    var key := ObjectKey(namespace, TrimDot(n));
    if key in store then ParseZone(store[key].text, n) else None
  }

  /** The persisted records for `n` in the namespaces, one after the other. */
  function Persisted(store: Store, namespaces: seq<string>, n: string): seq<RR> {
    if namespaces == [] then []
    else
      Persisted(store, namespaces[..|namespaces| - 1], n) + RecordsIn(store, namespaces[|namespaces| - 1], n)
  }

  /** The position of the first namespace in which the text for `n` parses. */
  function FirstParsing(store: Store, namespaces: seq<string>, n: string): (f: nat)
    ensures f <= |namespaces|
    ensures f < |namespaces| ==> ZoneIn(store, namespaces[f], n).Some?
    ensures forall q :: 0 <= q < f ==> ZoneIn(store, namespaces[q], n) == None
  {
    if namespaces == [] || ZoneIn(store, namespaces[0], n).Some? then 0
    else 1 + FirstParsing(store, namespaces[1..], n)
  }

  lemma ListedAs(items: seq<ZoneObject>, store: Store, namespace: string, n: string)
    requires Named(store) && ListsNamespace(items, store, namespace) && IsFqdn(n)
    ensures StatusOf(items, n) == RecordsIn(store, namespace, n)
    ensures FirstParsed(items, n) == ZoneIn(store, namespace, n)
  {
    var key := ObjectKey(namespace, TrimDot(n));
    forall i | 0 <= i < |items|
      ensures Fqdn(items[i].name) == n <==> items[i].name == key.name
    {
      assert store[ObjectKey(namespace, items[i].name)] == items[i];
      FqdnTrim(n, items[i].name);
    }
    if key in store {
      var p :| 0 <= p < |items| && items[p] == store[key];
      OneFor(items, n, p);
    } else {
      NothingFor(items, n);
    }
  }

  lemma {:induction false} StatusFromStore(
    lists: seq<seq<ZoneObject>>, store: Store, namespaces: seq<string>, n: string)
    requires |lists| == |namespaces|
    requires forall i :: 0 <= i < |lists| ==> StatusOf(lists[i], n) == RecordsIn(store, namespaces[i], n)
    ensures StatusFrom(lists, n) == Persisted(store, namespaces, n)
  {
    hide StatusOf, RecordsIn;
    if lists != [] {
      StatusFromStore(lists[..|lists| - 1], store, namespaces[..|lists| - 1], n);
    }
  }

  /** What any start makes of the objects for `n`: it is registered exactly when one of them parses.
      The first that does gives the base zone, and the overlay is the fold of the statuses from that
      namespace on. */
  lemma StartLoads(store: Store, namespaces: seq<string>, lists: seq<seq<ZoneObject>>, n: string)
    requires Named(store) && ListsCluster(lists, store, namespaces) && IsFqdn(n)
    ensures var r, f := Load(lists), FirstParsing(store, namespaces, n);
            && (n in r.base <==> f < |namespaces|) && (n in r.overlay <==> f < |namespaces|)
            && (f < |namespaces| ==>
                  && r.base[n] == ZoneIn(store, namespaces[f], n).value
                  && r.overlay[n] == PutAll(EmptyZone(n), Persisted(store, namespaces[f..], n)))
  {
    hide Load, ParseZone, StatusOf, FirstParsed, StatusFrom, ListsNamespace, PutAll, Parsed, ZoneIn, RecordsIn, Named;
    forall q | 0 <= q < |lists|
      ensures StatusOf(lists[q], n) == RecordsIn(store, namespaces[q], n)
      ensures FirstParsed(lists[q], n) == ZoneIn(store, namespaces[q], n)
    {
      ListedAs(lists[q], store, namespaces[q], n);
    }
    LoadConsistent(lists);
    ConsistentKeys(Load(lists));
    hide Consistent;
    var f := FirstParsing(store, namespaces, n);
    if f < |namespaces| {
      LoadedFrom(lists, n, f);
      StatusFromStore(lists[f..], store, namespaces[f..], n);
    } else {
      NeverParsed(lists, n);
    }
  }

  lemma {:induction false} PersistedSplit(store: Store, a: seq<string>, b: seq<string>, n: string)
    ensures Persisted(store, a + b, n) == Persisted(store, a, n) + Persisted(store, b, n)
  {
    hide RecordsIn;
    if b == [] {
      assert a + b == a;
    } else {
      assert (a + b)[..|a + b| - 1] == a + b[..|b| - 1];
      PersistedSplit(store, a, b[..|b| - 1], n);
    }
  }

  /** The records from position `f` on, around those of position `p`. */
  lemma PersistedAround(store: Store, namespaces: seq<string>, n: string, f: nat, p: nat)
    requires f <= p < |namespaces|
    ensures Persisted(store, namespaces[f..], n)
         == Persisted(store, namespaces[f..p], n) + RecordsIn(store, namespaces[p], n)
            + Persisted(store, namespaces[p + 1..], n)
  {
    hide RecordsIn;
    assert namespaces[f..] == namespaces[f..p + 1] + namespaces[p + 1..];
    PersistedSplit(store, namespaces[f..p + 1], namespaces[p + 1..], n);
    assert namespaces[f..p + 1][..p - f] == namespaces[f..p];
  }

  lemma {:induction false} NothingPersisted(store: Store, namespaces: seq<string>, n: string)
    requires forall q :: 0 <= q < |namespaces| ==> RecordsIn(store, namespaces[q], n) == []
    ensures Persisted(store, namespaces, n) == []
  {
    hide RecordsIn;
    if namespaces != [] {
      NothingPersisted(store, namespaces[..|namespaces| - 1], n);
    }
  }

  /** Where the sole object for `n` is, and that there is nothing elsewhere. */
  lemma WatchedOnce(store: Store, namespaces: seq<string>, n: string, key: ObjectKey) returns (p: nat)
    requires Named(store) && Sole(store, namespaces, n, key)
    ensures IsFqdn(n) && key in store && p < |namespaces|
    ensures RecordsIn(store, namespaces[p], n) == Parsed(store[key].status.dynamicRRs)
    ensures ZoneIn(store, namespaces[p], n) == ParseZone(store[key].text, n)
    ensures forall q :: 0 <= q < |namespaces| && q != p ==>
              RecordsIn(store, namespaces[q], n) == [] && ZoneIn(store, namespaces[q], n) == None
  {
    hide ParseZone, Parsed;
    p :| 0 <= p < |namespaces| && namespaces[p] == key.namespace
         && forall q :: 0 <= q < |namespaces| && q != p ==> namespaces[q] != key.namespace;
    FqdnTrim(n, key.name);
    forall q | 0 <= q < |namespaces| && q != p
      ensures ObjectKey(namespaces[q], TrimDot(n)) !in store
    {
      assert namespaces[q] in namespaces && Fqdn(TrimDot(n)) == n;
    }
  }

  /** A cold start loads the zone exactly when its text parses, with the parsed text as base zone and
      the replayed status as overlay. */
  lemma ColdStart(store: Store, namespaces: seq<string>, lists: seq<seq<ZoneObject>>, n: string, key: ObjectKey)
    requires Named(store) && Sole(store, namespaces, n, key) && ListsCluster(lists, store, namespaces)
    ensures var r, parsed := Load(lists), ParseZone(store[key].text, n);
            && (n in r.base <==> parsed.Some?)
            && (parsed.Some? ==>
                  && n in r.overlay && r.base[n] == parsed.value
                  && r.overlay[n] == Replay(n, store[key].status.dynamicRRs))
  {
    hide Load, ParseZone, Sole, ListsCluster, PutAll, Parsed, RecordsIn, ZoneIn, Persisted, Named;
    var p := WatchedOnce(store, namespaces, n, key);
    StartLoads(store, namespaces, lists, n);
    if ParseZone(store[key].text, n).Some? {
      PersistedAround(store, namespaces, n, p, p);
      NothingPersisted(store, namespaces[p..p], n);
      NothingPersisted(store, namespaces[p + 1..], n);
      var records := RecordsIn(store, namespaces[p], n);
      assert [] + records + [] == records;
    }
  }

  // ---- saves and restarts

  /** After `e`, the persisted status of `n` stands for its overlay. */
  predicate Syncs(namespaces: seq<string>, pre: System, e: Event, n: string) {
    e.Restart? || SavesTo(namespaces, pre, e, n).Some?
  }

  /** `j` is the last state, up to `i`, that follows a save of `n` or a start. */
  ghost predicate LastSync(
    namespaces: seq<string>, states: seq<System>, events: seq<Event>, n: string, j: nat, i: nat)
    requires i <= |events| && |states| == |events| + 1
  {
    && j <= i
    && (j > 0 ==> Syncs(namespaces, states[j - 1], events[j - 1], n))
    && forall k :: j <= k < i ==> !Syncs(namespaces, states[k], events[k], n)
  }

  /** There always is one. */
  lemma {:induction false} LastSyncExists(
    namespaces: seq<string>, states: seq<System>, events: seq<Event>, n: string, i: nat) returns (j: nat)
    requires i <= |events| && |states| == |events| + 1
    ensures LastSync(namespaces, states, events, n, j, i)
    decreases i
  {
    if i == 0 || Syncs(namespaces, states[i - 1], events[i - 1], n) {
      j := i;
    } else {
      j := LastSyncExists(namespaces, states, events, n, i - 1);
    }
  }

  /** From state `from` to state `to`, `key` is the sole object for `n`, and `n` stays registered. */
  ghost predicate Lasting(namespaces: seq<string>, states: seq<System>, n: string, key: ObjectKey, from: nat, to: nat)
    requires to < |states|
  {
    forall j :: from <= j <= to ==> Sole(states[j].store, namespaces, n, key) && n in states[j].replica.base
  }

  /** Where a save of `n` goes. */
  lemma SavesToNamed(namespaces: seq<string>, pre: System, e: Event, n: string)
    requires Consistent(pre.replica) && Named(pre.store) && SavesTo(namespaces, pre, e, n).Some?
    ensures n in pre.replica.base && n in pre.replica.overlay && IsFqdn(n)
    ensures var key := SavesTo(namespaces, pre, e, n).value;
            && key in pre.store && key.namespace in namespaces && key.name == TrimDot(n) && Fqdn(key.name) == n
  {
    var key := SavesTo(namespaces, pre, e, n).value;
    FindInStore(pre.store, namespaces, TrimDot(n), e.env.unreachable);
    FqdnTrim(n, key.name);
  }

  /** After a save, the status of the object it went to stands for the overlay. */
  lemma SavedReplays(namespaces: seq<string>, pre: System, e: Event, post: System, n: string)
    requires Consistent(pre.replica) && Named(pre.store) && CleanOverlays(pre.replica) && CleanStore(pre.store)
    requires Step(namespaces, pre, e, post) && SavesTo(namespaces, pre, e, n).Some?
    ensures var key := SavesTo(namespaces, pre, e, n).value;
            && key in post.store && n in post.replica.overlay
            && Replay(n, post.store[key].status.dynamicRRs) == post.replica.overlay[n]
  {
    hide Step, Consistent, CleanOverlays, CleanStore, OnlyAllowed, Snapshot, Replay, ServeStep;
    assert e.Serve? && UpdateOf(pre, e) == Some(n);
    ServeEffect(namespaces, pre, e, post);
    StepClean(namespaces, pre, e, post);
    StepConsistent(namespaces, pre, e, post);
    OverlayFacts(post.replica, n);
    SnapshotReplays(post.store[SavesTo(namespaces, pre, e, n).value].status.dynamicRRs, post.replica.overlay[n]);
  }

  lemma SyncAfterSave(namespaces: seq<string>, pre: System, e: Event, post: System, n: string, key: ObjectKey)
    requires Consistent(pre.replica) && Named(pre.store) && CleanOverlays(pre.replica) && CleanStore(pre.store)
    requires Step(namespaces, pre, e, post) && SavesTo(namespaces, pre, e, n).Some?
    requires Sole(pre.store, namespaces, n, key)
    ensures key in post.store && n in post.replica.overlay
    ensures Replay(n, post.store[key].status.dynamicRRs) == post.replica.overlay[n]
  {
    SavesToNamed(namespaces, pre, e, n);
    SavedReplays(namespaces, pre, e, post, n);
    hide Step, Replay, SavesTo;
    assert SavesTo(namespaces, pre, e, n).value == key;
  }

  lemma OverlayFacts(r: Replica, n: string)
    requires Consistent(r) && CleanOverlays(r) && n in r.overlay
    ensures Tidy(r.overlay[n]) && r.overlay[n].origin == n
    ensures r.overlay[n].soa == None && r.overlay[n].ns == []
  {}

  /** Only a save of `n` to this very object changes its status. */
  lemma KeepsStatus(namespaces: seq<string>, pre: System, e: Event, post: System, n: string, key: ObjectKey)
    requires Consistent(pre.replica) && Named(pre.store) && Step(namespaces, pre, e, post)
    requires IsFqdn(n) && key in pre.store && key in post.store && key.name == TrimDot(n)
    requires SavesTo(namespaces, pre, e, n) != Some(key)
    ensures post.store[key].status == pre.store[key].status
  {
    hide ServeStep, ParseZone, ApplyAll, Processed, Snapshot;
    if e.Serve? {
      ServeEffect(namespaces, pre, e, post);
      var u := UpdateOf(pre, e);
      if u.Some? && SavesTo(namespaces, pre, e, u.value) == Some(key) {
        SavesToNamed(namespaces, pre, e, u.value);
        TrimSame(u.value, n);
      }
    }
  }

  lemma KeepsOverlay(namespaces: seq<string>, pre: System, e: Event, post: System, n: string)
    requires Consistent(pre.replica) && Step(namespaces, pre, e, post) && !e.Restart?
    requires n in pre.replica.base && n in post.replica.base
    ensures n in pre.replica.overlay && n in post.replica.overlay
    ensures post.replica.overlay[n] == ApplyAll(pre.replica.overlay[n], AppliedBy(pre, e, n))
  {
    hide ServeStep, Processed, Saved, Snapshot, ParseZone, Sound;
    ConsistentKeys(pre.replica);
    match e
    case Serve(_, _, _) => ServeEffect(namespaces, pre, e, post);
    case Reconcile(got) => ReconcileConsistent(pre.replica, got); ConsistentKeys(post.replica);
    case Edit =>
  }

  /** Without a save or a restart, the persisted status of `n` stays, and its overlay changes by the
      records the event applies. */
  lemma NoSync(namespaces: seq<string>, pre: System, e: Event, post: System, n: string, key: ObjectKey)
    requires Consistent(pre.replica) && Named(pre.store)
    requires Sole(pre.store, namespaces, n, key) && Sole(post.store, namespaces, n, key)
    requires n in pre.replica.base && n in post.replica.base
    requires Step(namespaces, pre, e, post) && !Syncs(namespaces, pre, e, n)
    ensures post.store[key].status == pre.store[key].status
    ensures n in pre.replica.overlay && n in post.replica.overlay
    ensures post.replica.overlay[n] == ApplyAll(pre.replica.overlay[n], AppliedBy(pre, e, n))
  {
    FqdnTrim(n, key.name);
    hide Consistent, Step, SavesTo, UpdateOf;
    KeepsStatus(namespaces, pre, e, post, n, key);
    KeepsOverlay(namespaces, pre, e, post, n);
  }

  /** The persisted status of `n` in state `i` stands for its overlay in state `j`, and its overlay
      in state `i` is that one with the records applied since. */
  ghost predicate StandsFor(states: seq<System>, events: seq<Event>, n: string, key: ObjectKey, j: nat, i: nat)
    requires j <= i <= |events| && |states| == |events| + 1
  {
    && n in states[i].replica.overlay && n in states[j].replica.overlay && key in states[i].store
    && Replay(n, states[i].store[key].status.dynamicRRs) == states[j].replica.overlay[n]
    && states[i].replica.overlay[n] == ApplyAll(states[j].replica.overlay[n], Applied(states, events, n, j, i))
  }

  lemma StandsForItself(states: seq<System>, events: seq<Event>, n: string, key: ObjectKey, i: nat)
    requires i <= |events| && |states| == |events| + 1
    requires n in states[i].replica.overlay && key in states[i].store
    requires Replay(n, states[i].store[key].status.dynamicRRs) == states[i].replica.overlay[n]
    ensures StandsFor(states, events, n, key, i, i)
  {}

  lemma StandsForStill(
    namespaces: seq<string>, states: seq<System>, events: seq<Event>, n: string, key: ObjectKey, j: nat, i: nat)
    requires j < i <= |events| && |states| == |events| + 1
    requires StandsFor(states, events, n, key, j, i - 1)
    requires Consistent(states[i - 1].replica) && Named(states[i - 1].store)
    requires Sole(states[i - 1].store, namespaces, n, key) && Sole(states[i].store, namespaces, n, key)
    requires n in states[i - 1].replica.base && n in states[i].replica.base
    requires Step(namespaces, states[i - 1], events[i - 1], states[i])
    requires !Syncs(namespaces, states[i - 1], events[i - 1], n)
    ensures StandsFor(states, events, n, key, j, i)
  {
    var pre, e, post := states[i - 1], events[i - 1], states[i];
    NoSync(namespaces, pre, e, post, n, key);
    SoleInStore(post.store, namespaces, n, key);
    hide Consistent, Named, Sole, Step, Syncs, Replay;
    ApplyAllSplit(states[j].replica.overlay[n], Applied(states, events, n, j, i - 1), AppliedBy(pre, e, n));
  }

  lemma SyncedStep(namespaces: seq<string>, pre: System, e: Event, post: System, n: string, key: ObjectKey)
    requires Consistent(pre.replica) && Named(pre.store) && CleanOverlays(pre.replica) && CleanStore(pre.store)
    requires Step(namespaces, pre, e, post) && Syncs(namespaces, pre, e, n)
    requires Sole(post.store, namespaces, n, key) && n in post.replica.base
    ensures key in post.store && n in post.replica.overlay
    ensures Replay(n, post.store[key].status.dynamicRRs) == post.replica.overlay[n]
  {
    hide ServeStep, Consistent, Named, CleanOverlays, CleanStore, Sole, Replay, Load, ListsCluster;
    SoleInStore(post.store, namespaces, n, key);
    if e.Restart? {
      ColdStart(post.store, namespaces, e.lists, n, key);
    } else {
      ServeConsistent(namespaces, pre, e, post);
      SoleKeys(post.store, pre.store, namespaces, n, key);
      SyncAfterSave(namespaces, pre, e, post, n, key);
    }
  }

  lemma LastingAt(namespaces: seq<string>, states: seq<System>, n: string, key: ObjectKey, a: nat, b: nat, j: nat)
    requires b < |states| && Lasting(namespaces, states, n, key, a, b) && a <= j <= b
    ensures Sole(states[j].store, namespaces, n, key) && n in states[j].replica.base && key in states[j].store
  {}

  /** After a save or a start, the status stands for the overlay. */
  lemma StandsForAtSync(
    namespaces: seq<string>, states: seq<System>, events: seq<Event>, n: string, key: ObjectKey, i: nat)
    requires Run(namespaces, states, events) && i < |states| && CleanStore(states[0].store)
    requires Sole(states[i].store, namespaces, n, key) && n in states[i].replica.base
    requires i > 0 ==> Syncs(namespaces, states[i - 1], events[i - 1], n)
    ensures StandsFor(states, events, n, key, i, i)
  {
    hide Run, Step, Consistent, Named, CleanStore, CleanOverlays, Sole, Replay, Load, ListsCluster, StandsFor, Syncs;
    RunLength(namespaces, states, events);
    SoleInStore(states[i].store, namespaces, n, key);
    if i == 0 {
      var lists := RunStart(namespaces, states, events);
      ColdStart(states[0].store, namespaces, lists, n, key);
    } else {
      RunStep(namespaces, states, events, i - 1);
      AlwaysClean(namespaces, states, events, i - 1);
      SyncedStep(namespaces, states[i - 1], events[i - 1], states[i], n, key);
    }
    StandsForItself(states, events, n, key, i);
  }

  lemma {:induction false} StandsForSince(
    namespaces: seq<string>, states: seq<System>, events: seq<Event>, n: string, key: ObjectKey, j: nat, i: nat)
    requires Run(namespaces, states, events) && j <= i < |states|
    requires Lasting(namespaces, states, n, key, j, i) && StandsFor(states, events, n, key, j, j)
    requires forall k :: j <= k < i ==> !Syncs(namespaces, states[k], events[k], n)
    ensures StandsFor(states, events, n, key, j, i)
    decreases i
  {
    hide Run, Step, Consistent, Named, Sole, StandsFor, Syncs;
    RunLength(namespaces, states, events);
    if j < i {
      LastingAt(namespaces, states, n, key, j, i, i - 1);
      LastingAt(namespaces, states, n, key, j, i, i);
      StandsForSince(namespaces, states, events, n, key, j, i - 1);
      hide Lasting;
      RunStep(namespaces, states, events, i - 1);
      StandsForStill(namespaces, states, events, n, key, j, i);
    }
  }

  /** At every point of every run, the persisted status of `n` stands for its overlay as it was at
      the last save or start, and what came since is the records applied since. */
  lemma PersistedIsLastSync(
    namespaces: seq<string>, states: seq<System>, events: seq<Event>, n: string, key: ObjectKey, j: nat, i: nat)
    requires Run(namespaces, states, events) && i <= |events| && CleanStore(states[0].store)
    requires LastSync(namespaces, states, events, n, j, i) && Lasting(namespaces, states, n, key, j, i)
    ensures StandsFor(states, events, n, key, j, i)
  {
    LastingAt(namespaces, states, n, key, j, i, j);
    hide CleanStore, Sole, StandsFor, Lasting, Syncs, Run;
    StandsForAtSync(namespaces, states, events, n, key, j);
    StandsForSince(namespaces, states, events, n, key, j, i);
  }

  /** The records that the events from `from` up to `to` apply to the overlay of `n`. */
  function Applied(states: seq<System>, events: seq<Event>, n: string, from: nat, to: nat): seq<RR>
    requires from <= to <= |events| && |states| == |events| + 1
  {
    if from == to then []
    else Applied(states, events, n, from, to - 1) + AppliedBy(states[to - 1], events[to - 1], n)
  }

  /** What a restart in a run loads from. */
  lemma RestartLoads(namespaces: seq<string>, states: seq<System>, events: seq<Event>, i: nat)
    requires Run(namespaces, states, events) && i < |events| && events[i].Restart?
    ensures |states| == |events| + 1 && states[i + 1] == System(Load(events[i].lists), states[i].store)
    ensures ListsCluster(events[i].lists, states[i].store, namespaces) && Named(states[i].store)
  {
    hide Run, Load, ListsCluster, Named, Consistent;
    RunLength(namespaces, states, events);
    RunStep(namespaces, states, events, i);
  }

  /** Crash and recovery. Whenever a run restarts, the zone comes back exactly when its text parses, and
      then its overlay is the one of the last save or start, whatever order the snapshot listed it in;
      what is lost is exactly the records applied since, and the base zone is the parsed text again.
      What happened to `n` before that save or start does not matter. */
  lemma CrashRecovery(
    namespaces: seq<string>, states: seq<System>, events: seq<Event>, n: string, key: ObjectKey, j: nat, i: nat)
    requires Run(namespaces, states, events) && CleanStore(states[0].store)
    requires i < |events| && events[i].Restart?
    requires LastSync(namespaces, states, events, n, j, i) && Lasting(namespaces, states, n, key, j, i)
    ensures n in states[j].replica.overlay && n in states[i].replica.overlay && key in states[i].store
    ensures var parsed, back := ParseZone(states[i].store[key].text, n), states[i + 1].replica;
            && (n in back.base <==> parsed.Some?)
            && (parsed.Some? ==>
                  && n in back.overlay && back.base[n] == parsed.value
                  && back.overlay[n] == states[j].replica.overlay[n]
                  && states[i].replica.overlay[n] == ApplyAll(back.overlay[n], Applied(states, events, n, j, i)))
  {
    LastingAt(namespaces, states, n, key, j, i, i);
    hide Run, CleanStore, Sole, LastSync, Load, ParseZone, ListsCluster, Lasting, Replay, Named;
    RestartLoads(namespaces, states, events, i);
    ColdStart(states[i].store, namespaces, events[i].lists, n, key);
    PersistedIsLastSync(namespaces, states, events, n, key, j, i);
  }

  // ---- the merged zone

  function NoSerial(soa: Option<SoaRR>): Option<SoaRR> {
    if soa == None then None else Some(WithSerial(soa.value, 0))
  }

  /** Equal but for the SOA serial. */
  predicate SameButSerial(a: ZoneVal, b: ZoneVal) {
    a.(soa := NoSerial(a.soa)) == b.(soa := NoSerial(b.soa))
  }

  lemma SameAsItself(v: ZoneVal)
    ensures SameButSerial(v, v)
  {}

  lemma MergedSameButSerial(a: ZoneVal, b: ZoneVal, overlay: ZoneVal)
    requires SameButSerial(a, b)
    ensures SameButSerial(Merged(a, overlay), Merged(b, overlay))
  {}

  /** The event does not bring in another text for `n`. */
  predicate KeepsText(e: Event, post: System, n: string, key: ObjectKey, text: seq<Entry>) {
    && key in post.store && post.store[key].text == text
    && (e.Reconcile? && e.got.Object? && Fqdn(e.got.obj.name) == n ==> e.got.obj.text == text)
  }

  /** In state `b` the object has this text, and it is what is served: the state follows a start, or a
      reconciliation with that text. */
  ghost predicate TextTakesForce(
    states: seq<System>, events: seq<Event>, n: string, key: ObjectKey, text: seq<Entry>, b: nat)
    requires b <= |events| && |states| == |events| + 1
  {
    && key in states[b].store && states[b].store[key].text == text
    && (|| b == 0
        || events[b - 1].Restart?
        || (events[b - 1].Reconcile? && events[b - 1].got.Object? && Fqdn(events[b - 1].got.obj.name) == n
            && events[b - 1].got.obj.text == text && ParseZone(text, n).Some?))
  }

  lemma ForceAtStart(
    namespaces: seq<string>, states: seq<System>, events: seq<Event>, n: string, key: ObjectKey,
    text: seq<Entry>, b: nat)
    requires Run(namespaces, states, events) && b < |states|
    requires Sole(states[b].store, namespaces, n, key) && n in states[b].replica.base
    requires TextTakesForce(states, events, n, key, text, b)
    ensures var parsed := ParseZone(text, n);
            parsed.Some? && states[b].replica.base[n] == parsed.value
  {
    hide Consistent, Named, Sole, ParseZone, Load, ListsCluster;
    if b == 0 {
      var lists := RunStart(namespaces, states, events);
      ColdStart(states[0].store, namespaces, lists, n, key);
    } else {
      RunStep(namespaces, states, events, b - 1);
      hide Run;
      if events[b - 1].Restart? {
        ColdStart(states[b].store, namespaces, events[b - 1].lists, n, key);
      }
    }
  }

  /** From state `b` to state `i` the text stays. */
  ghost predicate TextStays(
    states: seq<System>, events: seq<Event>, n: string, key: ObjectKey, text: seq<Entry>, b: nat, i: nat)
    requires i <= |events| && |states| == |events| + 1
  {
    forall m :: b <= m < i ==> KeepsText(events[m], states[m + 1], n, key, text)
  }

  /** While the text of `n` stays, its base zone is the parsed text but for the serial. */
  lemma {:induction false} BaseIsText(
    namespaces: seq<string>, states: seq<System>, events: seq<Event>, n: string, key: ObjectKey,
    text: seq<Entry>, b: nat, i: nat)
    requires Run(namespaces, states, events) && b <= i < |states|
    requires Lasting(namespaces, states, n, key, b, i) && TextTakesForce(states, events, n, key, text, b)
    requires TextStays(states, events, n, key, text, b, i)
    ensures var parsed := ParseZone(text, n);
            parsed.Some? && SameButSerial(states[i].replica.base[n], parsed.value)
    decreases i
  {
    hide Run, Step, Consistent, Named, Sole, ParseZone, TextTakesForce, KeepsText, SameButSerial;
    RunLength(namespaces, states, events);
    if i == b {
      ForceAtStart(namespaces, states, events, n, key, text, b);
      SameAsItself(states[b].replica.base[n]);
    } else {
      var pre, e, post := states[i - 1], events[i - 1], states[i];
      RunStep(namespaces, states, events, i - 1);
      BaseIsText(namespaces, states, events, n, key, text, b, i - 1);
      BaseStep(namespaces, pre, e, post, n, key, text);
    }
  }

  lemma BaseStep(
    namespaces: seq<string>, pre: System, e: Event, post: System, n: string, key: ObjectKey, text: seq<Entry>)
    requires Consistent(pre.replica) && Named(pre.store) && Step(namespaces, pre, e, post)
    requires Sole(pre.store, namespaces, n, key) && Sole(post.store, namespaces, n, key)
    requires n in pre.replica.base && n in post.replica.base && KeepsText(e, post, n, key, text)
    requires ParseZone(text, n).Some? && SameButSerial(pre.replica.base[n], ParseZone(text, n).value)
    ensures SameButSerial(post.replica.base[n], ParseZone(text, n).value)
  {
    hide ServeStep, ParseZone, Sole, Load, Consistent, Named, ListsCluster, Saved;
    match e
    case Serve(_, _, _) => ServeEffect(namespaces, pre, e, post);
    case Reconcile(_) =>
    case Edit =>
    case Restart(lists) => ColdStart(pre.store, namespaces, lists, n, key);
  }

  /** When the text of `n` has been served since state `b` and does not change, the zone served after a
      restart is the zone that was served at the last save or start since then, but for the SOA
      serial. */
  lemma RecoveredZone(
    namespaces: seq<string>, states: seq<System>, events: seq<Event>, n: string, key: ObjectKey,
    text: seq<Entry>, b: nat, j: nat, i: nat)
    requires Run(namespaces, states, events) && CleanStore(states[0].store)
    requires i < |events| && events[i].Restart?
    requires LastSync(namespaces, states, events, n, j, i) && b <= j
    requires Lasting(namespaces, states, n, key, b, i) && TextTakesForce(states, events, n, key, text, b)
    requires TextStays(states, events, n, key, text, b, i)
    ensures n in states[i + 1].replica.base && n in states[i + 1].replica.overlay && n in states[j].replica.overlay
    ensures SameButSerial(Merged(states[i + 1].replica.base[n], states[i + 1].replica.overlay[n]),
                          Merged(states[j].replica.base[n], states[j].replica.overlay[n]))
  {
    RunLength(namespaces, states, events);
    LastingAt(namespaces, states, n, key, b, i, b);
    LastingAt(namespaces, states, n, key, b, i, i);
    assert states[i].store[key].text == text by {
      if b < i {
        assert KeepsText(events[i - 1], states[i], n, key, text);
      }
    }
    hide Run, ParseZone, Sole, TextTakesForce, CleanStore, KeepsText;
    BaseIsText(namespaces, states, events, n, key, text, b, j);
    CrashRecovery(namespaces, states, events, n, key, j, i);
    MergedSameButSerial(states[i + 1].replica.base[n], states[j].replica.base[n], states[j].replica.overlay[n]);
  }
}
