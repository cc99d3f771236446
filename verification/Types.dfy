/** The record types of the overlays and of the persisted texts, over whole runs. */
module Types {
  import opened Dns
  import opened ZoneValue
  import opened Update
  import opened Registry
  import opened Cluster
  import opened Steps
  import opened Startup
  import opened Runs

  ghost predicate AllDynamic(s: seq<RR>) {
    forall i :: 0 <= i < |s| ==> Dynamic(s[i])
  }

  /** Only records of allowed types and of class IN are persisted. */
  ghost predicate CleanStore(store: Store) {
    forall key :: key in store ==> AllDynamic(Parsed(store[key].status.dynamicRRs))
  }

  ghost predicate CleanOverlays(r: Replica) {
    forall n :: n in r.overlay ==> OnlyAllowed(r.overlay[n])
  }

  /** A snapshot of a clean overlay is clean. */
  lemma SnapshotClean(texts: seq<Entry>, v: ZoneVal)
    requires OnlyAllowed(v) && Snapshot(texts, v)
    ensures AllDynamic(Parsed(texts))
  {
    var s := Parsed(texts);
    forall i | 0 <= i < |s|
      ensures Dynamic(s[i])
    {
      InLanding(s, v.origin, i);
      assert Landing(s, v.origin, KeyOf(s[i])) == Get(v.tree, KeyOf(s[i]));
    }
  }

  lemma PutOnlyAllowed(v: ZoneVal, rr: RR)
    requires OnlyAllowed(v) && Dynamic(rr)
    ensures OnlyAllowed(Put(v, rr))
  {}

  lemma {:induction false} PutAllOnlyAllowed(v: ZoneVal, s: seq<RR>)
    requires OnlyAllowed(v) && AllDynamic(s)
    ensures OnlyAllowed(PutAll(v, s))
  {
    if s != [] {
      PutAllOnlyAllowed(v, s[..|s| - 1]);
      PutOnlyAllowed(PutAll(v, s[..|s| - 1]), s[|s| - 1]);
    }
  }

  ghost predicate CleanItems(items: seq<ZoneObject>) {
    forall i :: 0 <= i < |items| ==> AllDynamic(Parsed(items[i].status.dynamicRRs))
  }

  lemma {:induction false} RegisterAllClean(r: Replica, items: seq<ZoneObject>)
    requires CleanOverlays(r)
    ensures CleanOverlays(RegisterAll(r, items))
  {
    if items != [] {
      RegisterAllClean(r, items[..|items| - 1]);
    }
  }

  lemma {:induction false} ReplayAllClean(r: Replica, items: seq<ZoneObject>)
    requires CleanOverlays(r) && CleanItems(items)
    ensures CleanOverlays(ReplayAll(r, items))
  {
    if items != [] {
      var front, last := items[..|items| - 1], items[|items| - 1];
      ReplayAllClean(r, front);
      var q, n := ReplayAll(r, front), Fqdn(last.name);
      if n in q.overlay {
        PutAllOnlyAllowed(q.overlay[n], Parsed(last.status.dynamicRRs));
      }
    }
  }

  lemma {:induction false} LoadClean(lists: seq<seq<ZoneObject>>)
    requires forall i :: 0 <= i < |lists| ==> CleanItems(lists[i])
    ensures CleanOverlays(Load(lists))
  {
    if lists != [] {
      var front, items := lists[..|lists| - 1], lists[|lists| - 1];
      LoadClean(front);
      RegisterAllClean(Load(front), items);
      ReplayAllClean(RegisterAll(Load(front), items), items);
    }
  }

  lemma LoadClusterClean(lists: seq<seq<ZoneObject>>, store: Store, namespaces: seq<string>)
    requires ListsCluster(lists, store, namespaces) && CleanStore(store)
    ensures CleanOverlays(Load(lists))
  {
    forall i | 0 <= i < |lists|
      ensures CleanItems(lists[i])
    {
      assert ListsNamespace(lists[i], store, namespaces[i]);
    }
    LoadClean(lists);
  }

  lemma ServeClean(namespaces: seq<string>, pre: System, e: Event, post: System)
    requires CleanOverlays(pre.replica) && CleanStore(pre.store) && e.Serve? && Step(namespaces, pre, e, post)
    ensures CleanOverlays(post.replica) && CleanStore(post.store)
  {
    ServeEffect(namespaces, pre, e, post);
    if UpdateOf(pre, e).Some? {
      hide ServeStep, OnlyAllowed, Processed, ApplyAll, Snapshot, AllDynamic;
      var n := UpdateOf(pre, e).value;
      var records := Processed(e.req.section, |e.req.questions|);
      ProcessedHarmless(e.req.section, |e.req.questions|);
      ApplyAllOnlyAllowed(pre.replica.overlay[n], records);
      var applied := AfterApply(pre.replica, n, e.req);
      if SavesTo(namespaces, pre, e, n).Some? {
        var key := SavesTo(namespaces, pre, e, n).value;
        SnapshotClean(post.store[key].status.dynamicRRs, applied.overlay[n]);
      }
    }
  }

  lemma StepClean(namespaces: seq<string>, pre: System, e: Event, post: System)
    requires CleanOverlays(pre.replica) && CleanStore(pre.store) && Step(namespaces, pre, e, post)
    ensures CleanOverlays(post.replica) && CleanStore(post.store)
  {
    hide ServeStep;
    match e
    case Serve(_, _, _) => ServeClean(namespaces, pre, e, post);
    case Reconcile(_) =>
    case Edit =>
    case Restart(lists) => LoadClusterClean(lists, pre.store, namespaces);
  }

  /** If only allowed records were ever persisted before the run, then through every run no overlay
      and no persisted list ever holds anything else, and no overlay ever gets an apex. */
  lemma {:induction false} AlwaysClean(namespaces: seq<string>, states: seq<System>, events: seq<Event>, i: nat)
    requires Run(namespaces, states, events) && i < |states|
    requires CleanStore(states[0].store)
    ensures CleanOverlays(states[i].replica) && CleanStore(states[i].store)
  {
    if i == 0 {
      var lists :| ListsCluster(lists, states[0].store, namespaces) && states[0].replica == Load(lists);
      LoadClusterClean(lists, states[0].store, namespaces);
    } else {
      AlwaysClean(namespaces, states, events, i - 1);
      StepClean(namespaces, states[i - 1], events[i - 1], states[i]);
    }
  }
}
