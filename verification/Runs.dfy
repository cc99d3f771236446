/** Whole runs of one replica: requests, reconciliations, changes users make in the cluster, and
    restarts, in any order. */
module Runs {
  import opened Wrappers
  import opened Dns
  import opened ZoneValue
  import opened Update
  import opened Registry
  import opened Cluster
  import opened Steps
  import opened Startup
  import Routing

  datatype Event =
    | Serve(req: Request, env: Env, out: Outcome)
    | Reconcile(got: Fetched)
    | Edit
    | Restart(lists: seq<seq<ZoneObject>>)

  /** Objects carry their own name, which never ends in a dot. */
  ghost predicate Named(store: Store) {
    forall key :: key in store ==> store[key].name == key.name && !IsFqdn(key.name)
  }

  /** Users create, change and delete objects, but leave the status of an existing one alone; a new
      object has no persisted records. */
  ghost predicate EditStep(before: Store, after: Store) {
    && Named(after)
    && forall key :: key in after ==>
         if key in before then after[key].status == before[key].status else after[key].status.dynamicRRs == []
  }

  /** `items` are the objects of one namespace, each once, in some order. */
  ghost predicate ListsNamespace(items: seq<ZoneObject>, store: Store, namespace: string) {
    && (forall i, j :: 0 <= i < j < |items| ==> items[i].name != items[j].name)
    && (forall i :: 0 <= i < |items| ==>
          ObjectKey(namespace, items[i].name) in store && store[ObjectKey(namespace, items[i].name)] == items[i])
    && (forall key :: key in store && key.namespace == namespace ==> store[key] in items)
  }

  ghost predicate ListsCluster(lists: seq<seq<ZoneObject>>, store: Store, namespaces: seq<string>) {
    |lists| == |namespaces| && forall i :: 0 <= i < |lists| ==> ListsNamespace(lists[i], store, namespaces[i])
  }

  ghost predicate Step(namespaces: seq<string>, pre: System, e: Event, post: System) {
    match e
    case Serve(req, env, out) =>
      pre.replica.base.Keys == pre.replica.overlay.Keys && ServeStep(namespaces, pre, req, env, post, out)
    case Reconcile(got) =>
      post == System(ReconcileStep(pre.replica, got).0, pre.store)
    case Edit =>
      post.replica == pre.replica && EditStep(pre.store, post.store)
    case Restart(lists) =>
      ListsCluster(lists, pre.store, namespaces) && post == System(Load(lists), pre.store)
  }

  /** A run starts with a cold start and goes on step by step. */
  ghost predicate Run(namespaces: seq<string>, states: seq<System>, events: seq<Event>) {
    && |states| == |events| + 1
    && Named(states[0].store)
    && (exists lists :: ListsCluster(lists, states[0].store, namespaces) && states[0].replica == Load(lists))
    && forall i :: 0 <= i < |events| ==> Step(namespaces, states[i], events[i], states[i + 1])
  }

  /** The zone an update event is for, if it gets past the checks before the update branch. */
  function UpdateOf(pre: System, e: Event): Option<string> {
    if e.Serve? then
      var zone := Routing.Route(pre.replica.names, QName(e.req));
      if zone != "" && zone in pre.replica.overlay && QType(e.req) != TYPE_AXFR && QType(e.req) != TYPE_IXFR
         && e.req.opcode == OPCODE_UPDATE
      then Some(zone) else None
    else None
  }

  /** The object to which an update event saves the overlay of zone `n`. */
  function SavesTo(namespaces: seq<string>, pre: System, e: Event, n: string): Option<ObjectKey> {
    if UpdateOf(pre, e) == Some(n) then WritesTo(pre.store, namespaces, n, e.req, e.env) else None
  }

  /** The records an event applies to the overlay of zone `n`. */
  function AppliedBy(pre: System, e: Event, n: string): seq<RR> {
    if UpdateOf(pre, e) == Some(n) then Processed(e.req.section, |e.req.questions|) else []
  }

  // ---- what one event does to the registry

  lemma ReconcileConsistent(r: Replica, got: Fetched)
    requires Consistent(r)
    ensures Consistent(ReconcileStep(r, got).0)
  {
    hide Consistent;
    if got.Object? {
      var n := Fqdn(got.obj.name);
      if got.obj.deleting && n in r.base {
        DropKeepsConsistent(r, n);
      } else if ParseZone(got.obj.text, n).Some? {
        ParseZoneTidy(got.obj.text, n);
        if n in r.base {
          ReplaceKeepsConsistent(r, n, ParseZone(got.obj.text, n).value);
        } else {
          AddKeepsConsistent(r, n, ParseZone(got.obj.text, n).value);
        }
      }
    }
  }

  /** What a request does: nothing, or an update that changes the overlay of its zone and, when it
      gets to a successful status write, the object and the SOA serial of that zone. */
  lemma ServeEffect(namespaces: seq<string>, pre: System, e: Event, post: System)
    requires e.Serve? && Step(namespaces, pre, e, post)
    ensures UpdateOf(pre, e) == None ==> post == pre
    ensures UpdateOf(pre, e).Some? ==>
              var n := UpdateOf(pre, e).value;
              n in pre.replica.base && n in pre.replica.overlay &&
              var applied, serial := AfterApply(pre.replica, n, e.req), SerialOf(e.env.millis);
              match SavesTo(namespaces, pre, e, n)
              case None => post == System(applied, pre.store)
              case Some(key) =>
                && Saved(pre.store, key, applied.overlay[n], serial, post.store)
                && post.replica == AfterBump(applied, n, serial)
  {
    hide Saved, Processed, Answer, ApplyAll, AfterBump;
  }

  lemma ServeConsistent(namespaces: seq<string>, pre: System, e: Event, post: System)
    requires Consistent(pre.replica) && e.Serve? && Step(namespaces, pre, e, post)
    ensures Consistent(post.replica) && post.store.Keys == pre.store.Keys
    ensures forall key :: key in pre.store ==> post.store[key].name == pre.store[key].name
  {
    ServeEffect(namespaces, pre, e, post);
    hide Consistent, ServeStep, Step, AfterApply, AfterBump, UpdateOf, SavesTo, Snapshot;
    if UpdateOf(pre, e).Some? {
      var n := UpdateOf(pre, e).value;
      ApplyKeepsConsistent(pre.replica, n, e.req);
      BumpKeepsConsistent(AfterApply(pre.replica, n, e.req), n, SerialOf(e.env.millis));
    }
  }

  lemma ApplyKeepsConsistent(r: Replica, n: string, req: Request)
    requires Consistent(r) && n in r.overlay
    ensures Consistent(AfterApply(r, n, req))
  {
    AfterApplySound(r, n, req);
  }

  lemma BumpKeepsConsistent(r: Replica, n: string, serial: u32)
    requires Consistent(r) && n in r.base
    ensures Consistent(AfterBump(r, n, serial))
  {
    AfterBumpSound(r, n, serial);
  }

  lemma StepConsistent(namespaces: seq<string>, pre: System, e: Event, post: System)
    requires Consistent(pre.replica) && Named(pre.store) && Step(namespaces, pre, e, post)
    ensures Consistent(post.replica) && Named(post.store)
  {
    hide Consistent, ServeStep;
    match e
    case Serve(_, _, _) => ServeConsistent(namespaces, pre, e, post);
    case Reconcile(got) => ReconcileConsistent(pre.replica, got);
    case Edit =>
    case Restart(lists) => LoadConsistent(lists);
  }

  /** The registry invariant holds in every state of every run. */
  lemma {:induction false} AlwaysConsistent(namespaces: seq<string>, states: seq<System>, events: seq<Event>, i: nat)
    requires Run(namespaces, states, events) && i < |states|
    ensures Consistent(states[i].replica) && Named(states[i].store)
  {
    if i == 0 {
      var lists :| ListsCluster(lists, states[0].store, namespaces) && states[0].replica == Load(lists);
      LoadConsistent(lists);
    } else {
      AlwaysConsistent(namespaces, states, events, i - 1);
      StepConsistent(namespaces, states[i - 1], events[i - 1], states[i]);
    }
  }

  lemma RunLength(namespaces: seq<string>, states: seq<System>, events: seq<Event>)
    requires Run(namespaces, states, events)
    ensures |states| == |events| + 1
  {}

  /** What a run gives about one of its events. */
  lemma RunStep(namespaces: seq<string>, states: seq<System>, events: seq<Event>, i: nat)
    requires Run(namespaces, states, events) && i < |events|
    ensures |states| == |events| + 1 && Step(namespaces, states[i], events[i], states[i + 1])
    ensures Consistent(states[i].replica) && Named(states[i].store)
    ensures Consistent(states[i + 1].replica) && Named(states[i + 1].store)
  {
    AlwaysConsistent(namespaces, states, events, i);
    AlwaysConsistent(namespaces, states, events, i + 1);
  }

  lemma RunStart(namespaces: seq<string>, states: seq<System>, events: seq<Event>) returns (lists: seq<seq<ZoneObject>>)
    requires Run(namespaces, states, events)
    ensures |states| == |events| + 1 && ListsCluster(lists, states[0].store, namespaces)
    ensures states[0].replica == Load(lists) && Consistent(states[0].replica) && Named(states[0].store)
  {
    AlwaysConsistent(namespaces, states, events, 0);
    lists :| ListsCluster(lists, states[0].store, namespaces) && states[0].replica == Load(lists);
  }

  /** What a request is answered in every state of every run, unless it is an update. A name under no
      registered zone goes to the next plugin, a transfer (IXFR is type 251, AXFR 252) is refused, a
      NOTIFY (opcode 4) is dropped as a success, and every other request but an update (opcode 5) is
      looked up in the merge of its base zone and its overlay, which are both there. Nothing changes. */
  lemma RoutedIsServed(namespaces: seq<string>, states: seq<System>, events: seq<Event>, i: nat)
    requires Run(namespaces, states, events) && i < |events| && events[i].Serve?
    ensures var r, req, out := states[i].replica, events[i].req, events[i].out;
            var name := if req.questions == [] then "." else Lower(req.questions[0].name);
            var transfer := req.questions != [] && req.questions[0].qtype in {251, 252};
            var zone := Routing.Route(r.names, name);
            && (zone == "" ==> out == NextPlugin)
            && (zone != "" ==> zone in r.base && zone in r.overlay)
            && (zone != "" && transfer ==> out == Answered(Refused))
            && (zone != "" && !transfer && req.opcode == 4 ==> out == Answered(Success))
            && (zone != "" && !transfer && req.opcode !in {4, 5} ==>
                  out == LookedUp(Merged(r.base[zone], r.overlay[zone])))
            && (zone == "" || transfer || req.opcode != 5 ==> states[i + 1] == states[i])
  {
    hide Run, Consistent, Merged, Lower, Routing.Route;
    RunStep(namespaces, states, events, i);
    ConsistentKeys(states[i].replica);
    if Routing.Route(states[i].replica.names, QName(events[i].req)) != "" {
      Routing.RoutedZoneExists(states[i].replica, QName(events[i].req));
    }
    hide UpdateStep;
  }
}
