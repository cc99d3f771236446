/** What updates and reconciliations are answered. */
module Answers {
  import opened Wrappers
  import opened Dns
  import opened ZoneValue
  import opened Update
  import opened Registry
  import opened Cluster
  import opened Steps
  import opened Runs
  import opened Types
  import opened Recovery
  import Routing

  /** The zone that a request is for, if it is an update that gets to its zone: opcode 5, and no transfer
      (IXFR is type 251, AXFR 252). */
  ghost predicate IsUpdate(r: Replica, req: Request, zone: string) {
    && req.opcode == 5 && zone != ""
    && zone == Routing.Route(r.names, if req.questions == [] then "." else Lower(req.questions[0].name))
    && !(req.questions != [] && req.questions[0].qtype in {251, 252})
  }

  lemma UpdateIsOf(namespaces: seq<string>, pre: System, e: Event, post: System, zone: string)
    requires Consistent(pre.replica) && e.Serve? && Step(namespaces, pre, e, post) && IsUpdate(pre.replica, e.req, zone)
    ensures IsFqdn(zone) && zone != "" && zone in pre.replica.base && zone in pre.replica.overlay
    ensures UpdateOf(pre, e) == Some(zone) && e.out.Answered?
    ensures UpdateStep(namespaces, pre, zone, e.req, e.env, post, e.out.code)
  {
    hide Routing.Route, UpdateStep, Lower;
    Routing.RoutedZoneExists(pre.replica, QName(e.req));
  }

  lemma OffenceIsNoSuccess(section: seq<RR>, questions: nat)
    ensures Answer(section, questions) != Some(Success)
  {}

  /** The code, step by step, and what is stored. */
  lemma StepAnswers(
    namespaces: seq<string>, pre: System, zone: string, req: Request, env: Env, post: System, code: Rcode)
    requires zone in pre.replica.base && zone in pre.replica.overlay && IsFqdn(zone)
    requires UpdateStep(namespaces, pre, zone, req, env, post, code)
    ensures var found := Find(pre.store, namespaces, zone[..|zone| - 1], env.unreachable);
            match Answer(req.section, |req.questions|)
            case Some(c) => code == c && post.store == pre.store
            case None =>
              && (found == None ==> code == Refused)
              && (found.Some? && !env.writeOk ==> code == ServerFailure)
              && (found == None || !env.writeOk ==> post.store == pre.store)
              && (found.Some? && env.writeOk ==>
                    && code == (if pre.replica.base[zone].soa.Some? && env.replyOk then Success else ServerFailure)
                    && found.value in post.store
                    && post.store == pre.store[found.value := post.store[found.value]]
                    && post.store[found.value].status.serial == SerialOf(env.millis))
  {
    hide Answer, Processed, Find, ApplyAll, Snapshot, SerialOf;
    FindInStore(pre.store, namespaces, TrimDot(zone), env.unreachable);
  }

  lemma SuccessReplays(namespaces: seq<string>, pre: System, e: Event, post: System, zone: string)
    requires Consistent(pre.replica) && Named(pre.store) && CleanOverlays(pre.replica) && CleanStore(pre.store)
    requires e.Serve? && Step(namespaces, pre, e, post) && UpdateOf(pre, e) == Some(zone) && IsFqdn(zone)
    requires Answer(e.req.section, |e.req.questions|) == None && e.env.writeOk
    requires Find(pre.store, namespaces, zone[..|zone| - 1], e.env.unreachable).Some?
    ensures var key := Find(pre.store, namespaces, zone[..|zone| - 1], e.env.unreachable).value;
            && key in post.store && zone in post.replica.overlay
            && Replay(zone, post.store[key].status.dynamicRRs) == post.replica.overlay[zone]
  {
    hide Consistent, Named, CleanOverlays, CleanStore, Step, UpdateOf, Answer, Find, Replay;
    assert SavesTo(namespaces, pre, e, zone) == Find(pre.store, namespaces, zone[..|zone| - 1], e.env.unreachable);
    SavedReplays(namespaces, pre, e, post, zone);
  }

  /** In every state of every run, what an update is answered. The first offender's code, if there is
      one. Otherwise it is Refused when no namespace that can be read has the object of the zone, which
      has the name of the zone without its last dot; a server failure when the status write fails, when
      the base zone has no SOA or when the reply fails; and NOERROR exactly when none of that happens.
      The overlay has taken in what the handler gets to apply in any case. The status is written exactly
      when an object is found and the write succeeds, whatever is answered then, and it replays to that
      overlay. */
  lemma UpdateIsAnswered(namespaces: seq<string>, states: seq<System>, events: seq<Event>, i: nat, zone: string)
    requires Run(namespaces, states, events) && CleanStore(states[0].store) && i < |events| && events[i].Serve?
    requires IsUpdate(states[i].replica, events[i].req, zone)
    ensures |states| == |events| + 1 && zone in states[i].replica.base && zone in states[i].replica.overlay
    ensures var pre, req, env, out, post := states[i], events[i].req, events[i].env, events[i].out, states[i + 1];
            var offence := Answer(req.section, |req.questions|);
            var found := Find(pre.store, namespaces, zone[..|zone| - 1], env.unreachable);
            && zone in post.replica.overlay
            && post.replica.overlay[zone]
               == ApplyAll(pre.replica.overlay[zone], Processed(req.section, |req.questions|))
            && (offence.Some? ==> out == Answered(offence.value))
            && (offence == None && found == None ==> out == Answered(Refused))
            && (offence == None && found.Some? ==>
                  out == Answered(if env.writeOk && pre.replica.base[zone].soa.Some? && env.replyOk
                                  then Success else ServerFailure))
            && (out == Answered(Success) <==>
                  offence == None && found.Some? && env.writeOk && pre.replica.base[zone].soa.Some? && env.replyOk)
            && (if offence == None && found.Some? && env.writeOk then
                  && found.value in post.store
                  && post.store == pre.store[found.value := post.store[found.value]]
                  && post.store[found.value].status.serial == SerialOf(env.millis)
                  && Replay(zone, post.store[found.value].status.dynamicRRs) == post.replica.overlay[zone]
                else post.store == pre.store)
  {
    hide Run, Consistent, Named, CleanStore, CleanOverlays, Step, UpdateStep, IsUpdate, UpdateOf;
    hide Answer, Processed, ApplyAll, Find, Replay, SerialOf, IsFqdn;
    RunLength(namespaces, states, events);
    RunStep(namespaces, states, events, i);
    AlwaysClean(namespaces, states, events, i);
    var pre, e, post := states[i], events[i], states[i + 1];
    UpdateIsOf(namespaces, pre, e, post, zone);
    OffenceIsNoSuccess(e.req.section, |e.req.questions|);
    StepAnswers(namespaces, pre, zone, e.req, e.env, post, e.out.code);
    UpdateChangesOverlay(namespaces, pre, e, post, zone);
    if Answer(e.req.section, |e.req.questions|) == None && e.env.writeOk
       && Find(pre.store, namespaces, zone[..|zone| - 1], e.env.unreachable).Some? {
      SuccessReplays(namespaces, pre, e, post, zone);
    }
  }

  lemma UpdateChangesOverlay(namespaces: seq<string>, pre: System, e: Event, post: System, zone: string)
    requires Step(namespaces, pre, e, post) && UpdateOf(pre, e) == Some(zone)
    ensures zone in pre.replica.overlay && zone in post.replica.overlay
    ensures post.replica.overlay[zone]
         == ApplyAll(pre.replica.overlay[zone], Processed(e.req.section, |e.req.questions|))
  {
    ServeEffect(namespaces, pre, e, post);
    hide Step, UpdateOf, ApplyAll, Processed, Saved;
  }

  /** A reconciliation is retried exactly when the object cannot be read, or when it has to be parsed and
      some entry of its text cannot be read or is refused: it need not be parsed when it is gone, or when
      it is being deleted and its zone is registered. What is retried has changed nothing. */
  lemma RetriedWhen(r: Replica, got: Fetched)
    ensures ReconcileStep(r, got).1 == Retry <==>
              || got.Failed?
              || (got.Object? && !(got.obj.deleting && Fqdn(got.obj.name) in r.base)
                  && exists i :: 0 <= i < |got.obj.text|
                                 && (got.obj.text[i].Malformed? || !Accepts(got.obj.text[i].rr)))
    ensures ReconcileStep(r, got).1 == Retry ==> ReconcileStep(r, got).0 == r
  {
    hide ReadTo;
  }
}
