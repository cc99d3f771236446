/** One step of the replica, on values: a DNS request, or a reconciliation of a Zone object. */
module Steps {
  import opened Wrappers
  import opened Dns
  import opened ZoneValue
  import opened Update
  import opened Registry
  import opened Cluster
  import Routing

  datatype System = System(replica: Replica, store: Store)

  datatype Question = Question(name: string, qtype: u16)
  datatype Request = Request(questions: seq<Question>, opcode: nat, section: seq<RR>)

  /** What a handler finds outside: the clock, the namespaces it cannot read, and whether the status
      write and the reply succeed. */
  datatype Env = Env(millis: int, unreachable: set<string>, writeOk: bool, replyOk: bool)

  /** The handler passes the request on, answers with a code, or looks the name up in a zone. */
  datatype Outcome = NextPlugin | Answered(code: Rcode) | LookedUp(zone: ZoneVal)

  function QName(req: Request): string {
    if req.questions == [] then "." else Lower(req.questions[0].name)
  }

  function QType(req: Request): u16 {
    if req.questions == [] then 0 else req.questions[0].qtype
  }

  /** The clock in milliseconds, cut to 32 bits. */
  function SerialOf(millis: int): u32 {
    millis % 0x1_0000_0000
  }

  function WithSerial(rr: SoaRR, serial: u32): SoaRR {
    rr.(data := rr.data.(serial := serial))
  }

  /** The serial is set and everything else about the SOA stays. */
  lemma OnlyTheSerial(rr: SoaRR, serial: u32)
    ensures var to := WithSerial(rr, serial);
            && to.name == rr.name && to.rclass == rr.rclass && to.ttl == rr.ttl
            && to.data == SOA(rr.data.mname, rr.data.rname, serial, rr.data.refresh, rr.data.retry, rr.data.expire,
                              rr.data.minttl)
  {}

  /** The overlay of `zone` after the records the handler gets to apply. */
  function AfterApply(r: Replica, zone: string, req: Request): Replica
    requires zone in r.overlay
  {
    r.(overlay := r.overlay[zone := ApplyAll(r.overlay[zone], Processed(req.section, |req.questions|))])
  }

  /** The replica with the SOA serial of `zone` set, when its base zone has an SOA. */
  function AfterBump(r: Replica, zone: string, serial: u32): Replica
    requires zone in r.base
  {
    var b := r.base[zone];
    if b.soa == None then r else r.(base := r.base[zone := b.(soa := Some(WithSerial(b.soa.value, serial)))])
  }

  lemma AfterApplySound(r: Replica, zone: string, req: Request)
    requires Sound(r) && zone in r.overlay
    ensures Sound(AfterApply(r, zone, req))
  {
    ApplyAllTidy(r.overlay[zone], Processed(req.section, |req.questions|));
  }

  lemma OnlySerialChanges(r: Replica, zone: string, serial: u32)
    requires zone in r.base && r.base[zone].soa.Some?
    ensures var after := AfterBump(r, zone, serial);
            && after.names == r.names && after.overlay == r.overlay && after.base.Keys == r.base.Keys
            && (forall n :: n in r.base && n != zone ==> after.base[n] == r.base[n])
            && after.base[zone] == r.base[zone].(soa := Some(WithSerial(r.base[zone].soa.value, serial)))
  {}

  lemma AfterBumpSound(r: Replica, zone: string, serial: u32)
    requires Sound(r) && zone in r.base
    ensures Sound(AfterBump(r, zone, serial))
  {}

  /** Whether the update of `zone` gets as far as a successful status write, and where to. */
  function WritesTo(store: Store, namespaces: seq<string>, zone: string, req: Request, env: Env): Option<ObjectKey> {
    if Answer(req.section, |req.questions|) == None && env.writeOk
    then Find(store, namespaces, TrimDot(zone), env.unreachable)
    else None
  }

  ghost predicate UpdateStep(
    namespaces: seq<string>, pre: System, zone: string, req: Request, env: Env, post: System, code: Rcode)
    requires zone in pre.replica.base && zone in pre.replica.overlay
  {
    var applied := System(AfterApply(pre.replica, zone, req), pre.store);
    match Answer(req.section, |req.questions|)
    case Some(c) => post == applied && code == c
    case None => SaveStep(namespaces, applied, zone, env, post, code)
  }

  /** Once the whole section is applied, the overlay is written to the first object found and then
      the SOA serial is set. A failure on the way leaves what was done before it. */
  ghost predicate SaveStep(namespaces: seq<string>, pre: System, zone: string, env: Env, post: System, code: Rcode)
    requires zone in pre.replica.base && zone in pre.replica.overlay
  {
    var r, serial := pre.replica, SerialOf(env.millis);
    match Find(pre.store, namespaces, TrimDot(zone), env.unreachable)
    case None => post == pre && code == Refused
    case Some(key) =>
      if !env.writeOk then post == pre && code == ServerFailure
      else
        && Saved(pre.store, key, r.overlay[zone], serial, post.store)
        && post.replica == AfterBump(r, zone, serial)
        && code == if r.base[zone].soa.Some? && env.replyOk then Success else ServerFailure
  }

  /** `after` is `store` with the status of `key` set to a snapshot of `v` and to `serial`. */
  ghost predicate Saved(store: Store, key: ObjectKey, v: ZoneVal, serial: u32, after: Store) {
    && key in store && key in after
    && Snapshot(after[key].status.dynamicRRs, v)
    && after[key].status.serial == serial
    && after == store[key := store[key].(status := after[key].status)]
  }

  ghost predicate ServeStep(namespaces: seq<string>, pre: System, req: Request, env: Env, post: System, out: Outcome)
    requires pre.replica.base.Keys == pre.replica.overlay.Keys
  {
    var zone := Routing.Route(pre.replica.names, QName(req));
    if zone == "" then post == pre && out == NextPlugin
    else if zone !in pre.replica.overlay then post == pre && out == Answered(ServerFailure)
    else if QType(req) == TYPE_AXFR || QType(req) == TYPE_IXFR then post == pre && out == Answered(Refused)
    else if req.opcode == OPCODE_NOTIFY then post == pre && out == Answered(Success)
    else if req.opcode == OPCODE_UPDATE then
      out.Answered? && UpdateStep(namespaces, pre, zone, req, env, post, out.code)
    else post == pre && out == LookedUp(Merged(pre.replica.base[zone], pre.replica.overlay[zone]))
  }

  /** What reading the reconciled object gives. */
  datatype Fetched = NotFound | Failed | Object(obj: ZoneObject)
  datatype Reconciled = Done | Retry

  function ReconcileStep(r: Replica, got: Fetched): (Replica, Reconciled) {
    match got
    case NotFound => (r, Done)
    case Failed => (r, Retry)
    case Object(obj) =>
      var n := Fqdn(obj.name);
      if obj.deleting && n in r.base then (Drop(r, n), Done)
      else match ParseZone(obj.text, n)
        case None => (r, Retry)
        case Some(v) =>
          if n in r.base then (r.(base := r.base[n := v]), Done)
          else (Replica(r.names + [n], r.base[n := v], r.overlay[n := EmptyZone(n)]), Done)
  }
}
