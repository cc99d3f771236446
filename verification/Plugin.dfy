/** The plugin object: the request handler and the merge it serves from. */
module Plugin {
  import opened Wrappers
  import opened Dns
  import opened ZoneValue
  import opened Update
  import opened Registry
  import opened Cluster
  import opened Steps
  import FileZone
  import Routing

  twostate lemma PairWithSerial(ps: (Pair, u32))
    requires var p := ps.0;
             && old(ShowsPair(p)) && unchanged(p.z) && unchanged(p.dz)
             && (p.dz.soa != null ==> unchanged(p.dz.soa))
             && p.z.soa != null && p.z.soa.rr == WithSerial(old(p.z.soa.rr), ps.1)
    ensures var p := ps.0;
            && p.base.soa.Some?
            && ShowsPair(p.(base := p.base.(soa := Some(WithSerial(p.base.soa.value, ps.1)))))
  {}

  twostate lemma PairWithOverlay(po: (Pair, ZoneVal))
    requires var p := po.0;
             && old(ShowsPair(p)) && unchanged(p.z) && (p.z.soa != null ==> unchanged(p.z.soa))
             && p.dz.Value() == po.1 && p.dz.soa == old(p.dz.soa)
    ensures ShowsPair(po.0.(overlay := po.1))
  {}

  class DynamicUpdate {
    const zones: Zones
    const namespaces: seq<string>
    const client: Client

    constructor (zones: Zones, namespaces: seq<string>, client: Client)
      ensures this.zones == zones && this.namespaces == namespaces && this.client == client
    {
      this.zones, this.namespaces, this.client := zones, namespaces, client;
    }

    /** The dynamic zone on top of the static one, in a new zone that shares the static zone's SOA
        object; null when either is missing. */
    method Merge(origin: string, ghost r: Replica) returns (newZone: FileZone.Zone?)
      requires zones.Shows(r) && Sound(r)
      ensures newZone == null <==> origin !in r.base
      ensures newZone != null ==>
                && fresh(newZone) && newZone.soa == zones.z[origin].soa
                && newZone.Value() == Merged(r.base[origin], r.overlay[origin])
    {
      if origin !in zones.z || origin !in zones.dynamicZones {
        return null;
      }
      zones.ShownZones(r, origin);
      newZone := MergeZones(zones.z[origin], zones.dynamicZones[origin]);
    }

    static method MergeZones(z: FileZone.Zone, dz: FileZone.Zone) returns (newZone: FileZone.Zone)
      requires Tidy(z.Value()) && Tidy(dz.Value()) && z.origin == dz.origin
      ensures fresh(newZone) && newZone.soa == z.soa
      ensures newZone.Value() == Merged(z.Value(), dz.Value())
    {
      newZone := z.Copy();
      var elems := z.All();
      CopyInto(newZone, elems);
      var dynamicElems := dz.All();
      CopyInto(newZone, dynamicElems);
      MergeByInsertion(z.Value(), dz.Value(), FileZone.Flatten(elems), FileZone.Flatten(dynamicElems));
    }

    static method CopyInto(target: FileZone.Zone, elems: seq<seq<RR>>)
      requires forall i, j :: 0 <= i < |elems| && 0 <= j < |elems[i]| ==> Lands(elems[i][j], target.origin)
      modifies target
      ensures target.Value() == PutAll(old(target.Value()), FileZone.Flatten(elems))
      ensures target.soa == old(target.soa)
    {
      ghost var start := target.Value();
      for i := 0 to |elems|
        invariant target.Value() == PutAll(start, FileZone.Flatten(elems[..i])) && target.soa == old(target.soa)
      {
        assert elems[..i + 1] == elems[..i] + [elems[i]];
        FileZone.FlattenSnoc(elems[..i], elems[i]);
        PutAllSplit(start, FileZone.Flatten(elems[..i]), elems[i]);
        CopyElem(target, elems[i]);
      }
      assert elems[..|elems|] == elems;
    }

    static method CopyElem(target: FileZone.Zone, elem: seq<RR>)
      requires forall j :: 0 <= j < |elem| ==> Lands(elem[j], target.origin)
      modifies target
      ensures target.Value() == PutAll(old(target.Value()), elem)
      ensures target.soa == old(target.soa)
    {
      ghost var start := target.Value();
      for j := 0 to |elem|
        invariant target.Value() == PutAll(start, elem[..j]) && target.soa == old(target.soa)
      {
        assert elem[..j + 1] == elem[..j] + [elem[j]];
        FileZone.PutAllSnoc(start, elem[..j], elem[j]);
        var ok := target.Insert(elem[j]);
      }
      assert elem[..|elem|] == elem;
    }

    /** Applying an update section to the overlay of `zone` changes that overlay only. */
    method ApplyTo(zone: string, req: Request, ghost r: Replica) returns (code: Option<Rcode>)
      requires zones.Shows(r) && zone in r.base
      modifies zones.dynamicZones[zone]
      ensures zones.Shows(AfterApply(r, zone, req))
      ensures zones.z[zone].soa == old(zones.z[zone].soa)
      ensures code == Answer(req.section, |req.questions|)
    {
      hide ShowsPair;
      ghost var after := AfterApply(r, zone, req);
      var dz := zones.dynamicZones[zone];
      zones.ShownZones(r, zone);
      forall n | n in zones.z
        ensures zones.z[n] != dz && (n != zone ==> zones.dynamicZones[n] != dz)
      {
        zones.ZonesApart(r, zone, n);
      }
      code := ApplySection(dz, |req.questions|, req.section);
      forall n | n in zones.z
        ensures ShowsPair(Pair(n, zones.z[n], zones.dynamicZones[n], after.base[n], after.overlay[n]))
      {
        if n != zone {
          PairKept(Pair(n, zones.z[n], zones.dynamicZones[n], r.base[n], r.overlay[n]));
        } else {
          PairWithOverlay((Pair(n, zones.z[n], dz, r.base[n], r.overlay[n]), after.overlay[n]));
        }
      }
    }

    method FindObject(name: string, unreachable: set<string>) returns (found: Option<ObjectKey>)
      ensures found == Find(client.objects, namespaces, name, unreachable)
    {
      found := None;
      for i := 0 to |namespaces|
        invariant found == None
        invariant Find(client.objects, namespaces, name, unreachable)
               == Find(client.objects, namespaces[i..], name, unreachable)
      {
        var key := ObjectKey(namespaces[i], name);
        var obj := client.Get(key, unreachable);
        if obj.Some? {
          return Some(key);
        }
      }
    }

    static method PrintElems(elems: seq<seq<RR>>) returns (texts: seq<Entry>)
      ensures texts == PrintAll(FileZone.Flatten(elems))
    {
      texts := [];
      for i := 0 to |elems|
        invariant texts == PrintAll(FileZone.Flatten(elems[..i]))
      {
        ghost var before := FileZone.Flatten(elems[..i]);
        for j := 0 to |elems[i]|
          invariant texts == PrintAll(before + elems[i][..j])
        {
          texts := texts + [Print(elems[i][j])];
        }
        assert elems[i][..|elems[i]|] == elems[i];
        assert elems[..i + 1] == elems[..i] + [elems[i]];
        FileZone.FlattenSnoc(elems[..i], elems[i]);
      }
      assert elems[..|elems|] == elems;
    }

    /** The overlay is printed into the status of the object, with the new serial. */
    method Persist(key: ObjectKey, dz: FileZone.Zone, serial: u32, writeOk: bool) returns (ok: bool)
      requires key in client.objects && Tidy(dz.Value())
      modifies client
      ensures ok == writeOk
      ensures !ok ==> client.objects == old(client.objects)
      ensures ok ==> Saved(old(client.objects), key, dz.Value(), serial, client.objects)
    {
      var elems := dz.All();
      var texts := PrintElems(elems);
      PrintThenParse(FileZone.Flatten(elems));
      ok := client.UpdateStatus(key, Status(texts, serial), writeOk);
    }

    /** Setting the serial on the merged zone's SOA object sets it on the static zone, which holds
        the same object. */
    method SetSerial(zone: string, serial: u32, ghost r: Replica) returns (defined: bool)
      requires zones.Shows(r) && Sound(r) && zone in r.base
      modifies zones.z[zone].soa
      ensures zones.Shows(AfterBump(r, zone, serial))
      ensures defined == r.base[zone].soa.Some?
    {
      zones.ShownZones(r, zone);
      var merged := Merge(zone, r);
      defined := merged.soa != null;
      if defined {
        OverwriteSerial(zone, merged, serial, r);
      }
    }

    method OverwriteSerial(ghost zone: string, merged: FileZone.Zone, serial: u32, ghost r: Replica)
      requires zones.Shows(r) && zone in r.base
      requires merged.soa != null && merged.soa == zones.z[zone].soa
      requires merged !in zones.z.Values && merged !in zones.dynamicZones.Values
      modifies merged, merged.soa
      ensures zones.Shows(AfterBump(r, zone, serial))
    {
      hide AfterBump, WithSerial, ShowsPair;
      ghost var after := AfterBump(r, zone, serial);
      zones.ShownZones(r, zone);
      OnlySerialChanges(r, zone, serial);
      forall n | n in zones.z
        ensures zones.dynamicZones[n].soa != merged.soa
        ensures n != zone ==> zones.z[n].soa != merged.soa
      {
        zones.SoasApart(r, zone, n);
      }
      merged.soa.rr := WithSerial(merged.soa.rr, serial);
      merged.InsertSoa(merged.soa);
      forall n | n in zones.z
        ensures ShowsPair(Pair(n, zones.z[n], zones.dynamicZones[n], after.base[n], after.overlay[n]))
      {
        if n != zone {
          PairKept(Pair(n, zones.z[n], zones.dynamicZones[n], r.base[n], r.overlay[n]));
        } else {
          PairWithSerial((Pair(n, zones.z[n], zones.dynamicZones[n], r.base[n], r.overlay[n]), serial));
        }
      }
    }

    /** Write the overlay of `zone` to its object, then set the serial of its SOA. */
    method Save(zone: string, env: Env, ghost pre: System) returns (code: Rcode, ghost post: System)
      requires zones.Shows(pre.replica) && Sound(pre.replica) && client.objects == pre.store
      requires zone in pre.replica.base
      modifies zones.z[zone].soa, client
      ensures zones.Shows(post.replica) && client.objects == post.store
      ensures SaveStep(namespaces, pre, zone, env, post, code)
    {
      hide Sound, Tidy, ShowsPair, Saved, Find;
      ghost var r := pre.replica;
      SoundZone(r, zone);
      zones.ShownZones(r, zone);
      post := pre;
      var found := FindObject(TrimDot(zone), env.unreachable);
      FindInStore(pre.store, namespaces, TrimDot(zone), env.unreachable);
      if found == None {
        return Refused, post;
      }
      var ok := Persist(found.value, zones.dynamicZones[zone], SerialOf(env.millis), env.writeOk);
      if !ok {
        return ServerFailure, post;
      }
      var defined := SetSerial(zone, SerialOf(env.millis), r);
      post := System(AfterBump(r, zone, SerialOf(env.millis)), client.objects);
      code := if defined && env.replyOk then Success else ServerFailure;
    }

    method HandleUpdate(zone: string, req: Request, env: Env, ghost pre: System)
      returns (code: Rcode, ghost post: System)
      requires zones.Shows(pre.replica) && Sound(pre.replica) && client.objects == pre.store
      requires zone in pre.replica.base
      modifies zones.dynamicZones[zone], zones.z[zone].soa, client
      ensures zones.Shows(post.replica) && client.objects == post.store
      ensures UpdateStep(namespaces, pre, zone, req, env, post, code)
    {
      hide Sound, Zones.Shows, ShowsPair, SaveStep, ApplyAll, Processed, Answer;
      zones.ShownZones(pre.replica, zone);
      post := System(AfterApply(pre.replica, zone, req), pre.store);
      AfterApplySound(pre.replica, zone, req);
      var rejected := ApplyTo(zone, req, pre.replica);
      if rejected.Some? {
        return rejected.value, post;
      }
      code, post := Save(zone, env, post);
    }

    /** The request handler. */
    method ServeDNS(req: Request, env: Env, ghost pre: System)
      returns (out: Outcome, ghost post: System)
      requires zones.Shows(pre.replica) && Sound(pre.replica) && client.objects == pre.store
      modifies zones.dynamicZones.Values, zones.Soas(), client
      ensures zones.Shows(post.replica) && client.objects == post.store
      ensures ServeStep(namespaces, pre, req, env, post, out)
    {
      post := pre;
      var zone := Routing.Route(zones.names, QName(req));
      if zone == "" {
        return NextPlugin, post;
      }
      if zone !in zones.dynamicZones {
        return Answered(ServerFailure), post;
      }
      if QType(req) == TYPE_AXFR || QType(req) == TYPE_IXFR {
        return Answered(Refused), post;
      }
      if req.opcode == OPCODE_NOTIFY {
        return Answered(Success), post;
      }
      if req.opcode == OPCODE_UPDATE {
        var code;
        code, post := HandleUpdate(zone, req, env, pre);
        return Answered(code), post;
      }
      var merged := Merge(zone, pre.replica);
      out := LookedUp(merged.Value());
    }

    /** The controller's reaction to a change of a Zone object. */
    method Reconcile(got: Fetched, ghost r: Replica) returns (result: Reconciled)
      requires zones.Shows(r)
      modifies zones
      ensures zones.Shows(ReconcileStep(r, got).0)
      ensures result == ReconcileStep(r, got).1
    {
      hide ShowsPair, ReadTo, ReadableTo;
      match got {
        case NotFound => return Done;
        case Failed => return Retry;
        case Object(obj) =>
          var n := Fqdn(obj.name);
          if obj.deleting && n in zones.z {
            zones.DeleteZone(n, r);
            return Done;
          }
          var parsed := FileZone.Parse(obj.text, n);
          if parsed == null {
            return Retry;
          }
          if n !in zones.z {
            zones.AddZone(n, parsed, r);
          } else {
            zones.ReplaceZone(n, parsed, r);
          }
          result := Done;
      }
    }
  }
}
