/** The Zone objects of the cluster: the zone text a user writes and the status this plugin writes. */
module Cluster {
  import opened Wrappers
  import opened Dns
  import opened ZoneValue
  import FileZone

  datatype Status = Status(dynamicRRs: seq<Entry>, serial: u32)
  datatype ZoneObject = ZoneObject(name: string, text: seq<Entry>, status: Status, deleting: bool)
  datatype ObjectKey = ObjectKey(namespace: string, name: string)
  type Store = map<ObjectKey, ZoneObject>

  /** The first namespace in which the object can be read. Reads fail in `unreachable` namespaces. */
  function Find(store: Store, namespaces: seq<string>, name: string, unreachable: set<string>): Option<ObjectKey> {
    if namespaces == [] then None
    else
      var key := ObjectKey(namespaces[0], name);
      if key in store && namespaces[0] !in unreachable then Some(key)
      else Find(store, namespaces[1..], name, unreachable)
  }

  lemma {:induction false} FindInStore(store: Store, namespaces: seq<string>, name: string, unreachable: set<string>)
    ensures var f := Find(store, namespaces, name, unreachable);
            f.Some? ==> f.value in store && f.value.name == name && f.value.namespace in namespaces
  {
    if namespaces != [] {
      FindInStore(store, namespaces[1..], name, unreachable);
    }
  }

  /** The object is found in the first of the namespaces that can be read and has one, and not at all if
      there is none. */
  lemma {:induction false} FoundFirst(
    store: Store, namespaces: seq<string>, name: string, unreachable: set<string>, p: nat)
    requires p <= |namespaces|
    requires forall q :: 0 <= q < p ==> ObjectKey(namespaces[q], name) !in store || namespaces[q] in unreachable
    ensures p == |namespaces| ==> Find(store, namespaces, name, unreachable) == None
    ensures p < |namespaces| && ObjectKey(namespaces[p], name) in store && namespaces[p] !in unreachable ==>
              Find(store, namespaces, name, unreachable) == Some(ObjectKey(namespaces[p], name))
  {
    if p > 0 {
      FoundFirst(store, namespaces[1..], name, unreachable, p - 1);
    }
  }

  /** `texts` print the contents of `v`, in one of the orders the library may list them. */
  ghost predicate Snapshot(texts: seq<Entry>, v: ZoneVal) {
    (forall i :: 0 <= i < |texts| ==> texts[i].Rendered?) && Lists(Parsed(texts), v)
  }

  lemma {:induction false} SnapshotOfRest(v: ZoneVal, s: seq<RR>, rest: set<Key>) returns (all: seq<RR>)
    requires Tidy(v) && rest <= v.tree.Keys && FileZone.ListsBut(s, v, rest)
    ensures Lists(all, v)
    decreases rest
  {
    if rest == {} {
      all := s;
    } else {
      var k :| k in rest;
      FileZone.ListOneMore(s, v, rest, k);
      all := SnapshotOfRest(v, s + v.tree[k], rest - {k});
    }
  }

  /** Every zone can be listed. */
  lemma SnapshotExists(v: ZoneVal) returns (texts: seq<Entry>)
    requires Tidy(v)
    ensures Snapshot(texts, v)
  {
    var all := SnapshotOfRest(v, [], v.tree.Keys);
    texts := PrintAll(all);
    PrintThenParse(all);
  }

  /** What a snapshot of an overlay stands for is that overlay. */
  lemma SnapshotReplays(texts: seq<Entry>, v: ZoneVal)
    requires Tidy(v) && v.soa == None && v.ns == []
    requires Snapshot(texts, v)
    ensures Replay(v.origin, texts) == v
  {
    Rebuild(v, Parsed(texts));
  }

  class Client {
    var objects: Store

    constructor (objects: Store)
      ensures this.objects == objects
    {
      this.objects := objects;
    }

    method Get(key: ObjectKey, unreachable: set<string>) returns (found: Option<ZoneObject>)
      ensures found == if key in objects && key.namespace !in unreachable then Some(objects[key]) else None
    {
      found := if key in objects && key.namespace !in unreachable then Some(objects[key]) else None;
    }

    /** A status write replaces the status of the object and nothing else, or fails. */
    method UpdateStatus(key: ObjectKey, status: Status, writeOk: bool) returns (ok: bool)
      requires key in objects
      modifies this
      ensures ok == writeOk
      ensures objects == if ok then old(objects)[key := old(objects)[key].(status := status)] else old(objects)
    {
      ok := writeOk;
      if ok {
        objects := objects[key := objects[key].(status := status)];
      }
    }
  }

  /** The status part of a Zone object while a caller fills it in. */
  class ZoneStatus {
    var dynamicRRs: seq<Entry>
    var serial: u32

    constructor (status: Status)
      ensures dynamicRRs == status.dynamicRRs && serial == status.serial
    {
      dynamicRRs, serial := status.dynamicRRs, status.serial;
    }

    method SetDynamicRRs(rrs: seq<RR>)
      modifies this
      ensures dynamicRRs == PrintAll(rrs) && serial == old(serial)
    {
      var newRRs: seq<Entry> := [];
      for i := 0 to |rrs|
        invariant newRRs == PrintAll(rrs[..i])
      {
        newRRs := newRRs + [Print(rrs[i])];
        assert rrs[..i + 1] == rrs[..i] + [rrs[i]];
      }
      assert rrs[..|rrs|] == rrs;
      dynamicRRs := newRRs;
    }

    /** The overlay the persisted texts stand for; null when its tree would be empty. */
    method GetDynamicRRsAsZone(name: string) returns (z: FileZone.Zone?)
      ensures z == null <==> Replay(name, dynamicRRs).tree == map[]
      ensures z != null ==> fresh(z) && z.Value() == Replay(name, dynamicRRs)
    {
      var zone := new FileZone.Zone(name);
      FileZone.InsertTexts(zone, dynamicRRs);
      PutAllTidy(EmptyZone(name), Parsed(dynamicRRs));
      var elems := zone.All();
      z := if elems == [] then null else zone;
    }
  }

  /** Setting a status and reading it back builds the zone that inserting the records builds. */
  lemma StatusRoundTrip(name: string, rrs: seq<RR>)
    ensures Replay(name, PrintAll(rrs)) == PutAll(EmptyZone(name), rrs)
  {
    PrintThenParse(rrs);
  }

  lemma {:induction false} SomethingLands(v: ZoneVal, rrs: seq<RR>, i: nat)
    requires i < |rrs| && Lands(rrs[i], v.origin)
    ensures PutAll(v, rrs).tree != map[]
  {
    PutAllAppends(v, rrs[..|rrs| - 1], KeyOf(rrs[|rrs| - 1]));
    if i < |rrs| - 1 {
      SomethingLands(v, rrs[..|rrs| - 1], i);
      var t := PutAll(v, rrs[..|rrs| - 1]).tree;
      assert t.Keys != {};
      assert t.Keys <= PutAll(v, rrs).tree.Keys;
    } else {
      assert KeyOf(rrs[i]) in PutAll(v, rrs).tree;
    }
  }

  lemma {:induction false} NothingLands(v: ZoneVal, rrs: seq<RR>)
    requires forall i :: 0 <= i < |rrs| ==> !Lands(rrs[i], v.origin)
    ensures PutAll(v, rrs).tree == v.tree && PutAll(v, rrs).origin == v.origin
  {
    if rrs != [] {
      NothingLands(v, rrs[..|rrs| - 1]);
    }
  }

  /** Reading a status back gives no zone exactly when no record lands outside the apex. */
  lemma StatusReadsAsNothing(name: string, rrs: seq<RR>)
    ensures Replay(name, PrintAll(rrs)).tree == map[] <==> forall i :: 0 <= i < |rrs| ==> !Lands(rrs[i], name)
  {
    StatusRoundTrip(name, rrs);
    if forall i :: 0 <= i < |rrs| ==> !Lands(rrs[i], name) {
      NothingLands(EmptyZone(name), rrs);
    } else {
      var i :| 0 <= i < |rrs| && Lands(rrs[i], name);
      SomethingLands(EmptyZone(name), rrs, i);
    }
  }
}
